/** Control-line text: decimal numbers, checksums in hexadecimal, and words separated by white space. */
module Text {
  // ---- numbers ------------------------------------------------------------------

  function Digit(d: nat): char
    requires d < 10
  {
    '0' + d as char
  }

  predicate IsDigit(ch: char) {
    '0' <= ch <= '9'
  }

  /** `str.isdecimal` on ASCII text: at least one character, all of them digits. */
  predicate IsDecimal(s: string) {
    s != [] && forall i :: 0 <= i < |s| ==> IsDigit(s[i])
  }

  function Decimal(n: nat): string {
    if n < 10 then [Digit(n)] else Decimal(n / 10) + [Digit(n % 10)]
  }

  function Number(s: string): nat
    requires IsDecimal(s)
  {
    var d := (s[|s| - 1] - '0') as nat;
    if |s| == 1 then d else Number(s[..|s| - 1]) * 10 + d
  }

  lemma {:induction false} DecimalReadsBack(n: nat)
    ensures IsDecimal(Decimal(n)) && Number(Decimal(n)) == n
  {
    if n >= 10 {
      DecimalReadsBack(n / 10);
      var s := Decimal(n);
      assert s[..|s| - 1] == Decimal(n / 10);
    }
  }

  function Pow10(k: nat): (p: nat)
    ensures p >= 1
  {
    if k == 0 then 1 else 10 * Pow10(k - 1)
  }

  lemma {:induction false} DecimalIsShort(n: nat, k: nat)
    requires k >= 1 && n < Pow10(k)
    ensures 1 <= |Decimal(n)| <= k
  {
    if n >= 10 {
      DecimalIsShort(n / 10, k - 1);
    }
  }

  const HEX := "0123456789ABCDEF"

  function HexDigits(n: nat, width: nat): (s: string)
    ensures |s| == width
  {
    if width == 0 then [] else HexDigits(n / 16, width - 1) + [HEX[n % 16]]
  }

  /** A checksum as eight hexadecimal digits. */
  function Hex8(crc: bv32): (s: string)
    ensures |s| == 8
  {
    HexDigits(crc as nat, 8)
  }

  predicate IsHexDigit(ch: char) {
    '0' <= ch <= '9' || 'A' <= ch <= 'F'
  }

  predicate IsHex(s: string) {
    forall i :: 0 <= i < |s| ==> IsHexDigit(s[i])
  }

  function HexValue(ch: char): nat
    requires IsHexDigit(ch)
  {
    if ch <= '9' then (ch - '0') as nat else (ch - 'A') as nat + 10
  }

  function HexNumber(s: string): nat
    requires IsHex(s)
  {
    if s == [] then 0 else 16 * HexNumber(s[..|s| - 1]) + HexValue(s[|s| - 1])
  }

  function Pow16(k: nat): (p: nat)
    ensures p >= 1
  {
    if k == 0 then 1 else 16 * Pow16(k - 1)
  }

  lemma {:induction false} HexDigitsReadBack(n: nat, width: nat)
    requires n < Pow16(width)
    ensures IsHex(HexDigits(n, width)) && HexNumber(HexDigits(n, width)) == n
  {
    if width > 0 {
      HexDigitsReadBack(n / 16, width - 1);
      var s := HexDigits(n, width);
      assert s[..width - 1] == HexDigits(n / 16, width - 1);
      HexDigitIs(n % 16);
    }
  }

  lemma HexDigitIs(d: nat)
    requires d < 16
    ensures IsHexDigit(HEX[d]) && HexValue(HEX[d]) == d
  {
  }

  /** A checksum reads back from its eight digits. */
  lemma Hex8ReadsBack(crc: bv32)
    ensures IsHex(Hex8(crc)) && HexNumber(Hex8(crc)) == crc as nat && IsWord(Hex8(crc))
  {
    EightHexDigits();
    HexDigitsReadBack(crc as nat, 8);
  }

  lemma EightHexDigits()
    ensures Pow16(8) == 0x1_0000_0000
  {
    assert Pow16(4) == 0x1_0000;
  }

  // ---- words --------------------------------------------------------------------

  /** The ASCII characters at which `str.split()` splits. */
  predicate IsSpace(ch: char) {
    ch == ' ' || '\t' <= ch <= '\r' || '\U{1C}' <= ch <= '\U{1F}'
  }

  predicate IsWord(w: string) {
    w != [] && forall i :: 0 <= i < |w| ==> !IsSpace(w[i])
  }

  /** Where the word at the start of `s` ends. */
  function WordEnd(s: string): (n: nat)
    ensures n <= |s| && (forall i :: 0 <= i < n ==> !IsSpace(s[i])) && (n < |s| ==> IsSpace(s[n]))
  {
    if s == [] || IsSpace(s[0]) then 0 else 1 + WordEnd(s[1..])
  }

  /** `str.split()` */
  function Words(s: string): (ws: seq<string>)
    ensures forall w :: w in ws ==> IsWord(w)
    decreases |s|
  {
    if s == [] then []
    else if IsSpace(s[0]) then Words(s[1..])
    else [s[..WordEnd(s)]] + Words(s[WordEnd(s)..])
  }

  /** Words with one space between them. */
  function Joined(ws: seq<string>): string {
    if ws == [] then ""
    else if |ws| == 1 then ws[0]
    else ws[0] + " " + Joined(ws[1..])
  }

  lemma {:induction false} WordEndStops(w: string, rest: string)
    requires forall i :: 0 <= i < |w| ==> !IsSpace(w[i])
    requires rest == [] || IsSpace(rest[0])
    ensures WordEnd(w + rest) == |w|
  {
    if w == [] {
      assert w + rest == rest;
    } else {
      WordEndStops(w[1..], rest);
      assert (w + rest)[1..] == w[1..] + rest;
    }
  }

  lemma {:induction false} WordsOfJoined(ws: seq<string>)
    requires forall w :: w in ws ==> IsWord(w)
    ensures Words(Joined(ws)) == ws
  {
    if ws != [] {
      var w := ws[0];
      assert IsWord(w);
      var rest := if |ws| == 1 then "" else " " + Joined(ws[1..]);
      assert Joined(ws) == w + rest;
      WordEndStops(w, rest);
      assert (w + rest)[..|w|] == w && (w + rest)[|w|..] == rest;
      WordsOfJoined(ws[1..]);
      if |ws| > 1 {
        assert rest[1..] == Joined(ws[1..]);
      }
    }
  }
}
