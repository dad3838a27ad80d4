/**
  The LZ4 block format, as src/pcutp/compression.py and picocalc/PCUTP.BAS use it: a block is a list of
  sequences (literals, then a back reference) closed by a run of final literals.

  Decoding is specified in two independent parts. `Parse` cuts the bytes into sequences and knows nothing of the
  output; `Replay` produces the output and copies a match one byte at a time. Neither knows the size limit that
  the real decoders enforce while they run.
*/
module Lz4Format {
  import opened Basics

  /** `count` bytes are copied from `offset` bytes back, after `literals` have been appended. */
  datatype Sequence = Sequence(literals: bytes, offset: nat, count: nat)

  datatype Block = Block(sequences: seq<Sequence>, tail: bytes)

  // ---- reading ------------------------------------------------------------

  /** Adds extension bytes to `v` up to and including the first that is not 255. The result carries the position
      after them. */
  function ReadExtra(p: bytes, pos: nat, v: nat): (r: Option<(nat, nat)>)
    ensures r.Some? ==> r.value.0 >= v && pos < r.value.1 <= |p|
    decreases |p| - pos
  {
    if pos >= |p| then None
    else if p[pos] == 255 then ReadExtra(p, pos + 1, v + 255)
    else Some((v + p[pos], pos + 1))
  }

  /** A length field: a nibble below 15 is the length, 15 announces extension bytes. */
  function ReadLength(p: bytes, pos: nat, nibble: nat): (r: Option<(nat, nat)>)
    requires pos <= |p|
    ensures r.Some? ==> r.value.0 >= nibble && pos <= r.value.1 <= |p|
  {
    if nibble == 15 then ReadExtra(p, pos, 15) else Some((nibble, pos))
  }

  /** A little-endian 16-bit number. */
  function Word(low: byte, high: byte): (w: nat)
    ensures w < 65536
  {
    low as int + 256 * high as int
  }

  /** One step of parsing: the final literals, or a sequence and the position after it. */
  datatype Item = Final(literals: bytes) | Inner(sequence: Sequence, next: nat)

  function ReadItem(p: bytes, pos: nat): (r: Option<Item>)
    requires pos < |p|
    ensures r.Some? && r.value.Inner? ==> pos < r.value.next <= |p|
  {
    match ReadLength(p, pos + 1, p[pos] / 16)
    case None => None
    case Some((lit, q)) =>
      var e := q + lit;
      if e > |p| then None
      else if e == |p| then Some(Final(p[q..e]))
      else if e + 2 > |p| then None else
      match ReadLength(p, e + 2, p[pos] % 16)
      case None => None
      case Some((m, next)) => Some(Inner(Sequence(p[q..e], Word(p[e], p[e + 1]), m + 4), next))
  }

  function Parse(p: bytes, pos: nat): (r: Option<Block>)
    requires pos <= |p|
    decreases |p| - pos
  {
    if pos == |p| then None else
    match ReadItem(p, pos)
    case None => None
    case Some(Final(literals)) => Some(Block([], literals))
    case Some(Inner(s, next)) =>
      match Parse(p, next)
      case None => None
      case Some(rest) => Some(Block([s] + rest.sequences, rest.tail))
  }

  // ---- meaning ------------------------------------------------------------

  /** The overlapping copy, one byte at a time: each byte copied may itself be copied later. */
  function Copy(o: bytes, offset: nat, n: nat): (r: bytes)
    requires 1 <= offset <= |o|
    ensures |r| == |o| + n && r[..|o|] == o
    decreases n
  {
    if n == 0 then o
    else
      var more := o + [o[|o| - offset]];
      var r := Copy(more, offset, n - 1);
      assert r[..|o|] == r[..|more|][..|o|];
      r
  }

  function Replay(s: seq<Sequence>, o: bytes): (r: Option<bytes>)
    ensures r.Some? ==> |o| <= |r.value|
    decreases |s|
  {
    if s == [] then Some(o)
    else
      var withLiterals := o + s[0].literals;
      if 1 <= s[0].offset <= |withLiterals|
      then Replay(s[1..], Copy(withLiterals, s[0].offset, s[0].count))
      else None
  }

  /** What the bytes of `p` from `pos` on turn the output `o` into. */
  function DecodeFrom(p: bytes, pos: nat, o: bytes): (r: Option<bytes>)
    requires pos <= |p|
    ensures r.Some? ==> |o| <= |r.value|
  {
    match Parse(p, pos)
    case None => None
    case Some(b) =>
      match Replay(b.sequences, o)
      case None => None
      case Some(out) => Some(out + b.tail)
  }

  function Decode(p: bytes): Option<bytes> {
    DecodeFrom(p, 0, [])
  }

  /** `r` if it has exactly `size` bytes. */
  function OfSize(r: Option<bytes>, size: nat): Option<bytes> {
    if r.Some? && |r.value| == size then r else None
  }

  // ---- writing ------------------------------------------------------------

  function Extra(v: nat): bytes {
    if v >= 255 then [255] + Extra(v - 255) else [v]
  }

  function LengthBytes(v: nat): bytes {
    if v >= 15 then Extra(v - 15) else []
  }

  predicate WellFormed(s: Sequence) {
    1 <= s.offset < 65536 && s.count >= 4
  }

  /** A token, the literal length and the literals. */
  function FrontBytes(low: nat, literals: bytes): bytes
    requires low < 16
  {
    [16 * Min(|literals|, 15) + low] + LengthBytes(|literals|) + literals
  }

  function WordBytes(w: nat): (r: bytes)
    requires w < 65536
    ensures |r| == 2 && Word(r[0], r[1]) == w
  {
    [w % 256, w / 256]
  }

  /** The offset, low byte first, and the match length. */
  function BackBytes(offset: nat, count: nat): bytes
    requires offset < 65536 && count >= 4
  {
    WordBytes(offset) + LengthBytes(count - 4)
  }

  function RenderSequence(s: Sequence): bytes
    requires WellFormed(s)
  {
    FrontBytes(Min(s.count - 4, 15), s.literals) + BackBytes(s.offset, s.count)
  }

  function RenderTail(tail: bytes): bytes {
    FrontBytes(0, tail)
  }

  function RenderAll(s: seq<Sequence>): bytes
    requires forall x :: x in s ==> WellFormed(x)
  {
    if s == [] then [] else RenderSequence(s[0]) + RenderAll(s[1..])
  }

  function Render(b: Block): bytes
    requires forall x :: x in b.sequences ==> WellFormed(x)
  {
    RenderAll(b.sequences) + RenderTail(b.tail)
  }

  // ---- the format round trip ---------------------------------------------

  lemma {:induction false} ExtraReadsBack(p: bytes, pos: nat, v: nat, base: nat)
    requires pos + |Extra(v)| <= |p| && p[pos..pos + |Extra(v)|] == Extra(v)
    ensures ReadExtra(p, pos, base) == Some((base + v, pos + |Extra(v)|))
    decreases v
  {
    assert p[pos] == p[pos..pos + |Extra(v)|][0];
    if v >= 255 {
      assert Extra(v)[1..] == Extra(v - 255);
      assert p[pos + 1..pos + 1 + |Extra(v - 255)|] == p[pos..pos + |Extra(v)|][1..];
      ExtraReadsBack(p, pos + 1, v - 255, base + 255);
    }
  }

  lemma LengthReadsBack(p: bytes, pos: nat, v: nat)
    requires pos + |LengthBytes(v)| <= |p| && p[pos..pos + |LengthBytes(v)|] == LengthBytes(v)
    ensures ReadLength(p, pos, Min(v, 15)) == Some((v, pos + |LengthBytes(v)|))
  {
    if v >= 15 {
      ExtraReadsBack(p, pos, v - 15, 15);
    }
  }

  /** `x` stands at `pos` in `p`. */
  ghost predicate At(p: bytes, pos: nat, x: bytes) {
    pos + |x| <= |p| && p[pos..pos + |x|] == x
  }

  lemma AtSplit(p: bytes, pos: nat, x: bytes, y: bytes)
    requires At(p, pos, x + y)
    ensures At(p, pos, x) && At(p, pos + |x|, y)
  {
    var whole := p[pos..pos + |x + y|];
    assert p[pos..pos + |x|] == whole[..|x|];
    assert p[pos + |x|..pos + |x| + |y|] == whole[|x|..];
  }

  lemma AtByte(p: bytes, pos: nat, x: bytes, i: nat)
    requires At(p, pos, x) && i < |x|
    ensures pos + i < |p| && p[pos + i] == x[i]
  {
    assert p[pos + i] == p[pos..pos + |x|][i];
  }

  lemma TokenNibbles(high: nat, low: nat)
    requires high < 16 && low < 16
    ensures (16 * high + low) / 16 == high && (16 * high + low) % 16 == low
  {
  }

  lemma FrontReadsBack(p: bytes, pos: nat, low: nat, literals: bytes) returns (q: nat)
    requires low < 16 && At(p, pos, FrontBytes(low, literals))
    ensures q == pos + |FrontBytes(low, literals)| - |literals|
    ensures pos < q && q + |literals| <= |p| && p[q..q + |literals|] == literals
    ensures p[pos] / 16 == Min(|literals|, 15) && p[pos] % 16 == low
    ensures ReadLength(p, pos + 1, p[pos] / 16) == Some((|literals|, q))
  {
    var token, n := 16 * Min(|literals|, 15) + low, LengthBytes(|literals|);
    AtSplit(p, pos, [token] + n, literals);
    AtSplit(p, pos, [token], n);
    AtByte(p, pos, [token], 0);
    TokenNibbles(Min(|literals|, 15), low);
    LengthReadsBack(p, pos + 1, |literals|);
    q := pos + 1 + |n|;
  }

  lemma BackReadsBack(p: bytes, e: nat, offset: nat, count: nat)
    requires offset < 65536 && count >= 4
    requires At(p, e, BackBytes(offset, count))
    ensures e + 2 <= |p| && Word(p[e], p[e + 1]) == offset
    ensures ReadLength(p, e + 2, Min(count - 4, 15)) == Some((count - 4, e + |BackBytes(offset, count)|))
  {
    var off, n := WordBytes(offset), LengthBytes(count - 4);
    AtSplit(p, e, off, n);
    AtByte(p, e, off, 0);
    AtByte(p, e, off, 1);
    LengthReadsBack(p, e + 2, count - 4);
  }

  lemma TailReadsBack(p: bytes, pos: nat, tail: bytes)
    requires At(p, pos, RenderTail(tail)) && pos + |RenderTail(tail)| == |p|
    ensures pos < |p| && ReadItem(p, pos) == Some(Final(tail))
  {
    var q := FrontReadsBack(p, pos, 0, tail);
  }

  lemma ReadInner(p: bytes, pos: nat, lit: nat, q: nat, e: nat, low: nat, m: nat, next: nat)
    requires pos < |p| && ReadLength(p, pos + 1, p[pos] / 16) == Some((lit, q)) && e == q + lit && e + 2 <= |p|
    requires p[pos] % 16 == low && ReadLength(p, e + 2, low) == Some((m, next))
    ensures ReadItem(p, pos) == Some(Inner(Sequence(p[q..e], Word(p[e], p[e + 1]), m + 4), next))
  {
  }

  lemma SequenceReadsBack(p: bytes, pos: nat, s: Sequence)
    requires WellFormed(s) && At(p, pos, RenderSequence(s))
    ensures pos < |p| && ReadItem(p, pos) == Some(Inner(s, pos + |RenderSequence(s)|))
  {
    hide ReadLength, LengthBytes, Word;
    var low := Min(s.count - 4, 15);
    var front, back := FrontBytes(low, s.literals), BackBytes(s.offset, s.count);
    AtSplit(p, pos, front, back);
    var q := FrontReadsBack(p, pos, low, s.literals);
    var e := pos + |front|;
    BackReadsBack(p, e, s.offset, s.count);
    ReadInner(p, pos, |s.literals|, q, e, low, s.count - 4, e + |back|);
  }

  lemma RenderSplits(b: Block)
    requires forall x :: x in b.sequences ==> WellFormed(x)
    requires b.sequences != []
    ensures Render(b) == RenderSequence(b.sequences[0]) + Render(Block(b.sequences[1..], b.tail))
  {
  }

  lemma FirstSequenceReadsBack(p: bytes, pos: nat, b: Block) returns (next: nat)
    requires forall x :: x in b.sequences ==> WellFormed(x)
    requires b.sequences != []
    requires At(p, pos, Render(b)) && pos + |Render(b)| == |p|
    ensures pos < |p| && ReadItem(p, pos) == Some(Inner(b.sequences[0], next))
    ensures var rest := Render(Block(b.sequences[1..], b.tail)); At(p, next, rest) && next + |rest| == |p|
  {
    var s, rest := b.sequences[0], Block(b.sequences[1..], b.tail);
    RenderSplits(b);
    AtSplit(p, pos, RenderSequence(s), Render(rest));
    SequenceReadsBack(p, pos, s);
    next := pos + |RenderSequence(s)|;
  }

  lemma {:induction false} BlockReadsBack(p: bytes, pos: nat, b: Block)
    requires forall x :: x in b.sequences ==> WellFormed(x)
    requires At(p, pos, Render(b)) && pos + |Render(b)| == |p|
    ensures Parse(p, pos) == Some(b)
    decreases |b.sequences|
  {
    if b.sequences == [] {
      assert Render(b) == RenderTail(b.tail);
      TailReadsBack(p, pos, b.tail);
    } else {
      var next := FirstSequenceReadsBack(p, pos, b);
      BlockReadsBack(p, next, Block(b.sequences[1..], b.tail));
      assert b.sequences == [b.sequences[0]] + b.sequences[1..];
    }
  }

  /** Any block of well-formed sequences survives rendering and parsing. */
  lemma FormatRoundTrip(b: Block)
    requires forall x :: x in b.sequences ==> WellFormed(x)
    ensures Parse(Render(b), 0) == Some(b)
  {
    assert At(Render(b), 0, Render(b));
    BlockReadsBack(Render(b), 0, b);
  }

  lemma {:induction false} RenderAllAppend(s: seq<Sequence>, x: Sequence)
    requires forall y :: y in s ==> WellFormed(y)
    requires WellFormed(x)
    ensures RenderAll(s + [x]) == RenderAll(s) + RenderSequence(x)
    decreases |s|
  {
    if s == [] {
      assert s + [x] == [x] && RenderAll([x][1..]) == [];
    } else {
      assert (s + [x])[1..] == s[1..] + [x];
      RenderAllAppend(s[1..], x);
    }
  }

  lemma {:induction false} ReplayAppend(s: seq<Sequence>, x: Sequence, o: bytes)
    ensures Replay(s + [x], o) == match Replay(s, o) case None => None case Some(r) => Replay([x], r)
    decreases |s|
  {
    if s == [] {
      assert s + [x] == [x];
    } else {
      assert (s + [x])[1..] == s[1..] + [x];
      var withLiterals := o + s[0].literals;
      if 1 <= s[0].offset <= |withLiterals| {
        ReplayAppend(s[1..], x, Copy(withLiterals, s[0].offset, s[0].count));
      }
    }
  }

  // ---- overlapping copies ---------------------------------------------------

  /** Past the original bytes, a copy repeats with period `offset`. */
  lemma {:induction false} CopyIsPeriodic(o: bytes, offset: nat, n: nat, t: nat)
    requires 1 <= offset <= |o| && |o| <= t < |o| + n
    ensures Copy(o, offset, n)[t] == Copy(o, offset, n)[t - offset]
    decreases n
  {
    var more := o + [o[|o| - offset]];
    if t > |o| {
      CopyIsPeriodic(more, offset, n - 1, t);
    } else {
      var r := Copy(more, offset, n - 1);
      assert r[t] == r[..|more|][t] && r[t - offset] == r[..|more|][t - offset];
    }
  }

  lemma {:induction false} CopyShiftsBack(o: bytes, offset: nat, n: nat, t: nat, q: nat)
    requires 1 <= offset <= |o| && t < |o| + n && |o| - offset + q * offset <= t
    ensures t - q * offset >= 0
    ensures Copy(o, offset, n)[t] == Copy(o, offset, n)[t - q * offset]
    decreases q
  {
    if q > 0 {
      assert q * offset == (q - 1) * offset + offset;
      CopyIsPeriodic(o, offset, n, t);
      CopyShiftsBack(o, offset, n, t - offset, q - 1);
    }
  }

  lemma {:induction false} CopyPrefix(o: bytes, offset: nat, k: nat, n: nat)
    requires 1 <= offset <= |o| && k <= n
    ensures Copy(o, offset, k) == Copy(o, offset, n)[..|o| + k]
    decreases n
  {
    if k > 0 {
      CopyPrefix(o + [o[|o| - offset]], offset, k - 1, n - 1);
    }
  }

  /** Position `t` of a copy of `k + m` bytes, where `k` bytes are `q` whole periods. */
  lemma ChunkByte(o: bytes, offset: nat, q: nat, k: nat, m: nat, t: nat)
    requires 1 <= offset <= |o| && k == q * offset && m <= offset + k
    requires |o| + k <= t < |o| + k + m
    ensures Copy(o, offset, k + m)[t] == Copy(o, offset, k)[t - k - offset]
  {
    assert (q + 1) * offset == k + offset;
    CopyShiftsBack(o, offset, k + m, t, q + 1);
    CopyPrefix(o, offset, k, k + m);
  }

  /** The doubling step: once whole periods have been copied, appending everything from the source on (or the
      part of it still wanted) is the same as copying that many bytes one at a time. */
  lemma CopyByChunk(o: bytes, offset: nat, q: nat, k: nat, m: nat)
    requires 1 <= offset <= |o| && k == q * offset && m <= offset + k
    ensures var done := Copy(o, offset, k);
            done + done[|o| - offset..|o| - offset + m] == Copy(o, offset, k + m)
  {
    var done, all := Copy(o, offset, k), Copy(o, offset, k + m);
    CopyPrefix(o, offset, k, k + m);
    var chunk := done[|o| - offset..|o| - offset + m];
    forall t | |done| <= t < |all|
      ensures all[t] == chunk[t - |done|]
    {
      ChunkByte(o, offset, q, k, m, t);
    }
    assert all == all[..|done|] + all[|done|..];
    assert all[|done|..] == chunk;
  }

  /** A match found in the input reproduces the input, however far it overlaps itself. */
  lemma {:induction false} CopyReproduces(data: bytes, pos: nat, offset: nat, n: nat)
    requires 1 <= offset <= pos && pos + n <= |data|
    requires forall t :: pos <= t < pos + n ==> data[t] == data[t - offset]
    ensures Copy(data[..pos], offset, n) == data[..pos + n]
    decreases n
  {
    if n > 0 {
      assert data[pos] == data[pos - offset];
      assert data[..pos] + [data[..pos][pos - offset]] == data[..pos + 1];
      CopyReproduces(data, pos + 1, offset, n - 1);
    }
  }

  // ---- sizes and conformance ----------------------------------------------

  lemma {:induction false} ExtraSize(v: nat)
    ensures |Extra(v)| == v / 255 + 1
  {
    if v >= 255 {
      ExtraSize(v - 255);
    }
  }

  function SequenceSpan(s: Sequence): nat {
    |s.literals| + s.count
  }

  /** The end-of-block rules of the format and the encoder's own minimum match length, for a block that produces
      `size` bytes, whose sequences begin at output position `start`. */
  ghost predicate Conforms(s: seq<Sequence>, start: nat, size: nat)
    decreases |s|
  {
    s == [] || (
      && 1 <= s[0].offset <= 65535
      && s[0].count >= 12
      && start + |s[0].literals| + 12 <= size
      && start + SequenceSpan(s[0]) + 5 <= size
      && Conforms(s[1..], start + SequenceSpan(s[0]), size))
  }

  function Spans(s: seq<Sequence>): nat {
    if s == [] then 0 else SequenceSpan(s[0]) + Spans(s[1..])
  }

  lemma {:induction false} ConformsAppend(s: seq<Sequence>, x: Sequence, start: nat, size: nat)
    requires Conforms(s, start, size)
    requires 1 <= x.offset <= 65535 && x.count >= 12
    requires start + Spans(s) + |x.literals| + 12 <= size
    requires start + Spans(s) + SequenceSpan(x) + 5 <= size
    ensures Conforms(s + [x], start, size)
    ensures Spans(s + [x]) == Spans(s) + SequenceSpan(x)
    decreases |s|
  {
    if s == [] {
      assert s + [x] == [x] && [x][1..] == [];
    } else {
      assert (s + [x])[1..] == s[1..] + [x];
      ConformsAppend(s[1..], x, start + SequenceSpan(s[0]), size);
    }
  }
}
