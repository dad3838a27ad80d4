/**
  CRC-32/ISO-HDLC, three ways: the reference code of section 8 of RFC 1952 (which zlib implements), the firmware
  function MATH(CRC32 ...) with its polynomial, masks and reflection flags, and the chunked chaining of
  picocalc/PCUTP.BAS on top of that function.

  Facts about single steps are proved on bit vectors; everything that repeats a step goes through `Iterate` and
  `Fold`, whose laws know nothing of bit vectors.
*/
module Crc32 {
  import opened Basics

  const POLY: bv32 := 0x04C11DB7
  const REVERSED_POLY: bv32 := 0xEDB88320
  const ONES: bv32 := 0xFFFFFFFF

  function Octet(b: byte): bv32 {
    (b as bv32) & 0xFF
  }

  // ---- repetition ---------------------------------------------------------

  function Iterate<T>(f: T -> T, x: T, n: nat): T {
    if n == 0 then x else Iterate(f, f(x), n - 1)
  }

  function Fold<T>(f: (T, byte) -> T, x: T, s: bytes): T
    decreases |s|
  {
    if s == [] then x else Fold(f, f(x, s[0]), s[1..])
  }

  lemma {:induction false} FoldSplits<T>(f: (T, byte) -> T, x: T, s: bytes, t: bytes)
    ensures Fold(f, x, s + t) == Fold(f, Fold(f, x, s), t)
    decreases |s|
  {
    if s == [] {
      assert s + t == t;
    } else {
      assert (s + t)[1..] == s[1..] + t;
      FoldSplits(f, f(x, s[0]), s[1..], t);
    }
  }

  /** A translation that commutes with one step commutes with `n` of them. */
  lemma {:induction false} IterateCommutes<T(!new)>(f: T -> T, g: T -> T, m: T -> T, x: T, n: nat)
    requires forall y :: m(f(y)) == g(m(y))
    ensures m(Iterate(f, x, n)) == Iterate(g, m(x), n)
    decreases n
  {
    if n > 0 {
      assert m(f(x)) == g(m(x));
      IterateCommutes(f, g, m, f(x), n - 1);
    }
  }

  lemma {:induction false} FoldCommutes<T(!new)>(f: (T, byte) -> T, g: (T, byte) -> T, m: T -> T, x: T, s: bytes)
    requires forall y, b :: m(f(y, b)) == g(m(y), b)
    ensures m(Fold(f, x, s)) == Fold(g, m(x), s)
    decreases |s|
  {
    if s != [] {
      assert m(f(x, s[0])) == g(m(x), s[0]);
      FoldCommutes(f, g, m, f(x, s[0]), s[1..]);
    }
  }

  /** If one step acts on a sum by stepping one part and shifting the other, so do `n` steps, as long as the other
      part stays in the domain of the shift. */
  ghost predicate Through<T>(even: T -> bool, half: T -> T, h: T, n: nat) {
    n == 0 || (even(h) && Through(even, half, half(h), n - 1))
  }

  lemma {:induction false} IterateSplits<T(!new)>(step: T -> T, sum: (T, T) -> T, even: T -> bool, half: T -> T,
                                                  low: T, high: T, n: nat)
    requires forall l, h :: even(h) ==> step(sum(l, h)) == sum(step(l), half(h))
    requires Through(even, half, high, n)
    ensures Iterate(step, sum(low, high), n) == sum(Iterate(step, low, n), Iterate(half, high, n))
    decreases n
  {
    if n > 0 {
      assert step(sum(low, high)) == sum(step(low), half(high));
      IterateSplits(step, sum, even, half, step(low), half(high), n - 1);
    }
  }

  // ---- RFC 1952, section 8 ------------------------------------------------

  function LsbStep(c: bv32): bv32 {
    if c & 1 != 0 then (c >> 1) ^ REVERSED_POLY else c >> 1
  }

  /** An entry of the reference code's table. */
  function TableEntry(n: bv32): bv32 {
    Iterate(LsbStep, n, 8)
  }

  function UpdateByte(c: bv32, b: byte): bv32 {
    Sum(TableEntry(LowPart(Sum(c, Octet(b)))), ShiftByte(c))
  }

  function Flip(c: bv32): bv32 {
    c ^ ONES
  }

  /** zlib's crc32(data, seed). */
  function Crc(seed: bv32, s: bytes): bv32 {
    Flip(Fold(UpdateByte, Flip(seed), s))
  }

  lemma FlipUndoesItself()
    ensures forall c :: Flip(Flip(c)) == c
  {
  }

  lemma FlippedFoldContinues<T(!new)>(flip: T -> T, f: (T, byte) -> T, seed: T, s: bytes, t: bytes)
    requires forall x :: flip(flip(x)) == x
    ensures flip(Fold(f, flip(flip(Fold(f, flip(seed), s))), t)) == flip(Fold(f, flip(seed), s + t))
  {
    FoldSplits(f, flip(seed), s, t);
  }

  /** Continuing a CRC over more data is the CRC of all of it. */
  lemma CrcContinues(seed: bv32, s: bytes, t: bytes)
    ensures Crc(Crc(seed, s), t) == Crc(seed, s + t)
  {
    FlipUndoesItself();
    hide Flip, UpdateByte, Fold;
    FlippedFoldContinues(Flip, UpdateByte, seed, s, t);
  }

  // ---- the reference table does eight single-bit steps at once -------------------

  function ShiftRight(c: bv32): bv32 {
    c >> 1
  }

  function Sum(a: bv32, b: bv32): bv32 {
    a ^ b
  }

  predicate Even(c: bv32) {
    c & 1 == 0
  }

  predicate Odd(c: bv32) {
    c & 1 == 1
  }

  /** Equations between bit vectors are proved as differences that vanish. */
  lemma EqualIfNoDifference(a: bv32, b: bv32)
    requires Sum(a, b) == 0
    ensures a == b
  {
  }

  lemma SumShiftsDifference(a: bv32, b: bv32)
    ensures Sum(ShiftRight(Sum(a, b)), Sum(ShiftRight(a), ShiftRight(b))) == 0
  {
  }

  lemma SumShifts(a: bv32, b: bv32)
    ensures ShiftRight(Sum(a, b)) == Sum(ShiftRight(a), ShiftRight(b))
  {
    hide *;
    SumShiftsDifference(a, b);
    EqualIfNoDifference(ShiftRight(Sum(a, b)), Sum(ShiftRight(a), ShiftRight(b)));
  }

  lemma SumOfThree(a: bv32, b: bv32, c: bv32)
    ensures Sum(Sum(a, b), c) == (a ^ b) ^ c
  {
  }

  lemma XorSwaps(a: bv32, b: bv32, c: bv32)
    ensures (a ^ b) ^ c == (a ^ c) ^ b
  {
  }

  lemma SumSwaps(a: bv32, b: bv32, c: bv32)
    ensures Sum(Sum(a, b), c) == Sum(Sum(a, c), b)
  {
    hide *;
    SumOfThree(a, b, c);
    SumOfThree(a, c, b);
    XorSwaps(a, b, c);
  }

  lemma EvenAddsNoLowBit(a: bv32, b: bv32)
    requires Even(b)
    ensures Even(Sum(a, b)) == Even(a)
  {
  }

  lemma LsbStepByParity(c: bv32)
    ensures LsbStep(c) == if Even(c) then ShiftRight(c) else Sum(ShiftRight(c), REVERSED_POLY)
  {
  }

  lemma StepSplits(low: bv32, high: bv32)
    requires Even(high)
    ensures LsbStep(Sum(low, high)) == Sum(LsbStep(low), ShiftRight(high))
  {
    hide *;
    SumShifts(low, high);
    EvenAddsNoLowBit(low, high);
    SumSwaps(ShiftRight(low), ShiftRight(high), REVERSED_POLY);
    LsbStepByParity(low);
    LsbStepByParity(Sum(low, high));
  }

  lemma MaskShifts(h: bv32, mask: bv32)
    requires h & mask == 0
    ensures ShiftRight(h) & ShiftRight(mask) == 0
    ensures Odd(mask) ==> Even(h)
  {
  }

  /** Bits that a mask of ones keeps out stay out while both are shifted. */
  lemma {:induction false} MaskedBitsStayEven(h: bv32, mask: bv32, n: nat)
    requires h & mask == 0 && Through(Odd, ShiftRight, mask, n)
    ensures Through(Even, ShiftRight, h, n)
    decreases n
  {
    hide Even, Odd, ShiftRight;
    if n > 0 {
      MaskShifts(h, mask);
      MaskedBitsStayEven(ShiftRight(h), ShiftRight(mask), n - 1);
    }
  }

  lemma EightOnes()
    ensures Through(Odd, ShiftRight, 0xFF, 8)
  {
    assert Through(Odd, ShiftRight, 0x01, 1);
    assert Through(Odd, ShiftRight, 0x03, 2);
    assert Through(Odd, ShiftRight, 0x07, 3);
    assert Through(Odd, ShiftRight, 0x0F, 4);
    assert Through(Odd, ShiftRight, 0x1F, 5);
    assert Through(Odd, ShiftRight, 0x3F, 6);
    assert Through(Odd, ShiftRight, 0x7F, 7);
  }

  function ShiftTwice(c: bv32): bv32 {
    ShiftRight(ShiftRight(c))
  }

  function ShiftByte(c: bv32): bv32 {
    c >> 8
  }

  lemma EightShiftsDifference(h: bv32)
    ensures Sum(ShiftTwice(ShiftTwice(ShiftTwice(ShiftTwice(h)))), ShiftByte(h)) == 0
  {
  }

  lemma ShiftTwiceDefined(h: bv32)
    ensures ShiftTwice(h) == ShiftRight(ShiftRight(h))
  {
  }

  lemma IterateTwice<T>(f: T -> T, x: T, n: nat)
    ensures Iterate(f, x, n + 2) == Iterate(f, f(f(x)), n)
  {
  }

  lemma ShiftTwiceMore(h: bv32, n: nat)
    ensures Iterate(ShiftRight, h, n + 2) == Iterate(ShiftRight, ShiftTwice(h), n)
  {
    ShiftTwiceDefined(h);
    hide ShiftRight, ShiftTwice;
    IterateTwice(ShiftRight, h, n);
  }

  lemma EightShifts(h: bv32)
    ensures Iterate(ShiftRight, h, 8) == ShiftByte(h)
  {
    hide ShiftRight, ShiftTwice, Sum, ShiftByte;
    var h2 := ShiftTwice(h);
    var h4 := ShiftTwice(h2);
    var h6 := ShiftTwice(h4);
    ShiftTwiceMore(h, 6);
    ShiftTwiceMore(h2, 4);
    ShiftTwiceMore(h4, 2);
    ShiftTwiceMore(h6, 0);
    EightShiftsDifference(h);
    EqualIfNoDifference(ShiftTwice(h6), ShiftByte(h));
  }

  function LowPart(x: bv32): bv32 {
    x & 0xFF
  }

  function HighPart(x: bv32): bv32 {
    x & 0xFFFFFF00
  }

  lemma PartsAddUp(x: bv32)
    ensures Sum(Sum(LowPart(x), HighPart(x)), x) == 0
    ensures HighPart(x) & 0xFF == 0
  {
  }

  lemma OctetStaysLow(c: bv32, b: byte)
    ensures Sum(ShiftByte(HighPart(Sum(c, Octet(b)))), ShiftByte(c)) == 0
  {
  }

  lemma StepsSplit(low: bv32, high: bv32)
    requires Through(Even, ShiftRight, high, 8)
    ensures Iterate(LsbStep, Sum(low, high), 8) == Sum(Iterate(LsbStep, low, 8), Iterate(ShiftRight, high, 8))
  {
    hide *;
    forall l, h | Even(h)
      ensures LsbStep(Sum(l, h)) == Sum(LsbStep(l), ShiftRight(h))
    {
      StepSplits(l, h);
    }
    IterateSplits(LsbStep, Sum, Even, ShiftRight, low, high, 8);
  }

  lemma TableIsEightSteps(c: bv32, b: byte)
    ensures UpdateByte(c, b) == Iterate(LsbStep, Sum(c, Octet(b)), 8)
  {
    hide *;
    UpdateByteByParts(c, b);
    var x := Sum(c, Octet(b));
    PartsAddUp(x);
    EqualIfNoDifference(Sum(LowPart(x), HighPart(x)), x);
    OctetStaysLow(c, b);
    EqualIfNoDifference(ShiftByte(HighPart(x)), ShiftByte(c));
    EightOnes();
    MaskedBitsStayEven(HighPart(x), 0xFF, 8);
    StepsSplit(LowPart(x), HighPart(x));
    EightShifts(HighPart(x));
  }

  lemma UpdateByteByParts(c: bv32, b: byte)
    ensures UpdateByte(c, b) == Sum(Iterate(LsbStep, LowPart(Sum(c, Octet(b))), 8), ShiftByte(c))
  {
    hide Sum, LowPart, ShiftByte, Octet, LsbStep, Iterate;
  }

  // ---- bit reversal -----------------------------------------------------------

  function Reverse8(b: bv32): bv32 {
    ((b & 1) << 7) | ((b & 2) << 5) | ((b & 4) << 3) | ((b & 8) << 1)
    | ((b & 16) >> 1) | ((b & 32) >> 3) | ((b & 64) >> 5) | ((b & 128) >> 7)
  }

  function Join(b3: bv32, b2: bv32, b1: bv32, b0: bv32): bv32 {
    (b3 << 24) | (b2 << 16) | (b1 << 8) | b0
  }

  function Reverse32(v: bv32): bv32 {
    Join(Reverse8(v & 255), Reverse8((v >> 8) & 255), Reverse8((v >> 16) & 255), Reverse8((v >> 24) & 255))
  }

  predicate Bit(v: bv32, i: bv32)
    requires i < 32
  {
    (v >> i) & 1 == 1
  }

  /** Bit `i` goes to position 31 - i. */
  lemma ReversalMovesBits(v: bv32, i: bv32)
    requires i < 32
    ensures Bit(Reverse32(v), 31 - i) == Bit(v, i)
  {
  }

  lemma ReversalTwiceDifference(v: bv32)
    ensures Sum(Reverse32(Reverse32(v)), v) == 0
  {
  }

  lemma ReversalUndoesItself(v: bv32)
    ensures Reverse32(Reverse32(v)) == v
  {
    hide *;
    ReversalTwiceDifference(v);
    EqualIfNoDifference(Reverse32(Reverse32(v)), v);
  }

  lemma ReversalOfSumDifference(x: bv32, y: bv32)
    ensures Sum(Reverse32(Sum(x, y)), Sum(Reverse32(x), Reverse32(y))) == 0
  {
  }

  lemma ReversalIsLinear(x: bv32, y: bv32)
    ensures Reverse32(Sum(x, y)) == Sum(Reverse32(x), Reverse32(y))
  {
    hide *;
    ReversalOfSumDifference(x, y);
    EqualIfNoDifference(Reverse32(Sum(x, y)), Sum(Reverse32(x), Reverse32(y)));
  }

  function ShiftLeft(c: bv32): bv32 {
    c << 1
  }

  predicate TopBit(c: bv32) {
    c & 0x80000000 != 0
  }

  lemma ShiftMirrorsDifference(c: bv32)
    ensures Sum(Reverse32(ShiftLeft(c)), ShiftRight(Reverse32(c))) == 0
  {
  }

  lemma TopBitMirrors(c: bv32)
    ensures TopBit(c) == !Even(Reverse32(c))
  {
  }

  lemma PolynomialMirrors()
    ensures Reverse32(POLY) == REVERSED_POLY
  {
  }

  // ---- the firmware function --------------------------------------------------

  function MsbStep(c: bv32): bv32 {
    if TopBit(c) then Sum(ShiftLeft(c), POLY) else ShiftLeft(c)
  }

  function MsbByte(c: bv32, b: byte): bv32 {
    Iterate(MsbStep, Sum(c, Octet(b) << 24), 8)
  }

  function MirroredOctet(b: byte): bv32 {
    Reverse8(Octet(b)) << 24
  }

  function MsbMirroredByte(c: bv32, b: byte): bv32 {
    Iterate(MsbStep, Sum(c, MirroredOctet(b)), 8)
  }

  /** MATH(CRC32 s, len, &H04C11DB7, start, end, refIn, refOut). */
  function MathCrc32(s: bytes, start: bv32, end: bv32, refIn: bool, refOut: bool): bv32 {
    var c := Fold(if refIn then MsbMirroredByte else MsbByte, start, s);
    (if refOut then Reverse32(c) else c) ^ end
  }

  lemma MsbStepDefined(c: bv32)
    ensures MsbStep(c) == if TopBit(c) then Sum(ShiftLeft(c), POLY) else ShiftLeft(c)
  {
  }

  lemma StepMirrors(c: bv32)
    ensures Reverse32(MsbStep(c)) == LsbStep(Reverse32(c))
  {
    hide *;
    MsbStepDefined(c);
    LsbStepByParity(Reverse32(c));
    ShiftMirrorsDifference(c);
    TopBitMirrors(c);
    EqualIfNoDifference(Reverse32(ShiftLeft(c)), ShiftRight(Reverse32(c)));
    ReversalIsLinear(ShiftLeft(c), POLY);
    PolynomialMirrors();
  }

  lemma InputMirrorsDifference(b: byte)
    ensures Sum(Reverse32(MirroredOctet(b)), Octet(b)) == 0
  {
  }

  lemma MsbMirroredByteDefined(c: bv32, b: byte)
    ensures MsbMirroredByte(c, b) == Iterate(MsbStep, Sum(c, MirroredOctet(b)), 8)
  {
    hide Sum, MirroredOctet, MsbStep, Iterate;
  }

  /** A byte fed to the mirrored register is a byte of the reference code. */
  lemma ByteMirrors(c: bv32, b: byte)
    ensures Reverse32(MsbMirroredByte(c, b)) == UpdateByte(Reverse32(c), b)
  {
    hide *;
    MsbMirroredByteDefined(c, b);
    forall y
      ensures Reverse32(MsbStep(y)) == LsbStep(Reverse32(y))
    {
      StepMirrors(y);
    }
    IterateCommutes(MsbStep, LsbStep, Reverse32, Sum(c, MirroredOctet(b)), 8);
    ReversalIsLinear(c, MirroredOctet(b));
    InputMirrorsDifference(b);
    EqualIfNoDifference(Reverse32(MirroredOctet(b)), Octet(b));
    TableIsEightSteps(Reverse32(c), b);
  }

  lemma BytesMirror(c: bv32, s: bytes)
    ensures Reverse32(Fold(MsbMirroredByte, c, s)) == Fold(UpdateByte, Reverse32(c), s)
  {
    hide *;
    forall y, b
      ensures Reverse32(MsbMirroredByte(y, b)) == UpdateByte(Reverse32(y), b)
    {
      ByteMirrors(y, b);
    }
    FoldCommutes(MsbMirroredByte, UpdateByte, Reverse32, c, s);
  }

  /** The firmware function with both reflections and a mirrored start mask is zlib's crc32: feeding
      Reverse32(state Xor FFFFFFFF) back continues the CRC `state`. */
  lemma FirmwareContinues(state: bv32, s: bytes)
    ensures MathCrc32(s, Reverse32(Flip(state)), ONES, true, true) == Crc(state, s)
  {
    hide Reverse32, Fold, MsbMirroredByte, UpdateByte;
    BytesMirror(Reverse32(Flip(state)), s);
    ReversalUndoesItself(Flip(state));
  }

  // ---- picocalc/PCUTP.BAS -------------------------------------------------------

  function WithBit(r: bv32, v: bv32, j: nat): bv32
    requires j < 8
  {
    if (v >> j) & 1 != 0 then r | (1 << (7 - j)) else r
  }

  /** What the first `j` passes of the inner loop of BuildReflect leave in its accumulator. */
  function ReversedSoFar(v: bv32, j: nat): bv32
    requires j <= 8
  {
    if j == 0 then 0 else WithBit(ReversedSoFar(v, j - 1), v, j - 1)
  }

  lemma LowHalfReversed(v: bv32)
    ensures ReversedSoFar(v, 4) == ((v & 1) << 7) | ((v & 2) << 5) | ((v & 4) << 3) | ((v & 8) << 1)
  {
    assert ReversedSoFar(v, 1) == (v & 1) << 7;
    assert ReversedSoFar(v, 2) == ((v & 1) << 7) | ((v & 2) << 5);
    assert ReversedSoFar(v, 3) == ((v & 1) << 7) | ((v & 2) << 5) | ((v & 4) << 3);
  }

  lemma AllReversed(v: bv32)
    ensures ReversedSoFar(v, 8) == Reverse8(v)
  {
    LowHalfReversed(v);
    var low := ReversedSoFar(v, 4);
    assert ReversedSoFar(v, 5) == low | ((v & 16) >> 1);
    assert ReversedSoFar(v, 6) == low | ((v & 16) >> 1) | ((v & 32) >> 3);
    assert ReversedSoFar(v, 7) == low | ((v & 16) >> 1) | ((v & 32) >> 3) | ((v & 64) >> 5);
  }

  /** The table holds, at every index, the reversal of the index. */
  ghost predicate IsReflectTable(rtab: array<bv32>)
    reads rtab
  {
    rtab.Length == 256 && forall i :: 0 <= i < 256 ==> rtab[i] == Reverse8(i as bv32)
  }

  /** The inner loop of BuildReflect: one bit per pass. */
  method ReverseByte(v: bv32) returns (r: bv32)
    ensures r == Reverse8(v)
  {
    AllReversed(v);
    hide WithBit, Reverse8;
    r := 0;
    for j := 0 to 8
      invariant r == ReversedSoFar(v, j)
    {
      ghost var before := r;
      if (v >> j) & 1 != 0 {
        r := r | (1 << (7 - j));
      }
      WithBitDefined(before, v, j);
    }
  }

  lemma WithBitDefined(r: bv32, v: bv32, j: nat)
    requires j < 8
    ensures WithBit(r, v, j) == if (v >> j) & 1 != 0 then r | (1 << (7 - j)) else r
  {
  }

  method BuildReflect(rtab: array<bv32>)
    requires rtab.Length == 256
    modifies rtab
    ensures IsReflectTable(rtab)
  {
    hide Reverse8;
    for i := 0 to 256
      invariant forall k :: 0 <= k < i ==> rtab[k] == Reverse8(k as bv32)
    {
      var r := ReverseByte(i as bv32);
      rtab[i] := r;
    }
  }

  lemma TableByte(rtab: array<bv32>, x: bv32)
    requires IsReflectTable(rtab) && x & 255 == x
    ensures (x as int) < 256 && rtab[x as int] == Reverse8(x)
  {
    hide Reverse8;
    assert (x as int) as bv32 == x;
  }

  function Lookup(rtab: array<bv32>, x: bv32): (r: bv32)
    requires IsReflectTable(rtab) && x & 255 == x
    reads rtab
    ensures r == Reverse8(x)
  {
    TableByte(rtab, x);
    rtab[x as int]
  }

  function Reflect32(rtab: array<bv32>, v: bv32): (r: bv32)
    requires IsReflectTable(rtab)
    reads rtab
  {
    Join(Lookup(rtab, v & 255), Lookup(rtab, (v >> 8) & 255), Lookup(rtab, (v >> 16) & 255),
         Lookup(rtab, (v >> 24) & 255))
  }

  lemma ReflectIsReversal(rtab: array<bv32>, v: bv32)
    requires IsReflectTable(rtab)
    ensures Reflect32(rtab, v) == Reverse32(v)
  {
    hide Reverse8, Join, Lookup;
  }

  function CrcChunk(rtab: array<bv32>, state: bv32, chunk: bytes): (r: bv32)
    requires IsReflectTable(rtab)
    reads rtab
  {
    MathCrc32(chunk, Reflect32(rtab, state ^ ONES), ONES, true, true)
  }

  /** One chunk continues the running CRC. */
  lemma ChunkContinues(rtab: array<bv32>, state: bv32, chunk: bytes)
    requires IsReflectTable(rtab)
    ensures CrcChunk(rtab, state, chunk) == Crc(state, chunk)
  {
    hide Reverse32, Reflect32, MathCrc32, Crc;
    ReflectIsReversal(rtab, Flip(state));
    FirmwareContinues(state, chunk);
  }

  /** Both CRCs of the first `count` bytes of the buffer, taken at most 255 bytes at a time. */
  method CrcBoth(rtab: array<bv32>, buf: array<byte>, blockSeed: bv32, fileSeed: bv32, count: nat)
    returns (crcBlockOut: bv32, crcRunningOut: bv32)
    requires IsReflectTable(rtab) && count <= buf.Length
    ensures crcBlockOut == Crc(blockSeed, buf[..count])
    ensures crcRunningOut == Crc(fileSeed, buf[..count])
  {
    hide Crc, CrcChunk, Reverse8;
    var off := 0;
    crcBlockOut, crcRunningOut := blockSeed, fileSeed;
    CrcOfNothing(blockSeed);
    CrcOfNothing(fileSeed);
    assert buf[..0] == [];
    while off < count
      invariant 0 <= off <= count
      invariant crcBlockOut == Crc(blockSeed, buf[..off])
      invariant crcRunningOut == Crc(fileSeed, buf[..off])
    {
      var cl := count - off;
      if cl > 255 {
        cl := 255;
      }
      var s := buf[off..off + cl];
      assert buf[..off] + s == buf[..off + cl];
      ContinueOver(rtab, blockSeed, buf[..off], s);
      ContinueOver(rtab, fileSeed, buf[..off], s);
      crcBlockOut := CrcChunk(rtab, crcBlockOut, s);
      crcRunningOut := CrcChunk(rtab, crcRunningOut, s);
      off := off + cl;
    }
  }

  lemma ContinueOver(rtab: array<bv32>, seed: bv32, done: bytes, s: bytes)
    requires IsReflectTable(rtab)
    ensures CrcChunk(rtab, Crc(seed, done), s) == Crc(seed, done + s)
  {
    hide Crc, CrcChunk;
    ChunkContinues(rtab, Crc(seed, done), s);
    CrcContinues(seed, done, s);
  }

  lemma CrcOfNothing(seed: bv32)
    ensures Crc(seed, []) == seed
  {
    FlipUndoesItself();
  }

  // ---- the check value ------------------------------------------------------------------------

  lemma FoldNext(c: bv32, s: bytes, k: nat)
    requires k < |s|
    ensures Fold(UpdateByte, c, s[k..]) == Fold(UpdateByte, UpdateByte(c, s[k]), s[k + 1..])
  {
    hide UpdateByte;
    assert s[k..][1..] == s[k + 1..];
  }

  lemma FoldEnd(c: bv32, s: bytes)
    ensures Fold(UpdateByte, c, s[|s|..]) == c
  {
  }

  lemma Digits123()
    ensures UpdateByte(0xFFFFFFFF, 0x31) == 0x7C231048
    ensures UpdateByte(0x7C231048, 0x32) == 0xB0ACBB32
    ensures UpdateByte(0xB0ACBB32, 0x33) == 0x77B79C2D
  {
  }

  lemma Digits456()
    ensures UpdateByte(0x77B79C2D, 0x34) == 0x641C1F5C
    ensures UpdateByte(0x641C1F5C, 0x35) == 0x340AC5E3
    ensures UpdateByte(0x340AC5E3, 0x36) == 0xF68D2C9E
  {
  }

  lemma Digits789()
    ensures UpdateByte(0xF68D2C9E, 0x37) == 0xAFFC9660
    ensures UpdateByte(0xAFFC9660, 0x38) == 0x651F2550
    ensures UpdateByte(0x651F2550, 0x39) == 0x340BC6D9
  {
  }

  /** CRC-32/ISO-HDLC by its check value: the checksum of the nine digits "123456789". */
  lemma CheckValue()
    ensures Crc(0, [0x31, 0x32, 0x33, 0x34, 0x35, 0x36, 0x37, 0x38, 0x39]) == 0xCBF43926
  {
    Digits123();
    Digits456();
    Digits789();
    assert Flip(0) == 0xFFFFFFFF && Flip(0x340BC6D9) == 0xCBF43926;
    var s: bytes := [0x31, 0x32, 0x33, 0x34, 0x35, 0x36, 0x37, 0x38, 0x39];
    hide UpdateByte, Fold, Flip;
    FoldNext(0xFFFFFFFF, s, 0);
    FoldNext(0x7C231048, s, 1);
    FoldNext(0xB0ACBB32, s, 2);
    FoldNext(0x77B79C2D, s, 3);
    FoldNext(0x641C1F5C, s, 4);
    FoldNext(0x340AC5E3, s, 5);
    FoldNext(0xF68D2C9E, s, 6);
    FoldNext(0xAFFC9660, s, 7);
    FoldNext(0x651F2550, s, 8);
    FoldEnd(0x340BC6D9, s);
    assert s[0..] == s;
  }
}
