/**
  The receiver's decoder in picocalc/PCUTP.BAS, working in place on two byte buffers. It is proved against the same
  reading of the format as the Python decoder, so the two agree on every input.
*/
module Lz4Unpack {
  import opened Basics
  import opened Lz4Format
  import opened Lz4Codec

  /** `d` with `chunk` written over position `at`. */
  function Overwrite(d: bytes, at: nat, chunk: bytes): (r: bytes)
    requires at + |chunk| <= |d|
    ensures |r| == |d|
  {
    d[..at] + chunk + d[at + |chunk|..]
  }

  lemma OverwriteKeeps(d: bytes, at: nat, chunk: bytes, end: nat)
    requires at + |chunk| <= end <= |d|
    ensures var r := Overwrite(d, at, chunk);
            r[..at + |chunk|] == d[..at] + chunk && r[end..] == d[end..]
  {
  }

  /** MMBasic's Memory Copy between two places that do not overlap. */
  method MemoryCopy(from: array<byte>, i: nat, to: array<byte>, j: nat, n: nat)
    requires i + n <= from.Length && j + n <= to.Length
    requires from != to || i + n <= j || j + n <= i
    modifies to
    ensures to[..] == Overwrite(old(to[..]), j, old(from[..])[i..i + n])
  {
    for k := 0 to n
      invariant forall t :: 0 <= t < j ==> to[t] == old(to[..])[t]
      invariant forall t :: j + n <= t < to.Length ==> to[t] == old(to[..])[t]
      invariant forall t :: j <= t < j + k ==> to[t] == old(from[..])[i + t - j]
      invariant forall t :: i <= t < i + n ==> from[t] == old(from[..])[t]
    {
      to[j + k] := from[i + k];
    }
  }

  /** The extension loop. `ok` is false where the function exits. */
  method ReadExtension(src: array<byte>, packedLen: nat, start: nat, nibble: nat, plainLen: nat)
    returns (ok: bool, value: nat, ip: nat)
    requires start <= packedLen <= src.Length
    ensures var r := ReadLength(src[..packedLen], start, nibble);
            if ok then r == Some((value, ip)) else r.Some? ==> r.value.0 > plainLen
  {
    ghost var p := src[..packedLen];
    value, ip := nibble, start;
    if value == 15 {
      while true
        invariant ip <= packedLen && p == src[..packedLen]
        invariant ReadLength(p, start, nibble) == ReadExtra(p, ip, value)
        decreases packedLen - ip
      {
        if ip >= packedLen {
          return false, value, ip;
        }
        var extra := src[ip];
        assert extra == p[ip];
        ip := ip + 1;
        value := value + extra;
        if value > plainLen {
          return false, value, ip;
        }
        if extra != 255 {
          break;
        }
      }
    }
    ok := true;
  }

  lemma SliceOfPrefix(d: bytes, n: nat, a: nat, b: nat)
    requires a <= b <= n <= |d|
    ensures d[..n][a..b] == d[a..b]
  {
  }

  lemma SameBeyond(c: bytes, d: bytes, m: nat, n: nat)
    requires |c| == |d| && m <= n <= |d| && c[m..] == d[m..]
    ensures c[n..] == d[n..]
  {
    assert c[n..] == c[m..][n - m..] && d[n..] == d[m..][n - m..];
  }

  lemma CopyStep(d: bytes, o: bytes, offset: nat, q: nat, k: nat, m: nat, end: nat)
    requires 1 <= offset <= |o| && k == q * offset && m <= offset + k
    requires |o| + k + m <= end <= |d| && d[..|o| + k] == Copy(o, offset, k)
    ensures var op, source := |o| + k, |o| - offset;
            var r := Overwrite(d, op, d[source..source + m]);
            r[..op + m] == Copy(o, offset, k + m) && r[end..] == d[end..]
  {
    hide Copy;
    var op, source := |o| + k, |o| - offset;
    CopyByChunk(o, offset, q, k, m);
    SliceOfPrefix(d, op, source, source + m);
    OverwriteKeeps(d, op, d[source..source + m], end);
  }

  /** One pass: `q` whole periods have been copied and `m` more bytes are taken from the match source. */
  method CopyOnce(dst: array<byte>, ghost o: bytes, fromp: nat, op: nat, m: nat, ghost q: nat, ghost end: nat)
    requires fromp < |o| <= op && op - |o| == q * (|o| - fromp) && fromp + m <= op
    requires op + m <= end <= dst.Length && dst[..][..op] == Copy(o, |o| - fromp, op - |o|)
    modifies dst
    ensures dst[..][..op + m] == Copy(o, |o| - fromp, op - |o| + m)
    ensures dst[..][end..] == old(dst[..])[end..]
  {
    hide Copy;
    CopyStep(dst[..], o, |o| - fromp, q, op - |o|, m, end);
    MemoryCopy(dst, fromp, dst, op, m);
  }

  /** The doubling copy inside the output buffer: each Memory Copy takes only bytes already produced, so its source
      and target never overlap. */
  method CopyMatch(dst: array<byte>, start: nat, offset: nat, total: nat) returns (op: nat)
    requires start + total <= dst.Length && 1 <= offset <= start
    modifies dst
    ensures op == start + total && dst[..][..op] == Copy(old(dst[..])[..start], offset, total)
    ensures dst[..][op..] == old(dst[..])[op..]
  {
    hide Copy;
    ghost var o, end := dst[..][..start], start + total;
    CopyNothing(o, offset);
    op := start;
    var fromp, ml := start - offset, total;
    ghost var periods: nat, k: nat := 0, 0;
    while ml > 0
      invariant 0 <= ml && op + ml == end && op == start + k
      invariant dst[..][..op] == Copy(o, offset, k)
      invariant ml > 0 ==> k == periods * offset
      invariant dst[..][end..] == old(dst[..])[end..]
      decreases ml
    {
      var count := op - fromp;
      if count > ml {
        count := ml;
      }
      CopyOnce(dst, o, fromp, op, count, periods, end);
      PeriodsDouble(periods, offset, k);
      op := op + count;
      ml := ml - count;
      k, periods := k + count, periods + periods + 1;
    }
  }

  /** Token and literals of one sequence: checked against both bounds, then copied. */
  method TakeLiterals(src: array<byte>, dst: array<byte>, packedLen: nat, plainLen: nat, ip: nat, op: nat)
    returns (ok: bool, lit: nat, q: nat)
    requires src != dst && ip < packedLen <= src.Length && op <= plainLen <= dst.Length
    modifies dst
    ensures var p, o := src[..][..packedLen], old(dst[..])[..op];
            if ok then
              && ReadLength(p, ip + 1, p[ip] / 16) == Some((lit, q)) && q + lit <= packedLen && op + lit <= plainLen
              && dst[..][..op + lit] == o + p[q..q + lit]
            else OfSize(DecodeFrom(p, ip, o), plainLen) == None
    ensures dst[..][plainLen..] == old(dst[..])[plainLen..]
  {
    hide DecodeFrom, ReadLength;
    ghost var p, d := src[..][..packedLen], dst[..];
    ok, lit, q := ReadExtension(src, packedLen, ip + 1, src[ip] / 16, plainLen);
    if !ok {
      LiteralsTooLong(p, ip, d[..op], plainLen);
      return;
    }
    if q + lit > packedLen || op + lit > plainLen {
      LiteralsRefused(p, ip, d[..op], plainLen, lit, q);
      return false, lit, q;
    }
    SliceOfPrefix(src[..], packedLen, q, q + lit);
    OverwriteKeeps(d, op, p[q..q + lit], plainLen);
    if lit > 0 {
      MemoryCopy(src, q, dst, op, lit);
    }
  }

  /** Offset and match length: the offset is tested before the length is read. */
  method TakeMatch(src: array<byte>, packedLen: nat, plainLen: nat, ghost at: nat, ghost before: bytes,
                   token: byte, lit: nat, q: nat, op: nat)
    returns (ok: bool, off: nat, ml: nat, next: nat)
    requires at < packedLen <= src.Length && q + lit < packedLen && token == src[at] && op == |before| + lit
    requires ReadLength(src[..][..packedLen], at + 1, token / 16) == Some((lit, q))
    ensures var p := src[..][..packedLen];
            var o := before + p[q..q + lit];
            if ok then
              && 1 <= off <= |o| && |o| + ml <= plainLen && at < next <= packedLen
              && DecodeFrom(p, at, before) == DecodeFrom(p, next, Copy(o, off, ml))
            else OfSize(DecodeFrom(p, at, before), plainLen) == None
  {
    hide DecodeFrom, ReadLength, Copy;
    ghost var p := src[..][..packedLen];
    var ip := q + lit;
    off, ml, next := 0, 0, ip;
    if ip + 2 > packedLen {
      MatchUnusable(p, at, before, plainLen, lit, q);
      return false, off, ml, next;
    }
    off := src[ip] as int + 256 * src[ip + 1] as int;
    assert off == Word(p[ip], p[ip + 1]);
    if off < 1 || off > op {
      MatchUnusable(p, at, before, plainLen, lit, q);
      return false, off, ml, next;
    }
    var run;
    ok, run, next := ReadExtension(src, packedLen, ip + 2, token % 16, plainLen);
    if !ok || op + run + 4 > plainLen {
      MatchUnusable(p, at, before, plainLen, lit, q);
      return false, off, ml, next;
    }
    ml := run + 4;
    DecodeInner(p, at, before, lit, q, run, next);
  }

  datatype Pass = Refused | Finished | More

  /** One pass over the main loop. */
  method UnpackSequence(src: array<byte>, dst: array<byte>, packedLen: nat, plainLen: nat, ip: nat, op: nat)
    returns (status: Pass, nextIp: nat, nextOp: nat)
    requires src != dst && ip < packedLen <= src.Length && op <= plainLen <= dst.Length
    modifies dst
    ensures ip < nextIp <= packedLen || status.Refused?
    ensures nextOp <= plainLen
    ensures dst[..][plainLen..] == old(dst[..])[plainLen..]
    ensures OfSize(DecodeFrom(src[..][..packedLen], ip, old(dst[..])[..op]), plainLen) ==
            match status
            case Refused => None
            case Finished => if nextOp == plainLen then Some(dst[..][..nextOp]) else None
            case More => OfSize(DecodeFrom(src[..][..packedLen], nextIp, dst[..][..nextOp]), plainLen)
  {
    hide DecodeFrom, ReadLength, Copy;
    ghost var p, before := src[..][..packedLen], dst[..][..op];
    nextIp, nextOp := ip, op;
    var good, lit, q := TakeLiterals(src, dst, packedLen, plainLen, ip, op);
    if !good {
      return Refused, nextIp, nextOp;
    }
    if q + lit == packedLen {
      DecodeFinal(p, ip, before, lit, q);
      return Finished, q + lit, op + lit;
    }
    var fits, off, ml, next := TakeMatch(src, packedLen, plainLen, ip, before, src[ip], lit, q, op + lit);
    if !fits {
      return Refused, nextIp, nextOp;
    }
    ghost var d := dst[..];
    nextOp := CopyMatch(dst, op + lit, off, ml);
    SameBeyond(dst[..], d, nextOp, plainLen);
    return More, next, nextOp;
  }

  /** The main loop: everything up to the copy back. */
  method UnpackInto(src: array<byte>, dst: array<byte>, packedLen: nat, plainLen: nat) returns (ok: bool)
    requires src != dst && packedLen <= src.Length && plainLen <= dst.Length
    modifies dst
    ensures OfSize(Decode(src[..][..packedLen]), plainLen) == if ok then Some(dst[..][..plainLen]) else None
    ensures dst[..][plainLen..] == old(dst[..])[plainLen..]
  {
    hide DecodeFrom, OfSize;
    ghost var p, goal := src[..][..packedLen], OfSize(DecodeFrom(src[..][..packedLen], 0, []), plainLen);
    assert dst[..][..0] == [];
    var ip, op := 0, 0;
    while ip < packedLen
      invariant 0 <= ip <= packedLen && 0 <= op <= plainLen
      invariant OfSize(DecodeFrom(p, ip, dst[..][..op]), plainLen) == goal
      invariant dst[..][plainLen..] == old(dst[..])[plainLen..]
      decreases packedLen - ip
    {
      var status;
      status, ip, op := UnpackSequence(src, dst, packedLen, plainLen, ip, op);
      if status.Refused? || (status.Finished? && op != plainLen) {
        return false;
      }
      if status.Finished? {
        return true;
      }
    }
    NothingLeft(p, ip, dst[..][..op], plainLen);
    return false;
  }

  lemma NothingLeft(p: bytes, ip: nat, o: bytes, plainLen: nat)
    requires ip == |p|
    ensures OfSize(DecodeFrom(p, ip, o), plainLen) == None
  {
    DecodeStops(p, ip, o);
  }

  /** Reads below `packedLen` only and writes below `plainLen` only; on success the plain bytes end up in `src`, on
      failure `src` is untouched. The answer is the one `Decompress` gives. */
  method UnpackLz4(src: array<byte>, dst: array<byte>, packedLen: nat, plainLen: nat) returns (ok: bool)
    requires src != dst && packedLen <= src.Length && plainLen <= src.Length && plainLen <= dst.Length
    modifies src, dst
    ensures var r := OfSize(Decode(old(src[..])[..packedLen]), plainLen);
            ok == r.Some? && src[..] == if ok then Overwrite(old(src[..]), 0, r.value) else old(src[..])
    ensures dst[..][plainLen..] == old(dst[..])[plainLen..]
  {
    hide Decode, OfSize;
    ok := UnpackInto(src, dst, packedLen, plainLen);
    if ok && plainLen > 0 {
      MemoryCopy(dst, 0, src, 0, plainLen);
    }
  }

  /** Both decoders run on the same packed block, the BASIC one in buffers of the size it dimensions. */
  method DecodersAgree(packed: bytes, plainLen: nat) returns (python: Option<bytes>, basic: Option<bytes>)
    requires |packed| <= MAX_PLAIN && plainLen <= MAX_PLAIN
    ensures python == basic
  {
    python := Decompress(packed, plainLen);
    var src, dst := new byte[MAX_PLAIN](i => 0), new byte[MAX_PLAIN](i => 0);
    Fill(src, packed);
    hide DecodeFrom;
    var ok := UnpackLz4(src, dst, |packed|, plainLen);
    ghost var r := OfSize(Decode(packed), plainLen);
    if ok {
      assert src[..][..plainLen] == r.value;
    }
    basic := if ok then Some(src[..][..plainLen]) else None;
  }

  method Fill(a: array<byte>, s: bytes)
    requires |s| <= a.Length
    modifies a
    ensures a[..][..|s|] == s
  {
    for i := 0 to |s|
      invariant forall t :: 0 <= t < i ==> a[t] == s[t]
    {
      a[i] := s[i];
    }
  }
}
