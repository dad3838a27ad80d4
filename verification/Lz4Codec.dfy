/**
  The LZ4 routines of src/pcutp/compression.py, each with the loops of its source, proved against the format. The second
  decoder, of picocalc/PCUTP.BAS, is module Lz4Unpack.
*/
module Lz4Codec {
  import opened Basics
  import opened Lz4Format

  const MAX_PLAIN := 4096

  // ---- decoding, step by step -----------------------------------------------

  lemma DecodeStops(p: bytes, pos: nat, o: bytes)
    requires pos <= |p|
    requires pos < |p| ==> var n := ReadLength(p, pos + 1, p[pos] / 16); n.None? || n.value.1 + n.value.0 > |p|
    ensures DecodeFrom(p, pos, o) == None
  {
  }

  lemma DecodeFinal(p: bytes, pos: nat, o: bytes, lit: nat, q: nat)
    requires pos < |p| && ReadLength(p, pos + 1, p[pos] / 16) == Some((lit, q)) && q + lit == |p|
    ensures DecodeFrom(p, pos, o) == Some(o + p[q..q + lit])
  {
    assert ReadItem(p, pos) == Some(Final(p[q..q + lit]));
    assert Replay([], o) == Some(o);
  }

  lemma DecodeInner(p: bytes, pos: nat, o: bytes, lit: nat, q: nat, m: nat, next: nat)
    requires pos < |p| && ReadLength(p, pos + 1, p[pos] / 16) == Some((lit, q)) && q + lit + 2 <= |p|
    requires ReadLength(p, q + lit + 2, p[pos] % 16) == Some((m, next))
    ensures var l, offset := o + p[q..q + lit], Word(p[q + lit], p[q + lit + 1]);
            DecodeFrom(p, pos, o) ==
            if 1 <= offset <= |l| then DecodeFrom(p, next, Copy(l, offset, m + 4)) else None
  {
    var s := Sequence(p[q..q + lit], Word(p[q + lit], p[q + lit + 1]), m + 4);
    assert ReadItem(p, pos) == Some(Inner(s, next));
    var rest := Parse(p, next);
    if rest.Some? {
      var all := [s] + rest.value.sequences;
      assert all[1..] == rest.value.sequences;
    }
  }

  /** A literal run that does not fit rules out every result of the wanted size. */
  lemma LiteralsTooLong(p: bytes, pos: nat, o: bytes, size: nat)
    requires pos < |p|
    requires var n := ReadLength(p, pos + 1, p[pos] / 16); n.Some? ==> |o| + n.value.0 > size
    ensures OfSize(DecodeFrom(p, pos, o), size) == None
  {
    var n := ReadLength(p, pos + 1, p[pos] / 16);
    if n.None? || n.value.1 + n.value.0 > |p| {
      DecodeStops(p, pos, o);
    } else {
      var (lit, q) := n.value;
      if q + lit == |p| {
        DecodeFinal(p, pos, o, lit, q);
      } else if q + lit + 2 <= |p| {
        var m := ReadLength(p, q + lit + 2, p[pos] % 16);
        if m.Some? {
          DecodeInner(p, pos, o, lit, q, m.value.0, m.value.1);
        }
      }
    }
  }

  lemma LiteralsRefused(p: bytes, pos: nat, o: bytes, size: nat, lit: nat, q: nat)
    requires pos < |p| && ReadLength(p, pos + 1, p[pos] / 16) == Some((lit, q))
    requires q + lit > |p| || |o| + lit > size
    ensures OfSize(DecodeFrom(p, pos, o), size) == None
  {
    if q + lit > |p| {
      DecodeStops(p, pos, o);
    } else {
      LiteralsTooLong(p, pos, o, size);
    }
  }

  /** So does a match that does not fit, or whose offset points before the output. */
  lemma MatchUnusable(p: bytes, pos: nat, o: bytes, size: nat, lit: nat, q: nat)
    requires pos < |p| && ReadLength(p, pos + 1, p[pos] / 16) == Some((lit, q)) && q + lit < |p|
    requires q + lit + 2 <= |p| ==>
             var m := ReadLength(p, q + lit + 2, p[pos] % 16);
             || m.None?
             || |o| + lit + m.value.0 + 4 > size
             || !(1 <= Word(p[q + lit], p[q + lit + 1]) <= |o| + lit)
    ensures OfSize(DecodeFrom(p, pos, o), size) == None
  {
    if q + lit + 2 <= |p| {
      var m := ReadLength(p, q + lit + 2, p[pos] % 16);
      if m.Some? {
        DecodeInner(p, pos, o, lit, q, m.value.0, m.value.1);
      }
    }
  }

  // ---- src/pcutp/compression.py: decompress -----------------------------------

  /** The inner `length` of `decompress`; `ok` is false where it raises. */
  method ReadRun(data: bytes, start: nat, nibble: nat, size: nat) returns (ok: bool, value: nat, pos: nat)
    requires start <= |data|
    ensures ok ==> ReadLength(data, start, nibble) == Some((value, pos))
    ensures !ok ==> ReadLength(data, start, nibble).Some? ==> ReadLength(data, start, nibble).value.0 > size
  {
    value, pos := nibble, start;
    if value == 15 {
      while true
        invariant pos <= |data| && ReadLength(data, start, nibble) == ReadExtra(data, pos, value)
        decreases |data| - pos
      {
        if pos >= |data| {
          return false, value, pos;
        }
        var extra := data[pos];
        pos := pos + 1;
        value := value + extra;
        if value > size {
          return false, value, pos;
        }
        if extra != 255 {
          break;
        }
      }
    }
    ok := true;
  }

  lemma CopyNothing(o: bytes, offset: nat)
    requires 1 <= offset <= |o|
    ensures Copy(o, offset, 0) == o
  {
  }

  lemma PeriodsDouble(q: nat, offset: nat, k: nat)
    requires k == q * offset
    ensures k + k + offset == (q + q + 1) * offset
  {
  }

  /** The copy loop: each pass appends everything from the match source on, so the chunk doubles. */
  method AppendMatch(start: bytes, offset: nat, total: nat) returns (output: bytes)
    requires 1 <= offset <= |start|
    ensures output == Copy(start, offset, total)
  {
    hide Copy;
    CopyNothing(start, offset);
    output := start;
    var source := |start| - offset;
    var count := total;
    ghost var periods: nat, copied: nat := 0, 0;
    while count > 0
      invariant 0 <= count && copied + count == total && output == Copy(start, offset, copied)
      invariant count > 0 ==> copied == periods * offset
      decreases count
    {
      var m := Min(count, |output| - source);
      CopyByChunk(start, offset, periods, copied, m);
      PeriodsDouble(periods, offset, copied);
      var chunk := output[source..source + m];
      output := output + chunk;
      count := count - m;
      copied, periods := copied + m, periods + periods + 1;
    }
  }

  /** `None` stands for a raised ProtocolError. The result is exactly the reading of the block by the format,
      provided it has the announced size: the running limits never reject a block that would fit. */
  method Decompress(data: bytes, size: int) returns (r: Option<bytes>)
    ensures r == if 0 <= size <= MAX_PLAIN then OfSize(Decode(data), size) else None
  {
    if !(0 <= size <= MAX_PLAIN) {
      return None;
    }
    hide DecodeFrom, ReadLength, Copy;
    var output: bytes := [];
    var pos := 0;
    ghost var goal := OfSize(DecodeFrom(data, 0, []), size);
    while pos < |data|
      invariant pos <= |data| && |output| <= size
      invariant OfSize(DecodeFrom(data, pos, output), size) == goal
      decreases |data| - pos
    {
      var ok, literals, q := ReadLiterals(data, pos, output, size);
      if !ok {
        return None;
      }
      var at, before := pos, output;
      output := output + data[q..q + literals];
      pos := q + literals;
      if pos == |data| {
        DecodeFinal(data, at, before, literals, q);
        return if |output| == size then Some(output) else None;
      }
      var good, offset, count, next := ReadMatch(data, at, before, literals, q, size);
      if !good {
        return None;
      }
      output := AppendMatch(output, offset, count);
      pos := next;
    }
    DecodeStops(data, pos, output);
    return None;
  }

  /** The token and the literal length of one sequence, up to the test of the literals. */
  method ReadLiterals(data: bytes, pos: nat, output: bytes, size: nat) returns (ok: bool, literals: nat, q: nat)
    requires pos < |data|
    ensures ok ==>
              && ReadLength(data, pos + 1, data[pos] / 16) == Some((literals, q))
              && q + literals <= |data| && |output| + literals <= size
    ensures !ok ==> OfSize(DecodeFrom(data, pos, output), size) == None
  {
    hide DecodeFrom, ReadLength;
    ok, literals, q := ReadRun(data, pos + 1, data[pos] / 16, size);
    if !ok {
      LiteralsTooLong(data, pos, output, size);
    } else if q + literals > |data| || |output| + literals > size {
      ok := false;
      LiteralsRefused(data, pos, output, size, literals, q);
    }
  }

  /** The rest of that sequence, up to the test of the match. */
  method ReadMatch(data: bytes, at: nat, before: bytes, literals: nat, q: nat, size: nat)
    returns (ok: bool, offset: nat, count: nat, next: nat)
    requires at < |data| && ReadLength(data, at + 1, data[at] / 16) == Some((literals, q)) && q + literals < |data|
    ensures var o := before + data[q..q + literals];
            if ok then
              && 1 <= offset <= |o| && |o| + count <= size && at < next <= |data|
              && DecodeFrom(data, at, before) == DecodeFrom(data, next, Copy(o, offset, count))
            else OfSize(DecodeFrom(data, at, before), size) == None
  {
    hide ReadLength, DecodeFrom, Copy, Word;
    var pos := q + literals;
    var produced := |before| + literals;
    offset, count, next := 0, 0, pos;
    if pos + 2 > |data| {
      MatchUnusable(data, at, before, size, literals, q);
      return false, offset, count, next;
    }
    offset := Word(data[pos], data[pos + 1]);
    var run;
    ok, run, next := ReadRun(data, pos + 2, data[at] % 16, size);
    count := run + 4;
    if !ok || !(1 <= offset <= produced) || produced + count > size {
      ok := false;
      MatchUnusable(data, at, before, size, literals, q);
    } else {
      DecodeInner(data, at, before, literals, q, run, next);
    }
  }

  // ---- src/pcutp/compression.py: compress -------------------------------------

  method AppendLength(output: bytes, value: nat) returns (r: bytes)
    ensures r == output + Extra(value)
  {
    r := output;
    var v := value;
    while v >= 255
      invariant r + Extra(v) == output + Extra(value)
    {
      r := r + [255];
      v := v - 255;
    }
    r := r + [v];
  }

  /** What is known of the encoder's output once `data[..anchor]` has been encoded as `s`. */
  ghost predicate Encoded(data: bytes, anchor: nat, s: seq<Sequence>, output: bytes) {
    && anchor <= |data|
    && (forall x :: x in s ==> WellFormed(x))
    && output == RenderAll(s)
    && Replay(s, []) == Some(data[..anchor])
    && Conforms(s, 0, |data|) && Spans(s) == anchor
    && |output| <= anchor + anchor / 255
  }

  lemma LengthSize(v: nat)
    ensures |LengthBytes(v)| <= 1 + v / 255
    ensures v < 15 ==> |LengthBytes(v)| == 0
  {
    if v >= 15 {
      ExtraSize(v - 15);
    }
  }

  /** A sequence costs at most one byte in 255 more than what it stands for, thanks to the minimum match. */
  lemma SequenceSize(x: Sequence)
    requires WellFormed(x) && x.count >= 12
    ensures |RenderSequence(x)| <= SequenceSpan(x) + SequenceSpan(x) / 255
  {
    LengthSize(|x.literals|);
    LengthSize(x.count - 4);
  }

  lemma MatchReplays(data: bytes, anchor: nat, s: seq<Sequence>, pos: nat, offset: nat, count: nat)
    requires anchor <= pos && pos + count <= |data| && Replay(s, []) == Some(data[..anchor])
    requires 1 <= offset <= pos
    requires forall t :: pos <= t < pos + count ==> data[t] == data[t - offset]
    ensures Replay(s + [Sequence(data[anchor..pos], offset, count)], []) == Some(data[..pos + count])
  {
    var x := Sequence(data[anchor..pos], offset, count);
    ReplayAppend(s, x, []);
    assert data[..anchor] + x.literals == data[..pos];
    CopyReproduces(data, pos, offset, count);
    assert [x][1..] == [];
  }

  /** One more sequence: the match at `pos` found `offset` bytes back, with the literals since `anchor`. */
  lemma EncodeMatch(data: bytes, anchor: nat, s: seq<Sequence>, output: bytes, pos: nat, offset: nat, count: nat)
    requires Encoded(data, anchor, s, output)
    requires anchor <= pos && pos + 12 <= |data| && pos + count + 5 <= |data|
    requires 1 <= offset <= pos && offset <= 65535 && count >= 12
    requires forall t :: pos <= t < pos + count ==> data[t] == data[t - offset]
    ensures var x := Sequence(data[anchor..pos], offset, count);
            WellFormed(x) && Encoded(data, pos + count, s + [x], output + RenderSequence(x))
  {
    var x := Sequence(data[anchor..pos], offset, count);
    RenderAllAppend(s, x);
    ConformsAppend(s, x, 0, |data|);
    MatchReplays(data, anchor, s, pos, offset, count);
    SequenceSize(x);
  }

  lemma EncodeTail(data: bytes, anchor: nat, s: seq<Sequence>, output: bytes)
    requires Encoded(data, anchor, s, output)
    ensures var all := output + RenderTail(data[anchor..]);
            && Parse(all, 0) == Some(Block(s, data[anchor..]))
            && Decode(all) == Some(data)
            && |all| <= |data| + |data| / 255 + 2
            && Conforms(s, 0, |data|) && Spans(s) == anchor <= |data| && (forall x :: x in s ==> WellFormed(x))
            && all == Render(Block(s, data[anchor..]))
  {
    var tail := data[anchor..];
    FormatRoundTrip(Block(s, tail));
    assert data[..anchor] + tail == data;
    TailSize(tail);
  }

  lemma TailSize(tail: bytes)
    ensures |RenderTail(tail)| <= |tail| + |tail| / 255 + 2
  {
    LengthSize(|tail|);
  }

  method EmitFront(output: bytes, literals: bytes, low: nat) returns (r: bytes)
    requires low < 16
    ensures r == output + FrontBytes(low, literals)
  {
    var n := |literals|;
    r := output + [16 * Min(n, 15) + low];
    if n >= 15 {
      r := AppendLength(r, n - 15);
    }
    r := r + literals;
  }

  method EmitSequence(output: bytes, literals: bytes, offset: nat, count: nat) returns (r: bytes)
    requires WellFormed(Sequence(literals, offset, count))
    ensures r == output + RenderSequence(Sequence(literals, offset, count))
  {
    r := EmitFront(output, literals, Min(count - 4, 15));
    ghost var front := r;
    r := r + WordBytes(offset);
    if count >= 19 {
      r := AppendLength(r, count - 19);
    }
    assert r == front + BackBytes(offset, count);
  }

  // ---- which matches the encoder finds ------------------------------------------

  /** The last of these positions that starts with the four bytes `key`. */
  function LastSeen(data: bytes, visited: seq<nat>, key: bytes): Option<nat> {
    if visited == [] then None
    else
      var q := visited[|visited| - 1];
      if q + 4 <= |data| && data[q..q + 4] == key then Some(q) else LastSeen(data, visited[..|visited| - 1], key)
  }

  /** How far the bytes at `previous` and `pos` agree from `count` on, stopping five bytes before the end. */
  function Extent(data: bytes, previous: nat, pos: nat, count: nat): nat
    requires previous < pos
    decreases |data| - count
  {
    if pos + count < |data| - 5 && data[previous + count] == data[pos + count]
    then Extent(data, previous, pos, count + 1)
    else count
  }

  /** The match taken at `pos`: the distance to the last visited position with the same four bytes, and how far it goes;
      none if it is too far or too short. */
  function MatchAt(data: bytes, pos: nat, visited: seq<nat>): (nat, nat)
    requires pos + 12 <= |data|
  {
    match LastSeen(data, visited, data[pos..pos + 4])
    case None => (0, 0)
    case Some(q) =>
      if q >= pos || pos - q > 65535 || Extent(data, q, pos, 4) < 12 then (0, 0)
      else (pos - q, Extent(data, q, pos, 4))
  }

  /** The sequences of the greedy parse from `pos` on. Positions inside a match are not visited. */
  function Matches(data: bytes, pos: nat, anchor: nat, visited: seq<nat>): seq<Sequence>
    requires anchor <= pos
    decreases |data| - pos
  {
    if pos + 12 > |data| then []
    else
      var (offset, count) := MatchAt(data, pos, visited);
      if count == 0 then Matches(data, pos + 1, anchor, visited + [pos])
      else
        [Sequence(data[anchor..pos], offset, count)]
        + Matches(data, pos + count, pos + count, visited + [pos])
  }

  lemma {:induction false} ExtentFits(data: bytes, previous: nat, pos: nat, count: nat)
    requires previous < pos && pos + count + 5 <= |data|
    ensures count <= Extent(data, previous, pos, count) && pos + Extent(data, previous, pos, count) + 5 <= |data|
    decreases |data| - count
  {
    if pos + count < |data| - 5 && data[previous + count] == data[pos + count] {
      ExtentFits(data, previous, pos, count + 1);
    }
  }

  lemma MatchFits(data: bytes, pos: nat, visited: seq<nat>)
    requires pos + 12 <= |data|
    ensures var (offset, count) := MatchAt(data, pos, visited);
            count == 0 || (1 <= offset <= pos && offset <= 65535 && count >= 12 && pos + count + 5 <= |data|)
  {
    hide LastSeen;
    match LastSeen(data, visited, data[pos..pos + 4])
    case None =>
    case Some(q) =>
      if q < pos {
        ExtentFits(data, q, pos, 4);
      }
  }

  lemma {:induction false} MatchesFit(data: bytes, pos: nat, anchor: nat, visited: seq<nat>)
    requires anchor <= pos && anchor <= |data|
    ensures forall x :: x in Matches(data, pos, anchor, visited) ==> WellFormed(x)
    ensures anchor + Spans(Matches(data, pos, anchor, visited)) <= |data|
    decreases |data| - pos
  {
    hide MatchAt;
    if pos + 12 <= |data| {
      MatchFits(data, pos, visited);
      var (offset, count) := MatchAt(data, pos, visited);
      if count == 0 {
        MatchesFit(data, pos + 1, anchor, visited + [pos]);
      } else {
        MatchesFit(data, pos + count, pos + count, visited + [pos]);
        var x := Sequence(data[anchor..pos], offset, count);
        var rest := Matches(data, pos + count, pos + count, visited + [pos]);
        assert ([x] + rest)[1..] == rest;
      }
    }
  }

  // ---- what that means for data and block --------------------------------------------------------

  /** Output position `p` is a literal of these sequences, which begin at position `at`, or of what follows them. */
  predicate Literal(s: seq<Sequence>, at: nat, p: nat)
    decreases |s|
  {
    at <= p && (s == [] || p < at + |s[0].literals| || Literal(s[1..], at + SequenceSpan(s[0]), p))
  }

  /** A literal or the start of a match: where the encoder has looked. */
  predicate Visited(s: seq<Sequence>, at: nat, p: nat)
    decreases |s|
  {
    at <= p && (s == [] || p <= at + |s[0].literals| || Visited(s[1..], at + SequenceSpan(s[0]), p))
  }

  predicate Holds(data: bytes, q: nat, key: bytes) {
    q + 4 <= |data| && data[q..q + 4] == key
  }

  /** Positions `q` and `p` start with the same four bytes. */
  predicate SameFour(data: bytes, q: nat, p: nat) {
    p + 4 <= |data| && Holds(data, q, data[p..p + 4])
  }

  /** The `n` bytes from `q` and from `p` on agree, and five are left after those from `p`. */
  predicate Agree(data: bytes, q: nat, p: nat, n: nat) {
    q <= p && p + n + 5 <= |data| && data[q..q + n] == data[p..p + n]
  }

  /** `q` is the nearest place before `p` where the encoder has looked that starts with the same four bytes. */
  ghost predicate Nearest(data: bytes, s: seq<Sequence>, q: nat, p: nat) {
    && q < p && Visited(s, 0, q) && SameFour(data, q, p)
    && forall x: nat :: q < x < p && Visited(s, 0, x) ==> !SameFour(data, x, p)
  }

  /** No match is missed at `p`: if a literal stands there, the nearest candidate is too far away or agrees in fewer
      than twelve bytes. */
  ghost predicate NoneMissed(data: bytes, s: seq<Sequence>, p: nat) {
    Literal(s, 0, p) && p + 12 <= |data| ==>
      forall q: nat :: Nearest(data, s, q, p) ==> p - q > 65535 || !Agree(data, q, p, 12)
  }

  /** Where the match of sequence `j` starts. */
  function Place(s: seq<Sequence>, j: nat): nat
    requires j < |s|
  {
    Spans(s[..j]) + |s[j].literals|
  }

  /** Match `j` is taken from the nearest candidate and goes as far as it can. */
  ghost predicate Taken(data: bytes, s: seq<Sequence>, j: nat)
    requires j < |s|
  {
    var p, x := Place(s, j), s[j];
    && 1 <= x.offset <= p && x.offset <= 65535 && Nearest(data, s, p - x.offset, p)
    && x.count >= 12 && Agree(data, p - x.offset, p, x.count)
    && (p + x.count + 5 == |data| || data[p + x.count] != data[p + x.count - x.offset])
  }

  /** A complete parse: no match is missed, and every match is maximal. */
  ghost predicate Complete(data: bytes, s: seq<Sequence>) {
    (forall p: nat :: NoneMissed(data, s, p)) && (forall j :: 0 <= j < |s| ==> Taken(data, s, j))
  }

  lemma {:induction false} BehindPrefix(done: seq<Sequence>, rest: seq<Sequence>, at: nat, p: nat)
    requires p >= at + Spans(done)
    ensures Literal(done + rest, at, p) <==> Literal(rest, at + Spans(done), p)
    decreases |done|
  {
    hide Visited;
    if done == [] {
      assert done + rest == rest;
    } else {
      assert (done + rest)[1..] == done[1..] + rest;
      BehindPrefix(done[1..], rest, at + SequenceSpan(done[0]), p);
    }
  }

  lemma {:induction false} LookedBehindPrefix(done: seq<Sequence>, rest: seq<Sequence>, at: nat, p: nat)
    requires p >= at + Spans(done)
    ensures Visited(done + rest, at, p) <==> Visited(rest, at + Spans(done), p)
    decreases |done|
  {
    hide Literal;
    if done == [] {
      assert done + rest == rest;
    } else {
      assert (done + rest)[1..] == done[1..] + rest;
      LookedBehindPrefix(done[1..], rest, at + SequenceSpan(done[0]), p);
    }
  }

  ghost predicate Ascending(visited: seq<nat>, pos: nat) {
    && (forall q :: q in visited ==> q < pos)
    && (forall i, j :: 0 <= i < j < |visited| ==> visited[i] < visited[j])
  }

  lemma AscendsBy(visited: seq<nat>, pos: nat)
    requires Ascending(visited, pos)
    ensures Ascending(visited + [pos], pos + 1)
  {
    var more := visited + [pos];
    forall i, j | 0 <= i < j < |more|
      ensures more[i] < more[j]
    {
      assert visited[i] in visited;
    }
  }

  lemma StaysAscending(visited: seq<nat>, pos: nat, next: nat)
    requires Ascending(visited, pos) && pos <= next
    ensures Ascending(visited, next)
  {
  }

  /** `q` is the nearest of these positions before `p` that starts with the same four bytes. */
  ghost predicate Candidate(data: bytes, visited: seq<nat>, q: nat, p: nat) {
    q in visited && q < p && SameFour(data, q, p) && forall x: nat :: x in visited && x > q ==> !SameFour(data, x, p)
  }

  /** The visited positions are those below `pos` where the whole parse has looked, in increasing order. */
  ghost predicate Looked(all: seq<Sequence>, pos: nat, visited: seq<nat>) {
    (forall q: nat :: q in visited <==> q < pos && Visited(all, 0, q)) && Ascending(visited, pos)
  }

  /** The last one in that order is the nearest one. */
  lemma {:induction false} LastSeenIsNearest(data: bytes, visited: seq<nat>, key: bytes, pos: nat)
    requires Ascending(visited, pos)
    ensures match LastSeen(data, visited, key)
            case None => forall x: nat :: x in visited ==> !Holds(data, x, key)
            case Some(q) =>
              q in visited && Holds(data, q, key) && forall x: nat :: x in visited && x > q ==> !Holds(data, x, key)
    decreases |visited|
  {
    if visited != [] {
      var before, last := visited[..|visited| - 1], visited[|visited| - 1];
      assert LastSeen(data, visited, key) == if Holds(data, last, key) then Some(last) else LastSeen(data, before, key);
      assert visited == before + [last];
      LastSeenIsNearest(data, before, key, last);
      hide LastSeen, Holds;
      forall x: nat | x in visited
        ensures x == last || (x in before && x < last)
      {
      }
    }
  }

  lemma CandidateIsLastSeen(data: bytes, pos: nat, visited: seq<nat>, q: nat)
    requires pos + 12 <= |data| && Ascending(visited, pos)
    ensures Candidate(data, visited, q, pos) <==> LastSeen(data, visited, data[pos..pos + 4]) == Some(q)
  {
    LastSeenIsNearest(data, visited, data[pos..pos + 4], pos);
    hide LastSeen, Holds;
  }

  lemma CandidateIsNearest(data: bytes, all: seq<Sequence>, pos: nat, visited: seq<nat>, q: nat)
    requires Looked(all, pos, visited)
    ensures Candidate(data, visited, q, pos) <==> Nearest(data, all, q, pos)
  {
    hide Visited, SameFour;
  }

  /** `Extent` goes as far as the bytes agree. */
  lemma {:induction false} ExtentIsMaximal(data: bytes, previous: nat, pos: nat, count: nat)
    requires previous < pos && pos + count + 5 <= |data|
    requires data[previous..previous + count] == data[pos..pos + count]
    ensures var x := Extent(data, previous, pos, count);
            && count <= x && Agree(data, previous, pos, x)
            && (pos + x + 5 == |data| || data[pos + x] != data[previous + x])
    decreases |data| - count
  {
    if pos + count < |data| - 5 && data[previous + count] == data[pos + count] {
      OneMoreAgrees(data, previous, pos, count);
      ExtentIsMaximal(data, previous, pos, count + 1);
    }
  }

  lemma OneMoreAgrees(data: bytes, q: nat, p: nat, n: nat)
    requires q <= p && p + n < |data| && data[q..q + n] == data[p..p + n] && data[q + n] == data[p + n]
    ensures data[q..q + n + 1] == data[p..p + n + 1]
  {
    assert data[q..q + n + 1] == data[q..q + n] + [data[q + n]];
    assert data[p..p + n + 1] == data[p..p + n] + [data[p + n]];
  }

  lemma AgreeReaches(data: bytes, q: nat, p: nat, x: nat, n: nat)
    ensures Agree(data, q, p, n) && x < n ==> p + x + 5 < |data| && q <= p && data[p + x] == data[q + x]
  {
    if Agree(data, q, p, n) && x < n {
      assert data[q..q + n][x] == data[q + x] && data[p..p + n][x] == data[p + x];
    }
  }

  /** What a search at `pos` must answer: if nothing, the nearest candidate is too far away or agrees in fewer than
      twelve bytes; otherwise the nearest candidate, and all the bytes that agree. */
  ghost predicate Found(data: bytes, visited: seq<nat>, pos: nat, offset: nat, count: nat) {
    if count == 0 then
      forall q: nat :: Candidate(data, visited, q, pos) ==> pos - q > 65535 || !Agree(data, q, pos, 12)
    else
      && 1 <= offset <= pos && offset <= 65535 && Candidate(data, visited, pos - offset, pos)
      && count >= 12 && Agree(data, pos - offset, pos, count)
      && (pos + count + 5 == |data| || data[pos + count] != data[pos + count - offset])
  }

  lemma MatchAtFinds(data: bytes, pos: nat, visited: seq<nat>)
    requires pos + 12 <= |data| && Ascending(visited, pos)
    ensures Found(data, visited, pos, MatchAt(data, pos, visited).0, MatchAt(data, pos, visited).1)
  {
    var (offset, count) := MatchAt(data, pos, visited);
    forall q: nat
      ensures Candidate(data, visited, q, pos) <==> LastSeen(data, visited, data[pos..pos + 4]) == Some(q)
    {
      CandidateIsLastSeen(data, pos, visited, q);
    }
    match LastSeen(data, visited, data[pos..pos + 4])
    case None =>
    case Some(q) =>
      assert Candidate(data, visited, q, pos);
      ExtentIsMaximal(data, q, pos, 4);
      AgreeReaches(data, q, pos, Extent(data, q, pos, 4), 12);
      hide Extent, LastSeen, Agree;
  }

  /** The same in terms of the whole parse. */
  lemma MatchAtIsNearest(data: bytes, all: seq<Sequence>, pos: nat, visited: seq<nat>)
    requires pos + 12 <= |data| && Looked(all, pos, visited)
    ensures var (offset, count) := MatchAt(data, pos, visited);
            if count == 0 then
              forall q: nat :: Nearest(data, all, q, pos) ==> pos - q > 65535 || !Agree(data, q, pos, 12)
            else
              && 1 <= offset <= pos && offset <= 65535 && Nearest(data, all, pos - offset, pos)
              && count >= 12 && Agree(data, pos - offset, pos, count)
              && (pos + count + 5 == |data| || data[pos + count] != data[pos + count - offset])
  {
    MatchAtFinds(data, pos, visited);
    forall q: nat
      ensures Candidate(data, visited, q, pos) <==> Nearest(data, all, q, pos)
    {
      CandidateIsNearest(data, all, pos, visited, q);
    }
    hide MatchAt, Nearest, Agree, Candidate;
  }

  /** The first match of the parse from `pos` on starts at `pos` or later. */
  lemma {:induction false} FirstMatchIsAhead(data: bytes, pos: nat, anchor: nat, visited: seq<nat>)
    requires anchor <= pos
    ensures var s := Matches(data, pos, anchor, visited); s != [] ==> anchor + |s[0].literals| >= pos
    decreases |data| - pos
  {
    hide MatchAt;
    if pos + 12 <= |data| {
      var (offset, count) := MatchAt(data, pos, visited);
      if count == 0 {
        FirstMatchIsAhead(data, pos + 1, anchor, visited + [pos]);
      }
    }
  }

  /** From `pos` on, no match is missed, and every match that is still to come is taken as it should be. */
  ghost predicate CompleteFrom(data: bytes, all: seq<Sequence>, pos: nat, n: nat) {
    && (forall p: nat :: p >= pos ==> NoneMissed(data, all, p))
    && (forall j :: n <= j < |all| ==> Taken(data, all, j))
  }

  lemma LookedMore(all: seq<Sequence>, pos: nat, visited: seq<nat>, next: nat)
    requires Looked(all, pos, visited) && pos < next && Visited(all, 0, pos)
    requires forall p: nat :: pos < p < next ==> !Visited(all, 0, p)
    ensures Looked(all, next, visited + [pos])
  {
    AscendsBy(visited, pos);
    StaysAscending(visited + [pos], pos + 1, next);
    hide Visited, Ascending;
    forall q: nat
      ensures q in visited + [pos] <==> q in visited || q == pos
    {
    }
  }

  /** A step of the parse that finds no match leaves a literal behind. */
  lemma LooksOn(data: bytes, all: seq<Sequence>, done: seq<Sequence>, pos: nat, anchor: nat, visited: seq<nat>)
    requires anchor == Spans(done) <= pos && pos + 12 <= |data| && Looked(all, pos, visited)
    requires MatchAt(data, pos, visited).1 == 0
    requires all == done + Matches(data, pos + 1, anchor, visited + [pos])
    ensures Looked(all, pos + 1, visited + [pos]) && NoneMissed(data, all, pos)
  {
    MatchAtIsNearest(data, all, pos, visited);
    FirstMatchIsAhead(data, pos + 1, anchor, visited + [pos]);
    BehindPrefix(done, Matches(data, pos + 1, anchor, visited + [pos]), 0, pos);
    LookedBehindPrefix(done, Matches(data, pos + 1, anchor, visited + [pos]), 0, pos);
    hide MatchAt, Matches, Nearest, Agree, Looked;
    LookedMore(all, pos, visited, pos + 1);
  }

  /** Inside a match there are no literals, and nothing has been looked at but its start. */
  lemma InsideMatch(all: seq<Sequence>, done: seq<Sequence>, x: Sequence, rest: seq<Sequence>, p: nat)
    requires all == done + [x] + rest && Spans(done) + |x.literals| <= p < Spans(done) + SequenceSpan(x)
    ensures !Literal(all, 0, p) && (Visited(all, 0, p) <==> p == Spans(done) + |x.literals|)
  {
    var tail := [x] + rest;
    assert all == done + tail && tail[0] == x && tail[1..] == rest;
    BehindPrefix(done, tail, 0, p);
    LookedBehindPrefix(done, tail, 0, p);
  }

  lemma PlaceIs(done: seq<Sequence>, x: Sequence, rest: seq<Sequence>)
    ensures var all := done + [x] + rest;
            |done| < |all| && all[|done|] == x && Place(all, |done|) == Spans(done) + |x.literals|
  {
    hide Spans;
    assert (done + [x] + rest)[..|done|] == done;
  }

  lemma TakenAt(data: bytes, all: seq<Sequence>, k: nat, pos: nat, visited: seq<nat>)
    requires k < |all| && pos == Place(all, k) && pos + 12 <= |data| && Looked(all, pos, visited)
    requires all[k].count > 0 && MatchAt(data, pos, visited) == (all[k].offset, all[k].count)
    ensures Taken(data, all, k)
  {
    MatchAtIsNearest(data, all, pos, visited);
    hide MatchAt, Nearest, Agree, Looked, Place;
  }

  /** A step that finds a match looks at nothing inside it. */
  lemma LooksPast(data: bytes, all: seq<Sequence>, pos: nat, next: nat, visited: seq<nat>)
    requires pos < next && Looked(all, pos, visited)
    requires forall p: nat :: pos <= p < next ==> !Literal(all, 0, p) && (Visited(all, 0, p) <==> p == pos)
    ensures Looked(all, next, visited + [pos])
    ensures forall p: nat :: pos <= p < next ==> NoneMissed(data, all, p)
  {
    hide Nearest, Agree, Looked, Visited, Literal;
    LookedMore(all, pos, visited, next);
  }

  lemma {:induction false} ParseIsComplete(data: bytes, all: seq<Sequence>, done: seq<Sequence>, pos: nat, anchor: nat,
                                           visited: seq<nat>)
    requires anchor == Spans(done) <= pos && Looked(all, pos, visited)
    requires all == done + Matches(data, pos, anchor, visited)
    ensures CompleteFrom(data, all, pos, |done|)
    decreases |data| - pos
  {
    hide MatchAt, Looked, NoneMissed, Taken, Literal, Visited, Spans, Place;
    if pos + 12 <= |data| {
      var (offset, count) := MatchAt(data, pos, visited);
      if count == 0 {
        LooksOn(data, all, done, pos, anchor, visited);
        ParseIsComplete(data, all, done, pos + 1, anchor, visited + [pos]);
      } else {
        var x := Sequence(data[anchor..pos], offset, count);
        var rest := Matches(data, pos + count, pos + count, visited + [pos]);
        assert all == done + [x] + rest;
        PlaceIs(done, x, rest);
        forall p: nat | pos <= p < pos + count
          ensures !Literal(all, 0, p) && (Visited(all, 0, p) <==> p == pos)
        {
          InsideMatch(all, done, x, rest, p);
        }
        TakenAt(data, all, |done|, pos, visited);
        LooksPast(data, all, pos, pos + count, visited);
        SpansMore(done, x);
        ParseIsComplete(data, all, done + [x], pos + count, pos + count, visited + [pos]);
      }
    } else {
      NothingLeft(data, all, pos);
      assert Matches(data, pos, anchor, visited) == [];
    }
  }

  lemma {:induction false} SpansMore(s: seq<Sequence>, x: Sequence)
    ensures Spans(s + [x]) == Spans(s) + SequenceSpan(x)
  {
    if s == [] {
      assert s + [x] == [x] && [x][1..] == [];
    } else {
      assert (s + [x])[1..] == s[1..] + [x];
      SpansMore(s[1..], x);
    }
  }

  lemma NothingLeft(data: bytes, all: seq<Sequence>, pos: nat)
    requires pos + 12 > |data|
    ensures forall p: nat :: p >= pos ==> NoneMissed(data, all, p)
  {
    hide Nearest, Literal;
  }

  /** The greedy parse is complete. */
  lemma GreedyIsComplete(data: bytes)
    ensures Complete(data, Matches(data, 0, 0, []))
  {
    var all := Matches(data, 0, 0, []);
    assert all == [] + all;
    hide Matches, NoneMissed, Taken;
    ParseIsComplete(data, all, [], 0, 0, []);
  }

  // ---- there is only one complete parse -----------------------------------------------------------

  /** The literals of these sequences stand in the data where they are due. */
  predicate Quotes(data: bytes, s: seq<Sequence>, at: nat)
    decreases |s|
  {
    s == []
    || (&& at + |s[0].literals| <= |data| && s[0].literals == data[at..at + |s[0].literals|]
        && Quotes(data, s[1..], at + SequenceSpan(s[0])))
  }

  lemma {:induction false} QuotesAt(data: bytes, s: seq<Sequence>, at: nat, k: nat)
    requires Quotes(data, s, at) && k < |s|
    ensures var p := at + Spans(s[..k]);
            p + |s[k].literals| <= |data| && s[k].literals == data[p..p + |s[k].literals|]
    decreases |s|
  {
    if k > 0 {
      QuotesAt(data, s[1..], at + SequenceSpan(s[0]), k - 1);
      assert s[..k][1..] == s[1..][..k - 1];
    }
  }

  /** Where the encoder has looked before the end of the first sequences does not depend on what follows them. */
  lemma {:induction false} LookedWithin(done: seq<Sequence>, rest: seq<Sequence>, other: seq<Sequence>, at: nat, q: nat)
    requires q < at + Spans(done)
    ensures Visited(done + rest, at, q) <==> Visited(done + other, at, q)
    decreases |done|
  {
    if done != [] {
      assert (done + rest)[1..] == done[1..] + rest && (done + other)[1..] == done[1..] + other;
      if q >= at + SequenceSpan(done[0]) {
        LookedWithin(done[1..], rest, other, at + SequenceSpan(done[0]), q);
      } else {
        NotYet(done[1..] + rest, at + SequenceSpan(done[0]), q);
        NotYet(done[1..] + other, at + SequenceSpan(done[0]), q);
      }
    }
  }

  lemma NotYet(s: seq<Sequence>, at: nat, q: nat)
    requires q < at
    ensures !Visited(s, at, q)
  {
  }

  /** Two parses that begin alike have looked at the same places up to the first match after that. */
  lemma LookedAlike(s: seq<Sequence>, t: seq<Sequence>, k: nat, q: nat)
    requires k < |s| && k <= |t| && s[..k] == t[..k] && q <= Place(s, k)
    requires k < |t| ==> Place(s, k) <= Place(t, k)
    ensures Visited(s, 0, q) <==> Visited(t, 0, q)
  {
    var done := s[..k];
    assert s == done + s[k..] && t == done + t[k..];
    if q < Spans(done) {
      LookedWithin(done, s[k..], t[k..], 0, q);
    } else {
      LookedBehindPrefix(done, s[k..], 0, q);
      LookedBehindPrefix(done, t[k..], 0, q);
    }
  }

  lemma LiteralThere(t: seq<Sequence>, k: nat, p: nat)
    requires k <= |t| && Spans(t[..k]) <= p && (k < |t| ==> p < Place(t, k))
    ensures Literal(t, 0, p)
  {
    assert t == t[..k] + t[k..];
    BehindPrefix(t[..k], t[k..], 0, p);
  }

  lemma FewerAgree(data: bytes, q: nat, p: nat, m: nat, n: nat)
    requires Agree(data, q, p, n) && m <= n
    ensures Agree(data, q, p, m)
  {
    assert data[q..q + m] == data[q..q + n][..m] && data[p..p + m] == data[p..p + n][..m];
  }

  lemma NearestAlike(data: bytes, s: seq<Sequence>, t: seq<Sequence>, q: nat, p: nat)
    requires Nearest(data, s, q, p) && forall x: nat :: x <= p ==> (Visited(s, 0, x) <==> Visited(t, 0, x))
    ensures Nearest(data, t, q, p)
  {
    hide Visited, SameFour;
  }

  /** A complete parse has its next match no later than another one that begins like it. */
  lemma NoneIsLater(data: bytes, s: seq<Sequence>, t: seq<Sequence>, k: nat)
    requires Complete(data, s) && Complete(data, t)
    requires k < |s| && k <= |t| && s[..k] == t[..k]
    ensures k < |t| && Place(t, k) <= Place(s, k)
  {
    var p, x := Place(s, k), s[k];
    if k == |t| || Place(t, k) > p {
      assert Taken(data, s, k) && NoneMissed(data, t, p);
      LiteralThere(t, k, p);
      forall q: nat | q <= p
        ensures Visited(s, 0, q) <==> Visited(t, 0, q)
      {
        LookedAlike(s, t, k, q);
      }
      NearestAlike(data, s, t, p - x.offset, p);
      FewerAgree(data, p - x.offset, p, 12, x.count);
      assert false;
    }
  }

  lemma NearestIsOne(data: bytes, s: seq<Sequence>, p: nat, q: nat, x: nat)
    requires Nearest(data, s, q, p) && Nearest(data, s, x, p)
    ensures q == x
  {
    hide Visited, SameFour;
  }

  /** How far a match goes is settled by where it starts and where it is taken from. */
  lemma SameCount(data: bytes, q: nat, p: nat, m: nat, n: nat)
    requires Agree(data, q, p, m) && (p + m + 5 == |data| || data[p + m] != data[q + m])
    requires Agree(data, q, p, n) && (p + n + 5 == |data| || data[p + n] != data[q + n])
    ensures m == n
  {
    AgreeReaches(data, q, p, m, n);
    AgreeReaches(data, q, p, n, m);
    hide Agree;
  }

  lemma SameTaken(data: bytes, s: seq<Sequence>, t: seq<Sequence>, k: nat)
    requires k < |s| && k < |t| && Taken(data, s, k) && Taken(data, t, k) && Place(s, k) == Place(t, k)
    requires forall x: nat :: x <= Place(s, k) ==> (Visited(s, 0, x) <==> Visited(t, 0, x))
    ensures s[k].offset == t[k].offset && s[k].count == t[k].count
  {
    hide Visited, Spans, Place, Agree, Nearest;
    var p := Place(s, k);
    NearestAlike(data, s, t, p - s[k].offset, p);
    NearestIsOne(data, t, p, p - s[k].offset, p - t[k].offset);
    SameCount(data, p - s[k].offset, p, s[k].count, t[k].count);
  }

  lemma SameNext(data: bytes, s: seq<Sequence>, t: seq<Sequence>, k: nat)
    requires Complete(data, s) && Complete(data, t) && Quotes(data, s, 0) && Quotes(data, t, 0)
    requires k < |s| && k < |t| && s[..k] == t[..k]
    ensures s[k] == t[k]
  {
    NoneIsLater(data, s, t, k);
    NoneIsLater(data, t, s, k);
    QuotesAt(data, s, 0, k);
    QuotesAt(data, t, 0, k);
    assert Taken(data, s, k) && Taken(data, t, k);
    hide Quotes, Visited, Complete, Taken;
    forall q: nat | q <= Place(s, k)
      ensures Visited(s, 0, q) <==> Visited(t, 0, q)
    {
      LookedAlike(s, t, k, q);
    }
    SameTaken(data, s, t, k);
  }

  lemma {:induction false} AlikeFrom(data: bytes, s: seq<Sequence>, t: seq<Sequence>, k: nat)
    requires Complete(data, s) && Complete(data, t) && Quotes(data, s, 0) && Quotes(data, t, 0)
    requires k <= |s| && k <= |t| && s[..k] == t[..k]
    ensures s == t
    decreases |s| - k
  {
    hide Complete, Quotes, Place;
    if k < |s| {
      NoneIsLater(data, s, t, k);
      SameNext(data, s, t, k);
      assert s[..k + 1] == s[..k] + [s[k]] && t[..k + 1] == t[..k] + [t[k]];
      AlikeFrom(data, s, t, k + 1);
    } else {
      if k < |t| {
        NoneIsLater(data, t, s, k);
      }
      assert s[..k] == s && t[..k] == t;
    }
  }

  lemma {:induction false} MatchesQuote(data: bytes, pos: nat, anchor: nat, visited: seq<nat>)
    requires anchor <= pos
    ensures Quotes(data, Matches(data, pos, anchor, visited), anchor)
    decreases |data| - pos
  {
    hide MatchAt;
    if pos + 12 <= |data| {
      var (offset, count) := MatchAt(data, pos, visited);
      if count == 0 {
        MatchesQuote(data, pos + 1, anchor, visited + [pos]);
      } else {
        var x := Sequence(data[anchor..pos], offset, count);
        var rest := Matches(data, pos + count, pos + count, visited + [pos]);
        MatchesQuote(data, pos + count, pos + count, visited + [pos]);
        assert ([x] + rest)[1..] == rest;
      }
    }
  }

  /** The greedy parse is the only complete one: data and completeness alone settle every sequence of the block. */
  lemma OnlyGreedyIsComplete(data: bytes, s: seq<Sequence>)
    requires Quotes(data, s, 0)
    ensures Complete(data, s) <==> s == Matches(data, 0, 0, [])
  {
    hide Complete, Quotes, Matches;
    GreedyIsComplete(data);
    MatchesQuote(data, 0, 0, []);
    if Complete(data, s) {
      AlikeFrom(data, s, Matches(data, 0, 0, []), 0);
    }
  }

  /** The block that stands for `data`: the sequences of the greedy parse, and the bytes after them as literals. */
  function Packed(data: bytes): bytes {
    MatchesFit(data, 0, 0, []);
    var s := Matches(data, 0, 0, []);
    Render(Block(s, data[Spans(s)..]))
  }

  /** The inner loop of `compress`: how far the match at `pos` goes. */
  method MatchLength(data: bytes, previous: nat, pos: nat) returns (count: nat)
    requires previous < pos && pos + 12 <= |data|
    requires data[previous..previous + 4] == data[pos..pos + 4]
    ensures count == Extent(data, previous, pos, 4) >= 4 && pos + count + 5 <= |data|
    ensures forall t :: pos <= t < pos + count ==> data[t] == data[t - (pos - previous)]
  {
    count := 4;
    SameKey(data, previous, pos);
    while pos + count < |data| - 5 && data[previous + count] == data[pos + count]
      invariant 4 <= count && pos + count + 5 <= |data|
      invariant Extent(data, previous, pos, count) == Extent(data, previous, pos, 4)
      invariant forall t :: pos <= t < pos + count ==> data[t] == data[t - (pos - previous)]
      decreases |data| - count
    {
      count := count + 1;
    }
  }

  /** The hash table answers for the visited positions: a four-byte key is mapped to the last of them that has it. */
  ghost predicate TableFor(table: map<bytes, nat>, data: bytes, visited: seq<nat>) {
    && (forall k :: LastSeen(data, visited, k) == if k in table then Some(table[k]) else None)
    && (forall k :: k in table ==> table[k] + 4 <= |data| && data[table[k]..table[k] + 4] == k && table[k] in visited)
  }

  lemma TableVisits(table: map<bytes, nat>, data: bytes, visited: seq<nat>, pos: nat)
    requires pos + 12 <= |data| && TableFor(table, data, visited)
    ensures TableFor(table[data[pos..pos + 4] := pos], data, visited + [pos])
  {
    var more, after := visited + [pos], table[data[pos..pos + 4] := pos];
    assert more[..|visited|] == visited && more[|more| - 1] == pos;
    forall k
      ensures LastSeen(data, more, k) == if k in after then Some(after[k]) else None
    {
      assert LastSeen(data, visited, k) == if k in table then Some(table[k]) else None;
    }
  }

  /** The body of the search: look the key up, record it, and accept a match that is near and long enough.
      `count` is 0 when there is none. */
  method Search(data: bytes, pos: nat, before: map<bytes, nat>, ghost visited: seq<nat>)
    returns (table: map<bytes, nat>, offset: nat, count: nat)
    requires pos + 12 <= |data| && TableFor(before, data, visited) && Ascending(visited, pos)
    ensures TableFor(table, data, visited + [pos]) && Ascending(visited + [pos], pos + 1)
    ensures count == MatchAt(data, pos, visited).1 && (count > 0 ==> offset == MatchAt(data, pos, visited).0)
    ensures Found(data, visited, pos, offset, count)
    ensures count > 0 ==>
              && 1 <= offset <= pos && offset <= 65535 && count >= 12 && pos + count + 5 <= |data|
              && forall t :: pos <= t < pos + count ==> data[t] == data[t - offset]
  {
    var key := data[pos..pos + 4];
    var previous := if key in before then before[key] else -1;
    TableVisits(before, data, visited, pos);
    MatchAtFinds(data, pos, visited);
    AscendsBy(visited, pos);
    table := before[key := pos];
    offset, count := 0, 0;
    assert LastSeen(data, visited, key) == if key in before then Some(before[key]) else None;
    hide LastSeen, Extent, Candidate, Agree;
    if previous < 0 || pos - previous > 65535 {
      return;
    }
    offset := pos - previous;
    count := MatchLength(data, previous, pos);
    if count < 12 {
      count := 0;
    }
  }

  /** The hash-table encoder. `matches` is the second component of the source's result. The output is a block of the
      format that stands for the input, that keeps the end-of-block rules, whose sequences are exactly those of the
      greedy parse, that misses no match and cuts none short, and that is hardly longer than the input. */
  method Compress(data: bytes) returns (output: bytes, matches: nat)
    ensures output == Packed(data) && Decode(output) == Some(data)
    ensures Parse(output, 0).Some? && Parse(output, 0).value.sequences == Matches(data, 0, 0, [])
    ensures Conforms(Parse(output, 0).value.sequences, 0, |data|)
    ensures Complete(data, Parse(output, 0).value.sequences)
    ensures matches == |Parse(output, 0).value.sequences|
    ensures |output| <= |data| + |data| / 255 + 2
  {
    GreedyIsComplete(data);
    hide Encoded, TableFor, MatchAt, Matches, Packed, Parse, Decode, Conforms, RenderTail, RenderSequence, Found,
      Complete;
    output := [];
    var table: map<bytes, nat> := map[];
    var anchor, pos := 0, 0;
    ghost var s: seq<Sequence>, visited: seq<nat> := [], [];
    matches := 0;
    NothingEncoded(data);
    while pos <= |data| - 12
      invariant 0 <= anchor <= pos && anchor <= |data| && matches == |s|
      invariant Encoded(data, anchor, s, output)
      invariant TableFor(table, data, visited) && Ascending(visited, pos)
      invariant s + Matches(data, pos, anchor, visited) == Matches(data, 0, 0, [])
      decreases |data| - pos
    {
      var offset, count;
      table, offset, count := Search(data, pos, table, visited);
      MatchesStep(data, pos, anchor, visited, s);
      visited := visited + [pos];
      StaysAscending(visited, pos + 1, pos + Max(1, count));
      if count == 0 {
        pos := pos + 1;
        continue;
      }
      EncodeMatch(data, anchor, s, output, pos, offset, count);
      ghost var x := Sequence(data[anchor..pos], offset, count);
      output := EmitSequence(output, data[anchor..pos], offset, count);
      s := s + [x];
      matches := matches + 1;
      pos := pos + count;
      anchor := pos;
    }
    MatchesEnd(data, pos, anchor, visited, s);
    EncodeTail(data, anchor, s, output);
    PackedIs(data, anchor);
    TailIsFront(data[anchor..]);
    output := EmitFront(output, data[anchor..], 0);
  }

  lemma TailIsFront(tail: bytes)
    ensures RenderTail(tail) == FrontBytes(0, tail)
  {
  }

  lemma PackedIs(data: bytes, anchor: nat)
    requires var s := Matches(data, 0, 0, []); Spans(s) == anchor <= |data| && forall x :: x in s ==> WellFormed(x)
    ensures Packed(data) == Render(Block(Matches(data, 0, 0, []), data[anchor..]))
  {
    hide Matches, Render;
  }

  /** One step of the greedy parse, behind the sequences found so far. */
  lemma MatchesStep(data: bytes, pos: nat, anchor: nat, visited: seq<nat>, s: seq<Sequence>)
    requires anchor <= pos && pos + 12 <= |data|
    ensures var (offset, count) := MatchAt(data, pos, visited);
            s + Matches(data, pos, anchor, visited) ==
            if count == 0 then s + Matches(data, pos + 1, anchor, visited + [pos])
            else
              s + [Sequence(data[anchor..pos], offset, count)]
              + Matches(data, pos + count, pos + count, visited + [pos])
  {
    hide MatchAt;
  }

  lemma MatchesEnd(data: bytes, pos: nat, anchor: nat, visited: seq<nat>, s: seq<Sequence>)
    requires anchor <= pos && pos + 12 > |data|
    ensures s + Matches(data, pos, anchor, visited) == s
  {
  }

  lemma NothingEncoded(data: bytes)
    ensures Encoded(data, 0, [], []) && TableFor(map[], data, [])
  {
  }

  /** Equal four-byte keys agree byte by byte. */
  lemma SameKey(data: bytes, previous: nat, pos: nat)
    requires previous < pos && pos + 4 <= |data|
    requires data[previous..previous + 4] == data[pos..pos + 4]
    ensures forall t :: pos <= t < pos + 4 ==> data[t] == data[t - (pos - previous)]
  {
    forall t | pos <= t < pos + 4
      ensures data[t] == data[t - (pos - previous)]
    {
      assert data[t] == data[pos..pos + 4][t - pos];
      assert data[t - (pos - previous)] == data[previous..previous + 4][t - pos];
    }
  }

  /** Whatever `Compress` emits, `Decompress` turns back into the input, for every block the protocol allows. */
  method RoundTrip(data: bytes) returns (back: Option<bytes>)
    requires |data| <= MAX_PLAIN
    ensures back == Some(data)
  {
    var packed, _ := Compress(data);
    back := Decompress(packed, |data|);
  }

  // ---- src/pcutp/compression.py: worthwhile -----------------------------------

  /** Shorter by 15 percent, and saving more than one and a half times what unpacking is estimated to cost; times in
      exact rationals. */
  predicate Pays(rawSize: nat, packedSize: nat, matches: nat, baud: nat)
    requires baud > 0
  {
    var saved := (rawSize - packedSize - 12) as real * 10.0 / baud as real;
    var decode := 0.002 + matches as real * 0.0005 + rawSize as real * 0.000002;
    100 * packedSize <= 85 * rawSize && saved > decode * 1.5
  }

  /** The same in whole numbers: times 10 million, twice. */
  lemma PaysMeans(rawSize: nat, packedSize: nat, matches: nat, baud: nat)
    requires baud > 0
    ensures Pays(rawSize, packedSize, matches, baud) <==>
              && 100 * packedSize <= 85 * rawSize
              && 20000000 * (rawSize - packedSize - 12) > 3 * baud * (2000 + 500 * matches + 2 * rawSize)
  {
    var b, gain, cost := baud as real, (rawSize - packedSize - 12) as real * 10.0, 2000 + 500 * matches + 2 * rawSize;
    var decode := 0.002 + matches as real * 0.0005 + rawSize as real * 0.000002;
    assert decode * 1.5 * 2000000.0 == 3.0 * cost as real;
    QuotientAbove(gain, b, decode * 1.5);
    Rescaled(decode * 1.5, b, cost);
    assert (3 * baud * cost) as real == b * (3.0 * cost as real);
  }

  lemma QuotientAbove(x: real, b: real, y: real)
    requires b > 0.0
    ensures x / b > y <==> x > y * b
  {
    var z := x / b;
    assert x == z * b;
    if z > y {
      assert (z - y) * b > 0.0;
    } else {
      assert (y - z) * b >= 0.0;
    }
  }

  lemma Rescaled(y: real, b: real, cost: nat)
    requires y * 2000000.0 == 3.0 * cost as real
    ensures y * b * 2000000.0 == b * (3.0 * cost as real)
  {
  }

  /** The packed form is offered exactly when the block is long enough and packing pays; then it is shorter than the raw
      block, and decodes to it. */
  method Worthwhile(raw: bytes, baud: nat) returns (r: Option<bytes>)
    requires baud > 0
    ensures r == if |raw| >= 64 && Pays(|raw|, |Packed(raw)|, |Matches(raw, 0, 0, [])|, baud) then Some(Packed(raw))
                 else None
    ensures r.Some? <==>
              var p, m := |Packed(raw)|, |Matches(raw, 0, 0, [])|;
              && |raw| >= 64 && 100 * p <= 85 * |raw|
              && 20000000 * (|raw| - p - 12) > 3 * baud * (2000 + 500 * m + 2 * |raw|)
    ensures r.Some? ==> Decode(r.value) == Some(raw) && 100 * |r.value| <= 85 * |raw| && |r.value| < |raw|
  {
    hide Packed, Matches, Decode, Parse, Conforms, Complete;
    if |raw| < 64 {
      return None;
    }
    var packed, matches := Compress(raw);
    PaysMeans(|raw|, |packed|, matches, baud);
    var saved := (|raw| - |packed| - 12) as real * 10.0 / baud as real;
    var decode := 0.002 + matches as real * 0.0005 + |raw| as real * 0.000002;
    if 100 * |packed| <= 85 * |raw| && saved > decode * 1.5 {
      return Some(packed);
    }
    return None;
  }
}
