/**
  Control lines and raw payloads over a byte transport, src/pcutp/link.py without keep-alive: what `recv_line` and
  `recv_exact` make of a stream does not depend on how the transport cuts it up, as long as lines are not too long.
*/
module Framing {
  import opened Basics
  import opened Text

  const LF: byte := 10
  const MAX_LINE_LEN := 512
  const READ_SIZE := 64

  // ---- one line ---------------------------------------------------------------------

  /** ASCII with replacement. */
  function Letter(b: byte): char {
    if b < 128 then b as char else '\U{FFFD}'
  }

  function Letters(s: bytes): string {
    seq(|s|, i requires 0 <= i < |s| => Letter(s[i]))
  }

  function DropNuls(s: bytes): bytes {
    if s != [] && s[0] == 0 then DropNuls(s[1..]) else s
  }

  function StripLeft(s: string): string {
    if s != [] && s[0] == '\r' then StripLeft(s[1..]) else s
  }

  function StripRight(s: string): string {
    if s != [] && s[|s| - 1] == '\r' then StripRight(s[..|s| - 1]) else s
  }

  /** The text of a line, without the line feed. */
  function TextOf(line: bytes): string {
    StripRight(StripLeft(Letters(DropNuls(line))))
  }

  predicate IsPing(parts: seq<string>) {
    |parts| == 2 && parts[0] == "PING" && IsDecimal(parts[1])
  }

  predicate IsPong(parts: seq<string>) {
    |parts| == 2 && parts[0] == "PONG" && IsDecimal(parts[1])
  }

  predicate IsBeacon(parts: seq<string>) {
    |parts| == 3 && parts[0] == "BEACON" && parts[1] in {"U", "P"} && parts[2] in {"0", "1"}
  }

  predicate IsMarker(parts: seq<string>) {
    |parts| == 4 && parts[0] == "MARK" && parts[1] in {"U", "P"} && parts[2] in {"U", "P"} && parts[3] in {"0", "1"}
  }

  /** A line that `recv_line` keeps to itself. */
  predicate Transparent(text: string) {
    var parts := Words(text);
    IsPing(parts) || IsPong(parts) || IsBeacon(parts) || IsMarker(parts)
  }

  /** What such a line is answered with. */
  function Answers(text: string): seq<string> {
    var parts := Words(text);
    if IsPing(parts) then ["PONG " + parts[1]] else []
  }

  function FindLf(s: bytes): (n: nat)
    ensures n <= |s| && LF !in s[..n] && (n < |s| ==> s[n] == LF)
  {
    if s == [] || s[0] == LF then 0 else 1 + FindLf(s[1..])
  }

  // ---- a whole stream -----------------------------------------------------------------

  /** What is read: a line if there is one, what is left, and the answers written on the way. */
  datatype Reading = Reading(line: Option<string>, left: bytes, answers: seq<string>)

  /** The first line of a stream that is not transparent. */
  function First(s: bytes): Reading
    decreases |s|
  {
    var i := FindLf(s);
    if i == |s| then Reading(None, s, [])
    else
      var text, rest := TextOf(s[..i]), s[i + 1..];
      if !Transparent(text) then Reading(Some(text), rest, [])
      else
        var later := First(rest);
        later.(answers := Answers(text) + later.answers)
  }

  /** No line up to that one is too long. */
  predicate Short(s: bytes)
    decreases |s|
  {
    var i := FindLf(s);
    i <= MAX_LINE_LEN && (i < |s| && Transparent(TextOf(s[..i])) ==> Short(s[i + 1..]))
  }

  // ---- a stream in chunks ---------------------------------------------------------------

  datatype Outcome = Line(text: string) | TooLong | TimedOut

  /** What `recv_line` does with its buffer and the chunks that the transport returns before the deadline: its outcome,
      the buffer it leaves, the chunks it did not need, and its answers. */
  datatype Receipt = Receipt(outcome: Outcome, buf: bytes, unread: seq<bytes>, answers: seq<string>)

  function Await(buf: bytes, chunks: seq<bytes>): Receipt
    decreases |chunks|, |buf|
  {
    var i := FindLf(buf);
    if i < |buf| then
      var text, rest := TextOf(buf[..i]), buf[i + 1..];
      if !Transparent(text) then Receipt(Line(text), rest, chunks, [])
      else
        var later := Await(rest, chunks);
        later.(answers := Answers(text) + later.answers)
    else if |buf| > MAX_LINE_LEN then Receipt(TooLong, buf, chunks, [])
    else if chunks == [] then Receipt(TimedOut, buf, [], [])
    else Await(buf + chunks[0], chunks[1..])
  }

  function Concat(chunks: seq<bytes>): bytes {
    if chunks == [] then [] else chunks[0] + Concat(chunks[1..])
  }

  /** `recv_exact`: the payload if enough arrives, the buffer and the chunks left. */
  function Exact(buf: bytes, chunks: seq<bytes>, size: nat): (Option<bytes>, bytes, seq<bytes>)
    decreases |chunks|
  {
    if |buf| >= size then (Some(buf[..size]), buf[size..], chunks)
    else if chunks == [] then (None, buf, [])
    else Exact(buf + chunks[0], chunks[1..], size)
  }

  lemma {:induction false} FindLfIn(s: bytes, t: bytes)
    ensures FindLf(s) < |s| ==> FindLf(s + t) == FindLf(s)
    ensures FindLf(s) == |s| ==> FindLf(s + t) == |s| + FindLf(t)
    decreases |s|
  {
    if s == [] {
      assert s + t == t;
    } else {
      FindLfIn(s[1..], t);
      assert (s + t)[1..] == s[1..] + t;
    }
  }

  lemma DropTwice(s: bytes, a: nat, b: nat)
    requires a + b <= |s|
    ensures s[a..][b..] == s[a + b..]
  {
  }

  /** What was read is the start of what the buffer and the transport held; nothing is lost or made up. */
  lemma {:induction false} FirstConserves(s: bytes)
    ensures var n := |First(s).left|;
            && n <= |s| && First(s).left == s[|s| - n..]
            && (First(s).line.Some? ==> n < |s| && s[|s| - n - 1] == LF)
            && (First(s).line.None? ==> LF !in First(s).left)
    decreases |s|
  {
    hide *;
    var i := FindLf(s);
    if i < |s| {
      FirstLine(s);
      var rest := s[i + 1..];
      if Transparent(TextOf(s[..i])) {
        FirstConserves(rest);
        DropTwice(s, i + 1, |rest| - |First(rest).left|);
      }
    } else {
      FirstNone(s);
      assert s[..i] == s && s[0..] == s;
    }
  }

  lemma FirstNone(s: bytes)
    requires FindLf(s) == |s|
    ensures First(s) == Reading(None, s, [])
  {
  }

  /** What reading in chunks gives is what the whole stream gives. */
  ghost predicate Reads(a: Receipt, s: bytes) {
    if a.outcome.TooLong? then !Short(s)
    else
      First(s) == Reading(if a.outcome.Line? then Some(a.outcome.text) else None, a.buf + Concat(a.unread), a.answers)
  }

  /** Reading in chunks gives what the whole stream gives, unless a line was too long; and only a line that is too long
      for some way of cutting the stream can be. */
  lemma {:induction false} AwaitReadsStream(buf: bytes, chunks: seq<bytes>)
    ensures Reads(Await(buf, chunks), buf + Concat(chunks))
    decreases |chunks|, |buf|
  {
    hide TextOf, Transparent, Answers, Reads, First, Short;
    var i := FindLf(buf);
    if i < |buf| {
      if Transparent(TextOf(buf[..i])) {
        AwaitReadsStream(buf[i + 1..], chunks);
      }
      LineReads(buf, chunks);
    } else if |buf| <= MAX_LINE_LEN && chunks != [] {
      assert buf + Concat(chunks) == (buf + chunks[0]) + Concat(chunks[1..]);
      AwaitReadsStream(buf + chunks[0], chunks[1..]);
    } else {
      NoLineReads(buf, chunks);
    }
  }

  lemma LineReads(buf: bytes, chunks: seq<bytes>)
    requires FindLf(buf) < |buf|
    requires Transparent(TextOf(buf[..FindLf(buf)])) ==>
               Reads(Await(buf[FindLf(buf) + 1..], chunks), buf[FindLf(buf) + 1..] + Concat(chunks))
    ensures Reads(Await(buf, chunks), buf + Concat(chunks))
  {
    hide *;
    var s, i := buf + Concat(chunks), FindLf(buf);
    FindLfIn(buf, Concat(chunks));
    var t := buf[i + 1..] + Concat(chunks);
    var text := TextOf(buf[..i]);
    assert s[..i] == buf[..i] && s[i + 1..] == t;
    AwaitLine(buf, chunks);
    FirstLine(s);
    if Transparent(text) {
      SkippedReads(Await(buf[i + 1..], chunks), s, t, text);
    } else {
      FoundReads(Await(buf, chunks), s, t, text);
    }
  }

  lemma SkippedReads(later: Receipt, s: bytes, t: bytes, text: string)
    requires Reads(later, t) && First(s) == First(t).(answers := Answers(text) + First(t).answers)
    requires Short(s) ==> Short(t)
    ensures Reads(later.(answers := Answers(text) + later.answers), s)
  {
    hide First, Short, Answers, Concat;
  }

  lemma FoundReads(a: Receipt, s: bytes, t: bytes, text: string)
    requires a.outcome == Line(text) && a.buf + Concat(a.unread) == t && a.answers == []
    requires First(s) == Reading(Some(text), t, [])
    ensures Reads(a, s)
  {
    hide First, Short, Concat;
  }

  lemma AwaitLine(buf: bytes, chunks: seq<bytes>)
    requires FindLf(buf) < |buf|
    ensures var i := FindLf(buf);
            var text, later := TextOf(buf[..i]), Await(buf[i + 1..], chunks);
            Await(buf, chunks) == if Transparent(text) then later.(answers := Answers(text) + later.answers)
                                  else Receipt(Line(text), buf[i + 1..], chunks, [])
  {
    hide TextOf, Transparent, Answers;
  }

  lemma FirstLine(s: bytes)
    requires FindLf(s) < |s|
    ensures var i := FindLf(s);
            var text, later := TextOf(s[..i]), First(s[i + 1..]);
            First(s) == if Transparent(text) then later.(answers := Answers(text) + later.answers)
                        else Reading(Some(text), s[i + 1..], [])
    ensures var i := FindLf(s); Short(s) <==> i <= MAX_LINE_LEN && (Transparent(TextOf(s[..i])) ==> Short(s[i + 1..]))
  {
    hide TextOf, Transparent, Answers;
  }

  lemma NoLineReads(buf: bytes, chunks: seq<bytes>)
    requires FindLf(buf) == |buf| && (|buf| > MAX_LINE_LEN || chunks == [])
    ensures Reads(Await(buf, chunks), buf + Concat(chunks))
  {
    hide TextOf, Transparent, Answers;
    FindLfIn(buf, Concat(chunks));
    assert chunks == [] ==> buf + Concat(chunks) == buf;
  }

  /** Framing independence for lines: two ways of cutting one stream give the same line, the same answers, and leave the
      same bytes. */
  lemma SplitsAgree(buf: bytes, chunks: seq<bytes>, buf2: bytes, chunks2: seq<bytes>)
    requires buf + Concat(chunks) == buf2 + Concat(chunks2) && Short(buf + Concat(chunks))
    ensures var a, b := Await(buf, chunks), Await(buf2, chunks2);
            && !a.outcome.TooLong? && a.outcome == b.outcome && a.answers == b.answers
            && a.buf + Concat(a.unread) == b.buf + Concat(b.unread)
  {
    AwaitReadsStream(buf, chunks);
    AwaitReadsStream(buf2, chunks2);
    hide Short, First, Concat, Await;
    assert Await(buf, chunks).outcome.Line? <==> First(buf + Concat(chunks)).line.Some?;
    assert Await(buf2, chunks2).outcome.Line? <==> First(buf + Concat(chunks)).line.Some?;
  }

  // ---- lines that are too long ---------------------------------------------------------------

  /** What a call brings, with the buffer and the bytes still to come taken together. */
  datatype Result = Result(outcome: Outcome, left: bytes, answers: seq<string>)

  function ResultOf(a: Receipt): Result {
    Result(a.outcome, a.buf + Concat(a.unread), a.answers)
  }

  /** A way of cutting a stream into reads of the size that `recv_line` asks for. */
  ghost predicate Cut(chunks: seq<bytes>, s: bytes) {
    Concat(chunks) == s && forall c :: c in chunks ==> |c| <= READ_SIZE
  }

  /** Reading with every line held to the limit. */
  function Strict(s: bytes): Result
    decreases |s|
  {
    var i := FindLf(s);
    if i > MAX_LINE_LEN then Result(TooLong, s, [])
    else if i == |s| then Result(TimedOut, s, [])
    else
      var text, rest := TextOf(s[..i]), s[i + 1..];
      if !Transparent(text) then Result(Line(text), rest, [])
      else
        var later := Strict(rest);
        later.(answers := Answers(text) + later.answers)
  }

  /** The first line that is too long ends within one read behind the limit. */
  predicate Fickle(s: bytes)
    decreases |s|
  {
    var i := FindLf(s);
    i < |s| && if i > MAX_LINE_LEN then i < MAX_LINE_LEN + READ_SIZE
               else Transparent(TextOf(s[..i])) && Fickle(s[i + 1..])
  }

  lemma {:induction false} StrictRefusesUnlessShort(s: bytes)
    ensures Strict(s).outcome.TooLong? <==> !Short(s)
    decreases |s|
  {
    hide TextOf, Transparent, Answers;
    var i := FindLf(s);
    if i <= MAX_LINE_LEN && i < |s| && Transparent(TextOf(s[..i])) {
      StrictRefusesUnlessShort(s[i + 1..]);
    }
  }

  lemma StrictLine(s: bytes)
    requires FindLf(s) < |s| && FindLf(s) <= MAX_LINE_LEN
    ensures var i := FindLf(s);
            var text, later := TextOf(s[..i]), Strict(s[i + 1..]);
            Strict(s) == if Transparent(text) then later.(answers := Answers(text) + later.answers)
                         else Result(Line(text), s[i + 1..], [])
  {
    hide TextOf, Transparent, Answers;
  }

  lemma ResultSkips(later: Receipt, more: seq<string>)
    ensures ResultOf(later.(answers := more + later.answers)) ==
            ResultOf(later).(answers := more + ResultOf(later).answers)
  {
  }

  lemma ResultFound(text: string, rest: bytes, chunks: seq<bytes>)
    ensures ResultOf(Receipt(Line(text), rest, chunks, [])) == Result(Line(text), rest + Concat(chunks), [])
  {
  }

  /** A whole line in the buffer is read alike in both ways. */
  lemma LineIsStrict(buf: bytes, chunks: seq<bytes>)
    requires FindLf(buf) < |buf| && FindLf(buf) <= MAX_LINE_LEN
    requires var i := FindLf(buf);
             Transparent(TextOf(buf[..i])) ==>
               ResultOf(Await(buf[i + 1..], chunks)) == Strict(buf[i + 1..] + Concat(chunks))
    ensures ResultOf(Await(buf, chunks)) == Strict(buf + Concat(chunks))
  {
    hide *;
    var s, i := buf + Concat(chunks), FindLf(buf);
    FindLfIn(buf, Concat(chunks));
    var text, rest, t := TextOf(buf[..i]), buf[i + 1..], buf[i + 1..] + Concat(chunks);
    assert s[..i] == buf[..i] && s[i + 1..] == t;
    AwaitLine(buf, chunks);
    StrictLine(s);
    ResultSkips(Await(rest, chunks), Answers(text));
    ResultFound(text, rest, chunks);
  }

  /** Without a line in the buffer, a full buffer is refused and an empty transport is a timeout, alike in both ways. */
  lemma NoLineIsStrict(buf: bytes, chunks: seq<bytes>)
    requires FindLf(buf) == |buf| && (|buf| > MAX_LINE_LEN || chunks == [])
    ensures ResultOf(Await(buf, chunks)) == Strict(buf + Concat(chunks))
  {
    hide TextOf, Transparent, Answers;
    FindLfIn(buf, Concat(chunks));
    assert chunks == [] ==> buf + Concat(chunks) == buf;
  }

  /** The first line of a stream that is not fickle. */
  lemma SteadyLine(s: bytes)
    requires !Fickle(s) && FindLf(s) < |s| && FindLf(s) < MAX_LINE_LEN + READ_SIZE
    ensures var i := FindLf(s);
            i <= MAX_LINE_LEN && (Transparent(TextOf(s[..i])) ==> !Fickle(s[i + 1..]))
  {
    hide TextOf, Transparent, FindLf;
  }

  /** A stream that is not fickle is read alike however it is cut; the buffer may hold what an earlier read left. */
  lemma {:induction false} SteadyIsStrict(buf: bytes, chunks: seq<bytes>)
    requires |buf| <= MAX_LINE_LEN + READ_SIZE && forall c :: c in chunks ==> |c| <= READ_SIZE
    requires !Fickle(buf + Concat(chunks))
    ensures ResultOf(Await(buf, chunks)) == Strict(buf + Concat(chunks))
    decreases |chunks|, |buf|
  {
    hide TextOf, Transparent, Answers, Strict, ResultOf, Fickle, FindLf;
    var s, i := buf + Concat(chunks), FindLf(buf);
    FindLfIn(buf, Concat(chunks));
    if i < |buf| {
      SteadyLine(s);
      assert s[..i] == buf[..i] && s[i + 1..] == buf[i + 1..] + Concat(chunks);
      if Transparent(TextOf(buf[..i])) {
        SteadyIsStrict(buf[i + 1..], chunks);
      }
      LineIsStrict(buf, chunks);
    } else if |buf| <= MAX_LINE_LEN && chunks != [] {
      assert s == (buf + chunks[0]) + Concat(chunks[1..]);
      SteadyIsStrict(buf + chunks[0], chunks[1..]);
    } else {
      NoLineIsStrict(buf, chunks);
    }
  }

  // ---- the cuts that make the difference ---------------------------------------------------

  function Singles(s: bytes): seq<bytes> {
    if s == [] then [] else [[s[0]]] + Singles(s[1..])
  }

  lemma {:induction false} SinglesCut(s: bytes)
    ensures Cut(Singles(s), s)
  {
    if s != [] {
      SinglesCut(s[1..]);
      ConcatOf([s[0]], Singles(s[1..]));
    }
  }

  lemma ReadsOn(buf: bytes, c: bytes, rest: seq<bytes>)
    requires FindLf(buf) == |buf| <= MAX_LINE_LEN
    ensures Await(buf, [c] + rest) == Await(buf + c, rest)
  {
    assert ([c] + rest)[1..] == rest;
  }

  lemma ConcatOf(c: bytes, rest: seq<bytes>)
    ensures Concat([c] + rest) == c + Concat(rest)
  {
    assert ([c] + rest)[1..] == rest;
  }

  /** Cut into single bytes, every stream is read with every line held to the limit. */
  lemma {:induction false} BytewiseIsStrict(buf: bytes, s: bytes)
    requires FindLf(buf) == |buf|
    ensures ResultOf(Await(buf, Singles(s))) == Strict(buf + s)
    decreases |s|, 1
  {
    hide TextOf, Transparent, Answers, Strict, ResultOf, Await;
    SinglesCut(s);
    if |buf| > MAX_LINE_LEN || s == [] {
      NoLineIsStrict(buf, Singles(s));
    } else {
      var c := [s[0]];
      assert Singles(s) == [c] + Singles(s[1..]) && buf + s == (buf + c) + s[1..];
      ReadsOn(buf, c, Singles(s[1..]));
      FindLfIn(buf, c);
      hide Singles;
      if s[0] == LF {
        BytewiseLine(buf, s);
      } else {
        assert FindLf(c) == 1;
        BytewiseIsStrict(buf + c, s[1..]);
      }
    }
  }

  lemma BytewiseLine(buf: bytes, s: bytes)
    requires FindLf(buf) == |buf| <= MAX_LINE_LEN && s != [] && s[0] == LF
    ensures ResultOf(Await(buf + [LF], Singles(s[1..]))) == Strict(buf + [LF] + s[1..])
    decreases |s|, 0
  {
    hide TextOf, Transparent, Answers, Strict, ResultOf, Await, Singles;
    var line := buf + [LF];
    FindLfIn(buf, [LF]);
    SinglesCut(s[1..]);
    assert line[|buf| + 1..] == [] && [] + s[1..] == s[1..];
    BytewiseIsStrict([], s[1..]);
    LineIsStrict(line, Singles(s[1..]));
  }

  /** Byte by byte, but once `held` bytes of a line fill the limit and it ends within one read, that read at once. */
  function Generous(s: bytes, held: nat): seq<bytes>
    decreases |s|
  {
    if s == [] then []
    else if held == MAX_LINE_LEN && FindLf(s) < READ_SIZE && FindLf(s) < |s| then
      [s[..FindLf(s) + 1]] + Generous(s[FindLf(s) + 1..], 0)
    else [[s[0]]] + Generous(s[1..], if s[0] == LF then 0 else held + 1)
  }

  lemma {:induction false} GenerousCut(s: bytes, held: nat)
    ensures Cut(Generous(s, held), s)
    decreases |s|
  {
    hide Concat;
    if s == [] {
      SinglesCut([]);
    } else if held == MAX_LINE_LEN && FindLf(s) < READ_SIZE && FindLf(s) < |s| {
      var n := FindLf(s) + 1;
      GenerousCut(s[n..], 0);
      ConcatOf(s[..n], Generous(s[n..], 0));
    } else {
      var more := if s[0] == LF then 0 else held + 1;
      GenerousCut(s[1..], more);
      ConcatOf([s[0]], Generous(s[1..], more));
    }
  }

  /** A line in the buffer leaves at most what follows it. */
  lemma {:induction false} AwaitShortens(buf: bytes, chunks: seq<bytes>)
    ensures |ResultOf(Await(buf, chunks)).left| <= |buf| + |Concat(chunks)|
    decreases |chunks|, |buf|
  {
    hide TextOf, Transparent, Answers;
    var i := FindLf(buf);
    if i < |buf| {
      AwaitLine(buf, chunks);
      if Transparent(TextOf(buf[..i])) {
        AwaitShortens(buf[i + 1..], chunks);
      }
    } else if |buf| <= MAX_LINE_LEN && chunks != [] {
      AwaitShortens(buf + chunks[0], chunks[1..]);
    }
  }

  /** The line that ends with the first line feed, as a buffer. */
  lemma LineInBuffer(s: bytes)
    requires FindLf(s) < |s|
    ensures var i := FindLf(s);
            FindLf(s[..i + 1]) == i && s[..i + 1][..i] == s[..i] && s[..i + 1][i + 1..] == []
  {
    hide *;
    var i := FindLf(s);
    NoLfBefore(s);
    OneMoreTaken(s, i);
    EndsWithLf(s[..i]);
  }

  lemma NoLfBefore(s: bytes)
    requires FindLf(s) < |s|
    ensures var i := FindLf(s); FindLf(s[..i]) == |s[..i]| && s[i] == LF
  {
    hide FindLf;
    NoLfFound(s[..FindLf(s)]);
  }

  lemma OneMoreTaken(s: bytes, n: nat)
    requires n < |s|
    ensures s[..n + 1] == s[..n] + [s[n]]
  {
  }

  lemma EndsWithLf(head: bytes)
    requires FindLf(head) == |head|
    ensures var line := head + [LF];
            FindLf(line) == |head| && line[..|head|] == head && line[|head| + 1..] == []
  {
    FindLfIn(head, [LF]);
    EndsAtOnce();
  }

  lemma EndsAtOnce()
    ensures FindLf([LF]) == 0 && FindLf([]) == 0
  {
  }

  /** One more step of the generous cut. */
  lemma GenerousStep(buf: bytes, s: bytes)
    requires FindLf(buf) == |buf| <= MAX_LINE_LEN && s != []
    ensures var n := if |buf| == MAX_LINE_LEN && FindLf(s) < READ_SIZE && FindLf(s) < |s| then FindLf(s) + 1 else 1;
            && n <= |s| && buf + s == (buf + s[..n]) + s[n..]
            && Await(buf, Generous(s, |buf|)) ==
               Await(buf + s[..n], Generous(s[n..], if s[n - 1] == LF then 0 else |buf| + 1))
  {
    hide Await;
    if |buf| == MAX_LINE_LEN && FindLf(s) < READ_SIZE && FindLf(s) < |s| {
      var n := FindLf(s) + 1;
      ReadsOn(buf, s[..n], Generous(s[n..], 0));
    } else {
      var more := if s[0] == LF then 0 else |buf| + 1;
      assert [s[0]] == s[..1];
      ReadsOn(buf, [s[0]], Generous(s[1..], more));
    }
  }

  /** So cut, a line that is too long, but not by more than one read, comes into the buffer whole. */
  lemma {:induction false} OverlongPasses(buf: bytes, s: bytes)
    requires FindLf(buf) == |buf| <= MAX_LINE_LEN
    requires var i := FindLf(buf + s); MAX_LINE_LEN < i < |buf + s| && i < MAX_LINE_LEN + READ_SIZE
    ensures var t, i := buf + s, FindLf(buf + s);
            Await(buf, Generous(s, |buf|)) == Await(t[..i + 1], Generous(t[i + 1..], 0))
    decreases |s|
  {
    hide Await, Generous, FindLf;
    var t, i := buf + s, FindLf(buf + s);
    FindLfIn(buf, s);
    GenerousStep(buf, s);
    if |buf| == MAX_LINE_LEN {
      var n := FindLf(s) + 1;
      assert t[..i + 1] == buf + s[..n] && t[i + 1..] == s[n..];
    } else {
      assert s[..1] == [s[0]] && t[..i][|buf|] == s[0];
      FindLfIn(buf, s[..1]);
      NoLfFound([s[0]]);
      OverlongPasses(buf + s[..1], s[1..]);
    }
  }

  lemma OverlongLeavesLess(line: bytes, rest: bytes)
    requires FindLf(line) == |line| - 1
    ensures |ResultOf(Await(line, Generous(rest, 0))).left| < |line + rest|
  {
    hide *;
    var i, chunks := FindLf(line), Generous(rest, 0);
    GenerousCut(rest, 0);
    CutAddsUp(chunks, rest);
    AwaitLine(line, chunks);
    assert line[i + 1..] == [];
    AwaitShortens([], chunks);
    ResultSkips(Await([], chunks), Answers(TextOf(line[..i])));
    ResultFound(TextOf(line[..i]), [], chunks);
  }

  lemma CutAddsUp(chunks: seq<bytes>, s: bytes)
    requires Cut(chunks, s)
    ensures Concat(chunks) == s
  {
  }

  lemma OverlongGoesOn(buf: bytes, s: bytes)
    requires FindLf(buf) == |buf| <= MAX_LINE_LEN
    requires var i := FindLf(buf + s); MAX_LINE_LEN < i < |buf + s| && i < MAX_LINE_LEN + READ_SIZE
    ensures |ResultOf(Await(buf, Generous(s, |buf|))).left| < |buf + s|
  {
    hide *;
    var t := buf + s;
    var i := FindLf(t);
    OverlongPasses(buf, s);
    LineInBuffer(t);
    OverlongLeavesLess(t[..i + 1], t[i + 1..]);
  }

  /** The generous cut of a fickle stream goes further than the limit allows. */
  lemma {:induction false} GenerousGoesOn(buf: bytes, s: bytes)
    requires FindLf(buf) == |buf| <= MAX_LINE_LEN && Fickle(buf + s)
    ensures |ResultOf(Await(buf, Generous(s, |buf|))).left| < |Strict(buf + s).left|
    decreases |s|, 1
  {
    hide Await, Generous, FindLf, Strict, Fickle, TextOf, Transparent, Answers, ResultOf;
    var i := FindLf(buf + s);
    FickleLine(buf + s);
    FindLfIn(buf, s);
    if i > MAX_LINE_LEN {
      OverlongGoesOn(buf, s);
    } else {
      GenerousStep(buf, s);
      if s[0] == LF {
        GenerousAfterLine(buf, s);
      } else {
        FindLfIn(buf, s[..1]);
        NoLfFound(s[..1]);
        GenerousGoesOn(buf + s[..1], s[1..]);
      }
    }
  }

  lemma GenerousAfterLine(buf: bytes, s: bytes)
    requires FindLf(buf) == |buf| <= MAX_LINE_LEN && s != [] && s[0] == LF && Fickle(buf + s)
    ensures |ResultOf(Await(buf + s[..1], Generous(s[1..], 0))).left| < |Strict(buf + s).left|
    decreases |s|, 0
  {
    hide *;
    var t, line, rest := buf + s, buf + [LF], s[1..];
    StartsAfterLine(buf, s);
    EndsWithLf(buf);
    FickleLine(t);
    StrictLine(t);
    AwaitLine(line, Generous(rest, 0));
    ResultSkips(Await([], Generous(rest, 0)), Answers(TextOf(buf)));
    EndsAtOnce();
    assert [] + rest == rest;
    GenerousGoesOn([], rest);
  }

  lemma StartsAfterLine(buf: bytes, s: bytes)
    requires FindLf(buf) == |buf| && s != [] && s[0] == LF
    ensures var t := buf + s;
            FindLf(t) == |buf| && t[..|buf|] == buf && t[|buf| + 1..] == s[1..] && buf + s[..1] == buf + [LF]
  {
    FindsFirst(s);
    hide FindLf;
    FindLfIn(buf, s);
    PastTheFirst(buf, s);
    assert s[..1] == [LF];
  }

  lemma FindsFirst(s: bytes)
    requires s != [] && s[0] == LF
    ensures FindLf(s) == 0
  {
  }

  lemma PastTheFirst(buf: bytes, s: bytes)
    requires s != []
    ensures (buf + s)[..|buf|] == buf && (buf + s)[|buf| + 1..] == s[1..]
  {
  }

  /** What a fickle stream begins with. */
  lemma FickleLine(s: bytes)
    requires Fickle(s)
    ensures var i := FindLf(s);
            && i < |s|
            && (if i > MAX_LINE_LEN then i < MAX_LINE_LEN + READ_SIZE && Strict(s).left == s
                else Transparent(TextOf(s[..i])) && Fickle(s[i + 1..]))
  {
    hide TextOf, Transparent, Answers;
  }

  /** Whether the cut matters: two ways of cutting a stream into reads of at most 64 bytes can differ in what they bring
      exactly when the line feed of the first line that is too long stands at 513 to 575. */
  lemma CutMattersIffFickle(s: bytes)
    ensures Fickle(s) <==>
            exists a, b :: Cut(a, s) && Cut(b, s) && ResultOf(Await([], a)) != ResultOf(Await([], b))
  {
    hide Await, Strict, ResultOf, Concat, Fickle, FindLf;
    assert FindLf([]) == 0 by {
      NoLfFound([]);
    }
    if Fickle(s) {
      assert [] + s == s;
      GenerousCut(s, 0);
      GenerousGoesOn([], s);
      SinglesCut(s);
      BytewiseIsStrict([], s);
      assert ResultOf(Await([], Generous(s, 0))) != ResultOf(Await([], Singles(s)));
    } else {
      forall a, b | Cut(a, s) && Cut(b, s)
        ensures ResultOf(Await([], a)) == ResultOf(Await([], b))
      {
        assert [] + Concat(a) == s && [] + Concat(b) == s;
        SteadyIsStrict([], a);
        SteadyIsStrict([], b);
      }
    }
  }

  /** Exactly the short streams are never refused. */
  lemma ShortIffNeverRefused(s: bytes)
    ensures Short(s) <==> forall chunks :: Cut(chunks, s) ==> !Await([], chunks).outcome.TooLong?
  {
    hide Short, Await, Concat, Strict, FindLf;
    assert FindLf([]) == 0 by {
      NoLfFound([]);
    }
    forall chunks | Short(s) && Cut(chunks, s)
      ensures !Await([], chunks).outcome.TooLong?
    {
      AwaitReadsStream([], chunks);
      assert [] + Concat(chunks) == s;
    }
    if !Short(s) {
      SinglesCut(s);
      assert [] + s == s;
      BytewiseIsStrict([], s);
      StrictRefusesUnlessShort(s);
    }
  }

  /** A stream that is neither short nor fickle is refused however it is cut. */
  lemma RefusedHoweverCut(s: bytes)
    ensures !Short(s) && !Fickle(s) ==> forall chunks :: Cut(chunks, s) ==> Await([], chunks).outcome.TooLong?
    ensures Short(s) ==> !Fickle(s)
  {
    hide Short, Await, Concat, Strict, FindLf, Fickle;
    StrictRefusesUnlessShort(s);
    forall chunks | !Short(s) && !Fickle(s) && Cut(chunks, s)
      ensures Await([], chunks).outcome.TooLong?
    {
      assert [] + Concat(chunks) == s;
      SteadyIsStrict([], chunks);
    }
    ShortIsNotFickle(s);
  }

  lemma {:induction false} ShortIsNotFickle(s: bytes)
    ensures Short(s) ==> !Fickle(s)
    decreases |s|
  {
    hide TextOf, Transparent;
    var i := FindLf(s);
    if i < |s| && i <= MAX_LINE_LEN && Transparent(TextOf(s[..i])) {
      ShortIsNotFickle(s[i + 1..]);
    }
  }

  // ---- after a refusal ---------------------------------------------------------------------------

  lemma {:induction false} RefusalFillsBuffer(buf: bytes, chunks: seq<bytes>)
    ensures var a := Await(buf, chunks);
            a.outcome.TooLong? ==> FindLf(a.buf) == |a.buf| > MAX_LINE_LEN
    decreases |chunks|, |buf|
  {
    hide TextOf, Transparent, Answers, FindLf;
    var i := FindLf(buf);
    if i < |buf| {
      AwaitLine(buf, chunks);
      RefusalFillsBuffer(buf[i + 1..], chunks);
    } else if |buf| <= MAX_LINE_LEN && chunks != [] {
      RefusalFillsBuffer(buf + chunks[0], chunks[1..]);
    }
  }

  /** A refusal repeats itself: the line that was too long stays in the buffer, so the next call is refused at once,
      whatever has come since, without reading any of it, and leaves the buffer as it was for the call after that. Only
      discarding the input helps. */
  lemma RefusalRepeats(buf: bytes, chunks: seq<bytes>, later: seq<bytes>)
    requires Await(buf, chunks).outcome.TooLong?
    ensures var full := Await(buf, chunks).buf; Await(full, later) == Receipt(TooLong, full, later, [])
  {
    RefusalFillsBuffer(buf, chunks);
    hide FindLf;
  }

  // ---- round trip ---------------------------------------------------------------------------

  /** Text that survives: ASCII, without a line feed, and without a NUL or carriage return that stripping would take. */
  predicate IsPlain(line: string) {
    && (forall i :: 0 <= i < |line| ==> line[i] < 128 as char && line[i] != '\n')
    && (line != "" ==> line[0] != '\0' && line[0] != '\r' && line[|line| - 1] != '\r')
  }

  function Encoded(line: string): bytes
    requires IsPlain(line)
  {
    seq(|line|, i requires 0 <= i < |line| => line[i] as int)
  }

  lemma {:induction false} NoLfFound(s: bytes)
    requires LF !in s
    ensures FindLf(s) == |s|
  {
    if s != [] {
      NoLfFound(s[1..]);
    }
  }

  lemma TextComesBack(line: string)
    requires IsPlain(line)
    ensures TextOf(Encoded(line)) == line && FindLf(Encoded(line)) == |Encoded(line)| == |line|
  {
    var s := Encoded(line);
    forall i | 0 <= i < |s|
      ensures s[i] != LF && Letter(s[i]) == line[i]
    {
    }
    NoLfFound(s);
    assert s != [] ==> s[0] != 0;
    assert Letters(s) == line;
  }

  lemma {:induction false} NulsAreDropped(nuls: bytes, s: bytes)
    requires (forall i :: 0 <= i < |nuls| ==> nuls[i] == 0) && (s == [] || s[0] != 0)
    ensures DropNuls(nuls + s) == s
  {
    if nuls == [] {
      assert [] + s == s;
    } else {
      assert (nuls + s)[1..] == nuls[1..] + s;
      NulsAreDropped(nuls[1..], s);
    }
  }

  lemma {:induction false} ReturnsAreStripped(line: string, ends: string)
    requires (forall i :: 0 <= i < |ends| ==> ends[i] == '\r') && (line == "" || line[|line| - 1] != '\r')
    ensures StripRight(line + ends) == line
    decreases |ends|
  {
    if ends == [] {
      assert line + [] == line;
    } else {
      var n := |ends| - 1;
      ReturnsAreStripped(line, ends[..n]);
      assert (line + ends)[..|line| + n] == line + ends[..n];
    }
  }

  /** Stray NULs before a line and carriage returns behind it are dropped. */
  lemma StrayBytesAreDropped(line: string, nuls: bytes, ends: bytes)
    requires IsPlain(line) && line != ""
    requires (forall i :: 0 <= i < |nuls| ==> nuls[i] == 0) && (forall i :: 0 <= i < |ends| ==> ends[i] == 13)
    ensures TextOf(nuls + Encoded(line) + ends) == line
  {
    var s := Encoded(line) + ends;
    assert nuls + Encoded(line) + ends == nuls + s;
    NulsAreDropped(nuls, s);
    assert Letters(s) == line + Letters(ends);
    ReturnsAreStripped(line, Letters(ends));
    assert Letters(s)[0] == line[0];
    hide DropNuls, StripRight;
  }

  /** The frame that `send_line_and_raw` writes. */
  function Sent(line: string, payload: bytes): bytes
    requires IsPlain(line)
  {
    Encoded(line) + [LF] + payload
  }

  lemma SentReads(line: string, payload: bytes, tail: bytes)
    requires IsPlain(line) && !Transparent(line)
    ensures First(Sent(line, payload) + tail) == Reading(Some(line), payload + tail, [])
    ensures |line| <= MAX_LINE_LEN ==> Short(Sent(line, payload) + tail)
  {
    var s, head := Sent(line, payload) + tail, Encoded(line);
    TextComesBack(line);
    hide TextOf, Transparent, Encoded;
    assert s == head + ([LF] + payload + tail);
    FindLfIn(head, [LF] + payload + tail);
    assert FindLf([LF] + payload + tail) == 0;
    assert s[..|head|] == head && s[|head| + 1..] == payload + tail;
  }

  lemma {:induction false} ExactReadsStream(buf: bytes, chunks: seq<bytes>, size: nat)
    ensures var (p, left, unread) := Exact(buf, chunks, size);
            var s := buf + Concat(chunks);
            && (p.Some? <==> size <= |s|)
            && (p.Some? ==> p.value == s[..size] && left + Concat(unread) == s[size..])
            && (p.None? ==> left + Concat(unread) == s)
    decreases |chunks|
  {
    var s := buf + Concat(chunks);
    if |buf| >= size {
      assert s[..size] == buf[..size] && s[size..] == buf[size..] + Concat(chunks);
    } else if chunks != [] {
      assert s == (buf + chunks[0]) + Concat(chunks[1..]);
      ExactReadsStream(buf + chunks[0], chunks[1..], size);
    }
  }

  /** A header and its payload come back as they were sent, line feeds in the payload included, however the transport
      cuts them up and whatever follows. */
  lemma FrameComesBack(line: string, payload: bytes, tail: bytes, buf: bytes, chunks: seq<bytes>)
    requires IsPlain(line) && |line| <= MAX_LINE_LEN && !Transparent(line)
    requires buf + Concat(chunks) == Sent(line, payload) + tail
    ensures var a := Await(buf, chunks);
            && a.outcome == Line(line) && a.answers == []
            && var (p, left, unread) := Exact(a.buf, a.unread, |payload|);
               p == Some(payload) && left + Concat(unread) == tail
  {
    SentReads(line, payload, tail);
    AwaitReadsStream(buf, chunks);
    hide Short, First, Concat, Await, Exact, Transparent, IsPlain, Sent;
    var a := Await(buf, chunks);
    ExactReadsStream(a.buf, a.unread, |payload|);
    assert (payload + tail)[..|payload|] == payload && (payload + tail)[|payload|..] == tail;
  }

  /** PINGs with these ids, one after the other. */
  function Pings(ids: seq<nat>): bytes {
    if ids == [] then []
    else
      PingIsPlain(ids[0]);
      Sent("PING " + Decimal(ids[0]), []) + Pings(ids[1..])
  }

  function Pongs(ids: seq<nat>): seq<string> {
    if ids == [] then [] else ["PONG " + Decimal(ids[0])] + Pongs(ids[1..])
  }

  lemma PingIsPlain(n: nat)
    ensures IsPlain("PING " + Decimal(n))
  {
    DecimalReadsBack(n);
    hide Decimal, Number;
  }

  lemma PingIsKeptBack(n: nat)
    ensures Transparent("PING " + Decimal(n)) && Answers("PING " + Decimal(n)) == ["PONG " + Decimal(n)]
  {
    DecimalReadsBack(n);
    hide Words, Decimal, Number;
    WordsOfJoined(["PING", Decimal(n)]);
    assert Joined(["PING", Decimal(n)]) == "PING " + Decimal(n);
  }

  /** Every PING is answered with the PONG of the same id, once and in order, and the caller sees none of them. */
  lemma {:induction false} PingsAreAnswered(ids: seq<nat>, line: string, payload: bytes, tail: bytes)
    requires IsPlain(line) && !Transparent(line)
    ensures First(Pings(ids) + (Sent(line, payload) + tail)) == Reading(Some(line), payload + tail, Pongs(ids))
    decreases |ids|
  {
    hide Transparent, Answers, IsPlain, First, Sent, Decimal;
    var s := Sent(line, payload) + tail;
    if ids == [] {
      assert [] + s == s;
      SentReads(line, payload, tail);
    } else {
      PingsAreAnswered(ids[1..], line, payload, tail);
      PingIsPlain(ids[0]);
      PingIsKeptBack(ids[0]);
      PingsFirst(ids, s);
      LineSkips("PING " + Decimal(ids[0]), Pings(ids[1..]) + s);
      hide *;
    }
  }

  lemma PingsFirst(ids: seq<nat>, s: bytes)
    requires ids != [] && IsPlain("PING " + Decimal(ids[0]))
    ensures Pings(ids) + s == Encoded("PING " + Decimal(ids[0])) + ([LF] + (Pings(ids[1..]) + s))
  {
    hide Encoded, IsPlain, Decimal;
    var ping := "PING " + Decimal(ids[0]);
    assert Pings(ids) == Encoded(ping) + [LF] + [] + Pings(ids[1..]);
  }

  lemma LineSkips(line: string, rest: bytes)
    requires IsPlain(line) && Transparent(line)
    ensures var later := First(rest);
            First(Encoded(line) + ([LF] + rest)) == later.(answers := Answers(line) + later.answers)
  {
    hide TextOf, Transparent, Answers, Encoded;
    TextComesBack(line);
    var head, s := Encoded(line), Encoded(line) + ([LF] + rest);
    FindLfIn(head, [LF] + rest);
    assert FindLf([LF] + rest) == 0;
    assert s[..|head|] == head && s[|head| + 1..] == rest;
  }

  // ---- a line that is too long ----------------------------------------------------------------

  /** A line of 513 bytes is read when its last byte comes in one read with the line feed, and refused when they come
      one by one. */
  lemma LongLineDependsOnSplit()
    ensures var s := seq(513, _ => 65 as byte) + [LF];
            && Cut(Generous(s, 0), s) && Await([], Generous(s, 0)).outcome == Line(seq(513, _ => 'A'))
            && Cut(Singles(s), s) && Await([], Singles(s)).outcome == TooLong
  {
    LongLineSplits(seq(513, _ => 65));
  }

  lemma LongLineSplits(line: bytes)
    requires |line| == 513 && forall i :: 0 <= i < 513 ==> line[i] == 65
    ensures var s := line + [LF];
            && Cut(Generous(s, 0), s) && Await([], Generous(s, 0)).outcome == Line(seq(513, _ => 'A'))
            && Cut(Singles(s), s) && Await([], Singles(s)).outcome == TooLong
  {
    hide Await, TextOf, Transparent, Generous, FindLf, Singles, Cut;
    var s := line + [LF];
    NoLfFound(line);
    EndsWithLf(line);
    EndsAtOnce();
    assert s[..514] == s && s[514..] == [] && [] + s == s;
    OverlongPasses([], s);
    assert Generous([], 0) == [] by {
      NothingGenerous();
    }
    LongTextPasses(line);
    GenerousCut(s, 0);
    SinglesCut(s);
    BytewiseIsStrict([], s);
  }

  lemma NothingGenerous()
    ensures Generous([], 0) == []
  {
  }

  /** A single word is no keep-alive line. */
  lemma OneWordIsRead(w: string)
    requires IsWord(w)
    ensures !Transparent(w)
  {
    WordsOfJoined([w]);
    assert Joined([w]) == w;
  }

  lemma LongTextPasses(line: bytes)
    requires |line| == 513 && forall i :: 0 <= i < 513 ==> line[i] == 65
    ensures Await(line + [LF], []).outcome == Line(seq(513, _ => 'A'))
  {
    var text := seq(513, _ => 'A');
    assert Encoded(text) == line;
    TextComesBack(text);
    OneWordIsRead(text);
    FindLfIn(line, [LF]);
    assert (line + [LF])[..513] == line;
    hide Transparent, TextOf;
    AwaitLine(line + [LF], []);
  }

  // ---- the link as it runs ----------------------------------------------------------------------

  /** `Link` over a transport that holds `stream` and hands it over in pieces of sizes that no one controls. */
  class Link {
    const stream: bytes
    const sizes: nat -> nat
    var taken: nat
    var calls: nat
    var now: nat
    var buf: bytes
    var written: bytes
    var answered: seq<string>

    // The pieces handed over so far.
    ghost var arrived: seq<bytes>

    constructor (stream: bytes, sizes: nat -> nat)
      ensures Valid() && this.stream == stream && this.sizes == sizes && buf == [] && taken == 0 && arrived == []
    {
      this.stream, this.sizes := stream, sizes;
      taken, calls, now, buf, written, answered, arrived := 0, 0, 0, [], [], [], [];
    }

    ghost predicate Valid()
      reads this`taken
    {
      taken <= |stream|
    }

    /** At most `most` bytes, possibly none. */
    method Read(most: nat) returns (chunk: bytes)
      requires Valid()
      modifies this`taken, this`calls, this`now, this`arrived
      ensures Valid() && now > old(now) && arrived == old(arrived) + [chunk] && |chunk| <= most
      ensures old(taken) <= taken && chunk == stream[old(taken)..taken]
    {
      var n := Min(Min(most, sizes(calls)), |stream| - taken);
      chunk := stream[taken..taken + n];
      taken, calls, now := taken + n, calls + 1, now + 1;
      arrived := arrived + [chunk];
    }

    method SendLineAndRaw(line: string, data: bytes)
      requires IsPlain(line)
      modifies this`written
      ensures written == old(written) + Sent(line, data)
    {
      written := written + (Encoded(line) + [LF] + data);
    }

    /** `recv_line` without keep-alive: the outcome, the buffer left and the answers are those of `Await` on the pieces
        that came before the deadline. */
    method RecvLine(timeout: nat) returns (outcome: Outcome)
      requires Valid()
      modifies this`taken, this`calls, this`now, this`arrived, this`buf, this`answered
      ensures Valid() && old(taken) <= taken
      ensures old(arrived) <= arrived && Cut(arrived[|old(arrived)|..], stream[old(taken)..taken])
      ensures var a := Await(old(buf), arrived[|old(arrived)|..]);
              outcome == a.outcome && buf == a.buf && a.unread == [] && answered == old(answered) + a.answers
      ensures outcome.TimedOut? ==> now >= old(now) + timeout
    {
      var deadline := now + timeout;
      ghost var got: seq<bytes> := [];
      ghost var said: seq<string> := [];
      NothingYet(buf);
      hide Await, Concat, Said, TextOf, Transparent, Answers, FindLf, Follows;
      while true
        invariant Valid() && old(taken) <= taken && arrived == old(arrived) + got
        invariant Cut(got, stream[old(taken)..taken])
        invariant answered == old(answered) + said
        invariant Follows(old(buf), got, said, buf)
        decreases Max(0, deadline - now), |buf|
      {
        var i := FindLf(buf);
        if i < |buf| {
          var text := TextOf(buf[..i]);
          ghost var before := buf;
          buf := buf[i + 1..];
          if !Transparent(text) {
            Ends(old(buf), got, said, before);
            return Line(text);
          }
          answered := answered + Answers(text);
          LineSkipped(old(buf), got, said, before);
          said := said + Answers(text);
          continue;
        }
        if |buf| > MAX_LINE_LEN {
          Ends(old(buf), got, said, buf);
          return TooLong;
        }
        if now >= deadline {
          Ends(old(buf), got, said, buf);
          return TimedOut;
        }
        var chunk := Read(READ_SIZE);
        ChunkAdded(old(buf), got, said, buf, chunk);
        ConcatAppend(got, chunk);
        got := got + [chunk];
        buf := buf + chunk;
      }
    }

    /** `recv_exact`: the payload, or nothing taken out of the buffer if too little came in time. */
    method RecvExact(size: nat, timeout: nat) returns (payload: Option<bytes>)
      requires Valid()
      modifies this`taken, this`calls, this`now, this`arrived, this`buf
      ensures Valid() && old(taken) <= taken
      ensures var s := old(buf) + stream[old(taken)..taken];
              && (payload.Some? <==> size <= |s|)
              && (payload.Some? ==> payload.value + buf == s && |payload.value| == size)
              && (payload.None? ==> buf == s && now >= old(now) + timeout)
              && (payload.Some? && |old(buf)| <= size ==> buf == [])
    {
      var deadline := now + timeout;
      while |buf| < size
        invariant Valid() && old(taken) <= taken && buf == old(buf) + stream[old(taken)..taken]
        invariant |old(buf)| <= size ==> |buf| <= size
        decreases Max(0, deadline - now)
      {
        if now >= deadline {
          return None;
        }
        var chunk := Read(Min(size - |buf|, 256));
        buf := buf + chunk;
      }
      payload := Some(buf[..size]);
      buf := buf[size..];
    }

    /** `discard_input`: whatever is buffered or ready is gone. It reads until, and only until, a read brings nothing.
        */
    method DiscardInput()
      requires Valid()
      modifies this`taken, this`calls, this`now, this`arrived, this`buf
      ensures Valid() && buf == [] && old(taken) <= taken
      ensures old(arrived) < arrived && arrived[|arrived| - 1] == []
      ensures forall i :: |old(arrived)| <= i < |arrived| - 1 ==> arrived[i] != []
    {
      buf := [];
      var more := true;
      while more
        invariant Valid() && old(taken) <= taken && buf == [] && old(arrived) <= arrived
        invariant forall i :: |old(arrived)| <= i < |arrived| - 1 ==> arrived[i] != []
        invariant more ==> |arrived| > |old(arrived)| ==> arrived[|arrived| - 1] != []
        invariant !more ==> |arrived| > |old(arrived)| && arrived[|arrived| - 1] == []
        decreases |stream| - taken, more
      {
        var chunk := Read(256);
        more := chunk != [];
      }
    }
  }

  function Said(said: seq<string>, a: Receipt): Receipt {
    a.(answers := said + a.answers)
  }

  /** After the chunks `got` and the answers `said`, reading goes on with `buf`. */
  ghost predicate Follows(start: bytes, got: seq<bytes>, said: seq<string>, buf: bytes) {
    forall later :: Await(start, got + later) == Said(said, Await(buf, later))
  }

  lemma {:induction false} ConcatAppend(chunks: seq<bytes>, c: bytes)
    ensures Concat(chunks + [c]) == Concat(chunks) + c
  {
    if chunks == [] {
      assert chunks + [c] == [c] && [c][1..] == [];
    } else {
      ConcatAppend(chunks[1..], c);
      assert (chunks + [c])[1..] == chunks[1..] + [c];
    }
  }

  /** Where the loop stops, the pieces read are what `Await` needed. */
  lemma Ends(start: bytes, got: seq<bytes>, said: seq<string>, buf: bytes)
    requires Follows(start, got, said, buf)
    requires FindLf(buf) < |buf| ==> !Transparent(TextOf(buf[..FindLf(buf)]))
    ensures var i := FindLf(buf);
            Await(start, got) ==
            if i < |buf| then Receipt(Line(TextOf(buf[..i])), buf[i + 1..], [], said)
            else Receipt(if |buf| > MAX_LINE_LEN then TooLong else TimedOut, buf, [], said)
  {
    hide Await, TextOf, Transparent, Answers, FindLf;
    assert Await(start, got + []) == Said(said, Await(buf, []));
    assert got + [] == got && said + [] == said;
    if FindLf(buf) < |buf| {
      AwaitLine(buf, []);
    } else {
      AwaitNoLine(buf);
    }
  }

  lemma AwaitNoLine(buf: bytes)
    requires FindLf(buf) == |buf|
    ensures Await(buf, []) == Receipt(if |buf| > MAX_LINE_LEN then TooLong else TimedOut, buf, [], [])
  {
  }

  lemma NothingYet(buf: bytes)
    ensures Concat([]) == [] && Follows(buf, [], [], buf)
  {
    hide Await;
    forall later
      ensures Await(buf, [] + later) == Said([], Await(buf, later))
    {
      assert [] + later == later;
      NothingSaid(Await(buf, later));
    }
  }

  lemma NothingSaid(a: Receipt)
    ensures Said([], a) == a
  {
    assert [] + a.answers == a.answers;
  }

  lemma ChunkAdded(start: bytes, got: seq<bytes>, said: seq<string>, buf: bytes, chunk: bytes)
    requires FindLf(buf) == |buf| <= MAX_LINE_LEN
    requires Follows(start, got, said, buf)
    ensures Follows(start, got + [chunk], said, buf + chunk)
  {
    hide Await, FindLf, Said;
    forall later
      ensures Await(start, got + [chunk] + later) == Said(said, Await(buf + chunk, later))
    {
      GotMore(got, chunk, later);
      ReadsOn(buf, chunk, later);
    }
  }

  lemma GotMore(got: seq<bytes>, chunk: bytes, later: seq<bytes>)
    ensures got + [chunk] + later == got + ([chunk] + later)
  {
  }

  lemma LineSkipped(start: bytes, got: seq<bytes>, said: seq<string>, buf: bytes)
    requires FindLf(buf) < |buf| && Transparent(TextOf(buf[..FindLf(buf)]))
    requires Follows(start, got, said, buf)
    ensures Follows(start, got, said + Answers(TextOf(buf[..FindLf(buf)])), buf[FindLf(buf) + 1..])
  {
    hide TextOf, Transparent, Answers, Await, FindLf, Said;
    var i := FindLf(buf);
    var more := Answers(TextOf(buf[..i]));
    forall later
      ensures Await(start, got + later) == Said(said + more, Await(buf[i + 1..], later))
    {
      AwaitLine(buf, later);
      SaidTwice(said, more, Await(buf[i + 1..], later));
    }
  }

  lemma SaidTwice(said: seq<string>, more: seq<string>, a: Receipt)
    ensures Said(said, a.(answers := more + a.answers)) == Said(said + more, a)
  {
    assert said + (more + a.answers) == said + more + a.answers;
  }
}
