/**
  The keep-alive of `recv_line` in src/pcutp/link.py: beacons with receipts, numbered probes, and when it declares the
  link lost. Time is counted in ticks; between two looks at the clock at least one tick passes and at most `slack`.
*/
module KeepAlive {
  import opened Basics

  datatype Settings = Settings(interval: nat, timeout: nat, retries: nat, beaconInterval: nat, slack: nat)
  {
    predicate Valid() {
      interval >= 1 && timeout >= 1 && retries >= 1 && beaconInterval >= 1 && slack >= 1
    }
  }

  /** A complete line as `recv_line` sorts it: the peer's beacon; its receipt, for our beacons or for its own direction;
      a probe and the answers to ours (a HERE counts as one only with id 0 or 1); a beacon or receipt of the wrong
      direction; any other line. */
  datatype Signal =
    | PeerBeacon(bit: nat)
    | Receipt(ours: bool, bit: nat)
    | PingIn(id: nat)
    | PongIn(id: nat)
    | HereIn(id: nat)
    | Foreign
    | Text

  datatype Sent =
    | Beacon(bit: nat, at: nat)
    | Ping(id: nat, at: nat)
    | Ayt(id: nat, at: nat)
    | Pong(id: nat)
    | Mark(bit: nat)
    | AytOk(id: nat)

  datatype End = Line | TxLost | RxLost | TimedOut

  /** The lines in the buffer at one look at the clock, and how long the read after it takes. */
  datatype Poll = Poll(lines: seq<Signal>, gap: nat)

  datatype Watch = Watch(now: nat, lastRx: nat, lastPing: nat, lastBeacon: nat, lastMark: nat, outstanding: Option<nat>,
                         probes: nat, waiting: Option<nat>, markers: nat, pingBit: nat, aytBit: nat, beaconBit: nat,
                         peerBit: nat, sent: seq<Sent>, end: Option<End>)

  /** The four bits that a link keeps from one call to the next. */
  datatype Bits = Bits(ping: nat, ayt: nat, beacon: nat, peer: nat)

  function Start(bits: Bits, now: nat): Watch {
    Watch(now, now, now, now, now, None, 0, None, 0, bits.ping, bits.ayt, bits.beacon, bits.peer, [], None)
  }

  /** Our transmit direction is proved to work. */
  function Confirmed(w: Watch): Watch {
    w.(lastRx := w.now, outstanding := None, waiting := None, lastMark := w.now, markers := 0,
       pingBit := 0, aytBit := 0, beaconBit := 0, lastBeacon := w.now)
  }

  function Hear(w: Watch, y: Signal): Watch {
    match y
    case PeerBeacon(bit) =>
      w.(lastRx := w.now, probes := 0, peerBit := if bit == 0 then 1 else 0, sent := w.sent + [Mark(bit)])
    case Receipt(ours, bit) =>
      var w2 := w.(lastRx := w.now, probes := 0);
      if ours && w.waiting == Some(bit) then
        w2.(waiting := None, lastMark := w.now, markers := 0, outstanding := None)
      else w2
    case PingIn(id) =>
      if w.outstanding == Some(id) then w
      else w.(lastRx := w.now, probes := 0, sent := w.sent + [Pong(id)])
    case PongIn(id) => if w.outstanding == Some(id) then Confirmed(w).(probes := 0) else w
    case HereIn(id) => if w.outstanding == Some(id) then Confirmed(w).(sent := w.sent + [AytOk(id)]) else w
    case Foreign => w
    case Text => w.(end := Some(Line))
  }

  function HearAll(w: Watch, lines: seq<Signal>): Watch
    decreases |lines|
  {
    if lines == [] || w.end.Some? then w else HearAll(Hear(w, lines[0]), lines[1..])
  }

  function Flip(bit: nat): nat {
    if bit == 0 then 1 else 0
  }

  function SendPing(w: Watch): Watch {
    w.(outstanding := Some(w.pingBit), pingBit := Flip(w.pingBit), sent := w.sent + [Ping(w.pingBit, w.now)],
       lastPing := w.now)
  }

  function SendAyt(w: Watch): Watch {
    w.(outstanding := Some(w.aytBit), aytBit := Flip(w.aytBit), sent := w.sent + [Ayt(w.aytBit, w.now)],
       lastPing := w.now)
  }

  /** An idle line gets a beacon, unless one is unanswered. */
  function BeaconTimer(k: Settings, w: Watch): Watch {
    if w.markers == 0 && w.waiting.None? && w.now - w.lastBeacon >= k.beaconInterval then
      w.(waiting := Some(w.beaconBit), sent := w.sent + [Beacon(w.beaconBit, w.now)], beaconBit := Flip(w.beaconBit),
         lastBeacon := w.now)
    else w
  }

  /** An unanswered beacon gets probes, and then the transmit direction is lost. */
  function MarkTimer(k: Settings, w: Watch): Watch {
    if w.waiting.Some? && w.now - w.lastMark >= k.interval && w.now - w.lastPing >= k.interval then
      if w.markers >= k.retries + 1 then w.(end := Some(TxLost))
      else (if w.markers < 2 then SendPing(w) else SendAyt(w)).(markers := w.markers + 1)
    else w
  }

  /** Silence gets probes, and then the link is lost. */
  function IdleTimer(k: Settings, w: Watch): Watch {
    var idle := w.now - w.lastRx;
    if idle >= k.timeout && w.probes >= k.retries && w.now - w.lastPing >= k.interval then w.(end := Some(RxLost))
    else if idle >= k.interval && w.now - w.lastPing >= k.interval then
      if w.probes >= k.retries then w.(end := Some(RxLost)) else SendPing(w).(probes := w.probes + 1)
    else w
  }

  function Timers(k: Settings, w: Watch): Watch {
    var w2 := MarkTimer(k, BeaconTimer(k, w));
    if w2.end.Some? then w2 else IdleTimer(k, w2)
  }

  /** One pass of the waiting loop. */
  function Pass(k: Settings, deadline: nat, w: Watch, poll: Poll): Watch {
    var heard := HearAll(w, poll.lines);
    if heard.end.Some? then heard
    else
      var w2 := Timers(k, heard);
      if w2.end.Some? then w2
      else if w2.now >= deadline then w2.(end := Some(TimedOut))
      else w2.(now := w2.now + Max(1, Min(poll.gap, k.slack)))
  }

  function Session(k: Settings, bits: Bits, start: nat, deadline: nat, polls: seq<Poll>): Watch {
    if polls == [] then Start(bits, start)
    else
      var w := Session(k, bits, start, deadline, polls[..|polls| - 1]);
      if w.end.Some? then w else Pass(k, deadline, w, polls[|polls| - 1])
  }

  // ---- probes and beacons under any traffic -------------------------------------------------

  predicate IsProbe(x: Sent) {
    x.Ping? || x.Ayt?
  }

  function Probes(sent: seq<Sent>): nat {
    if sent == [] then 0 else Probes(sent[..|sent| - 1]) + if IsProbe(sent[|sent| - 1]) then 1 else 0
  }

  function Beacons(sent: seq<Sent>): nat {
    if sent == [] then 0 else Beacons(sent[..|sent| - 1]) + if sent[|sent| - 1].Beacon? then 1 else 0
  }

  lemma SentOneMore(sent: seq<Sent>, x: Sent)
    ensures Probes(sent + [x]) == Probes(sent) + if IsProbe(x) then 1 else 0
    ensures Beacons(sent + [x]) == Beacons(sent) + if x.Beacon? then 1 else 0
  {
    assert (sent + [x])[..|sent|] == sent;
  }

  /** Probes so far: the first at least one interval after the start, any two at least one interval apart, the last no
      later than `lastPing`. */
  ghost predicate Spaced(k: Settings, start: nat, w: Watch) {
    && start <= w.lastPing <= w.now
    && (forall x :: x in w.sent && IsProbe(x) ==> start + k.interval <= x.at <= w.lastPing)
    && (forall i, j :: 0 <= i < j < |w.sent| && IsProbe(w.sent[i]) && IsProbe(w.sent[j]) ==>
          w.sent[i].at + k.interval <= w.sent[j].at)
  }

  /** The clocks are behind the time. */
  predicate Behind(start: nat, w: Watch) {
    start <= w.lastRx <= w.now && start <= w.lastBeacon <= w.now && start <= w.lastMark <= w.now
    && start <= w.lastPing <= w.now
  }

  lemma QuietLineIsSpaced(k: Settings, start: nat, w: Watch, w2: Watch, x: Sent)
    requires Spaced(k, start, w) && w2.sent == w.sent + [x] && !IsProbe(x)
    requires w2.lastPing == w.lastPing && w2.now == w.now
    ensures Spaced(k, start, w2)
  {
  }

  lemma {:induction false} HearAllIsSpaced(k: Settings, start: nat, w: Watch, lines: seq<Signal>)
    requires Spaced(k, start, w) && Behind(start, w)
    ensures var w2 := HearAll(w, lines); Spaced(k, start, w2) && Behind(start, w2) && w2.now == w.now
    decreases |lines|
  {
    hide Spaced;
    if lines != [] && w.end.None? {
      HearIsSpaced(k, start, w, lines[0]);
      HearAllIsSpaced(k, start, Hear(w, lines[0]), lines[1..]);
    }
  }

  lemma HearIsSpaced(k: Settings, start: nat, w: Watch, y: Signal)
    requires Spaced(k, start, w) && Behind(start, w)
    ensures var w2 := Hear(w, y); Spaced(k, start, w2) && Behind(start, w2) && w2.now == w.now
  {
    var w2 := Hear(w, y);
    if w2.sent != w.sent {
      QuietLineIsSpaced(k, start, w, w2, w2.sent[|w.sent|]);
    } else {
      assert Spaced(k, start, w2);
    }
  }

  lemma ProbeIsSpaced(k: Settings, start: nat, w: Watch, w2: Watch, x: Sent)
    requires Spaced(k, start, w) && w.now - w.lastPing >= k.interval
    requires w2.sent == w.sent + [x] && IsProbe(x) && x.at == w2.lastPing == w2.now == w.now
    ensures Spaced(k, start, w2)
  {
    forall i | 0 <= i < |w.sent| && IsProbe(w.sent[i])
      ensures w.sent[i].at + k.interval <= x.at
    {
      assert w.sent[i] in w.sent;
    }
  }

  lemma TimersAreSpaced(k: Settings, start: nat, w: Watch)
    requires Spaced(k, start, w) && Behind(start, w)
    ensures var w2 := Timers(k, w); Spaced(k, start, w2) && Behind(start, w2) && w2.now == w.now
  {
    hide Spaced, BeaconTimer, MarkTimer, IdleTimer;
    BeaconTimerIsSpaced(k, start, w);
    var a := BeaconTimer(k, w);
    MarkTimerIsSpaced(k, start, a);
    IdleTimerIsSpaced(k, start, MarkTimer(k, a));
  }

  lemma BeaconTimerIsSpaced(k: Settings, start: nat, w: Watch)
    requires Spaced(k, start, w) && Behind(start, w)
    ensures var w2 := BeaconTimer(k, w); Spaced(k, start, w2) && Behind(start, w2) && w2.now == w.now
  {
    var w2 := BeaconTimer(k, w);
    if w2.sent != w.sent {
      QuietLineIsSpaced(k, start, w, w2, Beacon(w.beaconBit, w.now));
    }
  }

  lemma MarkTimerIsSpaced(k: Settings, start: nat, w: Watch)
    requires Spaced(k, start, w) && Behind(start, w)
    ensures var w2 := MarkTimer(k, w); Spaced(k, start, w2) && Behind(start, w2) && w2.now == w.now
  {
    var w2 := MarkTimer(k, w);
    if w2.sent != w.sent {
      ProbeIsSpaced(k, start, w, w2, w2.sent[|w.sent|]);
    }
  }

  lemma IdleTimerIsSpaced(k: Settings, start: nat, w: Watch)
    requires Spaced(k, start, w) && Behind(start, w)
    ensures var w2 := IdleTimer(k, w); Spaced(k, start, w2) && Behind(start, w2) && w2.now == w.now
  {
    var w2 := IdleTimer(k, w);
    if w2.sent != w.sent {
      ProbeIsSpaced(k, start, w, w2, w2.sent[|w.sent|]);
    }
  }

  /** Whatever is heard, two probes are never less than one interval apart. */
  lemma {:induction false} ProbesAreSpaced(k: Settings, bits: Bits, start: nat, deadline: nat, polls: seq<Poll>)
    ensures var w := Session(k, bits, start, deadline, polls); Spaced(k, start, w) && Behind(start, w)
    decreases |polls|
  {
    hide Timers, HearAll, Spaced;
    if polls == [] {
      assert Spaced(k, start, Start(bits, start)) by {
        StartIsSpaced(k, bits, start);
      }
    } else {
      var before := polls[..|polls| - 1];
      ProbesAreSpaced(k, bits, start, deadline, before);
      var w := Session(k, bits, start, deadline, before);
      if w.end.None? {
        PassIsSpaced(k, start, deadline, w, polls[|polls| - 1]);
      }
    }
  }

  lemma StartIsSpaced(k: Settings, bits: Bits, start: nat)
    ensures Spaced(k, start, Start(bits, start))
  {
  }

  lemma PassIsSpaced(k: Settings, start: nat, deadline: nat, w: Watch, poll: Poll)
    requires Spaced(k, start, w) && Behind(start, w)
    ensures var w2 := Pass(k, deadline, w, poll); Spaced(k, start, w2) && Behind(start, w2)
  {
    hide Timers, HearAll, Spaced;
    HearAllIsSpaced(k, start, w, poll.lines);
    var heard := HearAll(w, poll.lines);
    if heard.end.None? {
      TimersAreSpaced(k, start, heard);
      LaterIsSpaced(k, start, Timers(k, heard), Pass(k, deadline, w, poll));
    }
  }

  lemma LaterIsSpaced(k: Settings, start: nat, w: Watch, later: Watch)
    requires Spaced(k, start, w) && later.sent == w.sent && later.lastPing == w.lastPing && later.now >= w.now
    ensures Spaced(k, start, later)
  {
  }

  // ---- silence ----------------------------------------------------------------------------

  /** `n` rounds of waiting for the clock to pass one interval. */
  function Span(k: Settings, n: nat): nat {
    n * (k.interval + k.slack)
  }

  lemma SpanStep(k: Settings, n: nat)
    ensures Span(k, n + 1) == Span(k, n) + k.interval + k.slack
  {
    assert (n + 1) * (k.interval + k.slack) == n * (k.interval + k.slack) + (k.interval + k.slack);
  }

  lemma {:induction false} SpanGrows(k: Settings, m: nat, n: nat)
    requires m <= n
    ensures Span(k, m) <= Span(k, n)
  {
    hide Span;
    if m < n {
      SpanStep(k, n - 1);
      SpanGrows(k, m, n - 1);
    }
  }

  /** A line that counts for nothing at this moment: of the wrong direction, an answer to a probe that is not
      outstanding, or our own probe coming back. */
  predicate Ignored(w: Watch, y: Signal) {
    match y
    case Foreign => true
    case PongIn(id) => w.outstanding != Some(id)
    case HereIn(id) => w.outstanding != Some(id)
    case PingIn(id) => w.outstanding == Some(id)
    case _ => false
  }

  /** Nothing valid is heard: every line of every poll is ignored at its moment. */
  ghost predicate Silence(k: Settings, bits: Bits, start: nat, deadline: nat, polls: seq<Poll>) {
    forall i, y :: 0 <= i < |polls| && y in polls[i].lines ==>
      Ignored(Session(k, bits, start, deadline, polls[..i]), y)
  }

  /** After nothing but silence: probes were sent one a round, and at most one beacon. */
  ghost predicate Hushed(k: Settings, start: nat, w: Watch) {
    && w.lastRx == start && w.lastMark == start && start <= w.lastPing <= w.now && w.lastBeacon <= w.now
    && Probes(w.sent) == w.probes + w.markers && w.probes <= k.retries && w.markers <= k.retries + 1
    && Beacons(w.sent) == (if w.waiting.Some? then 1 else 0) && (w.markers > 0 ==> w.waiting.Some?)
    && w.lastPing <= start + Span(k, w.probes + w.markers)
    && w.now < w.lastPing + k.interval + k.slack
    && w.end != Some(Line)
  }

  lemma SilenceBefore(k: Settings, bits: Bits, start: nat, deadline: nat, polls: seq<Poll>)
    requires Silence(k, bits, start, deadline, polls) && polls != []
    ensures var before := polls[..|polls| - 1];
            && Silence(k, bits, start, deadline, before)
            && forall y :: y in polls[|polls| - 1].lines ==> Ignored(Session(k, bits, start, deadline, before), y)
  {
    hide Session, Ignored;
    var before := polls[..|polls| - 1];
    forall i, y | 0 <= i < |before| && y in before[i].lines
      ensures Ignored(Session(k, bits, start, deadline, before[..i]), y)
    {
      assert before[..i] == polls[..i] && before[i] == polls[i];
    }
  }

  lemma {:induction false} SilenceChangesNothing(w: Watch, lines: seq<Signal>)
    requires forall y :: y in lines ==> Ignored(w, y)
    ensures HearAll(w, lines) == w
    decreases |lines|
  {
    if lines != [] && w.end.None? {
      assert lines[0] in lines;
      SilenceChangesNothing(w, lines[1..]);
    }
  }

  lemma HushedTimers(k: Settings, start: nat, w: Watch)
    requires k.Valid() && Hushed(k, start, w) && w.end.None?
    ensures var w2 := Timers(k, w);
            && Hushed(k, start, w2) && w2.now == w.now && w2.end != Some(TimedOut)
            && (w2.end.None? ==> w2.now < w2.lastPing + k.interval)
  {
    hide Span, Probes, Beacons;
    SpanStep(k, w.probes + w.markers);
    SentOneMore(w.sent, Beacon(w.beaconBit, w.now));
    var a := BeaconTimer(k, w);
    SentOneMore(a.sent, Ping(a.pingBit, a.now));
    SentOneMore(a.sent, Ayt(a.aytBit, a.now));
  }

  lemma {:induction false} SilenceIsHushed(k: Settings, bits: Bits, start: nat, deadline: nat, polls: seq<Poll>)
    requires k.Valid() && Silence(k, bits, start, deadline, polls)
    ensures Hushed(k, start, Session(k, bits, start, deadline, polls))
    ensures var w := Session(k, bits, start, deadline, polls);
            && (w.end == Some(TimedOut) ==> w.now >= deadline)
            && (w.end.None? ==> w.now >= start + |polls|)
    decreases |polls|
  {
    hide Timers, HearAll, Hushed;
    if polls == [] {
      HushedAtStart(k, bits, start);
    } else {
      var before, last := polls[..|polls| - 1], polls[|polls| - 1];
      SilenceBefore(k, bits, start, deadline, polls);
      SilenceIsHushed(k, bits, start, deadline, before);
      var w := Session(k, bits, start, deadline, before);
      if w.end.None? {
        HushedPass(k, start, deadline, w, last);
      }
    }
  }

  lemma HushedAtStart(k: Settings, bits: Bits, start: nat)
    requires k.Valid()
    ensures Hushed(k, start, Start(bits, start))
  {
  }

  lemma HushedPass(k: Settings, start: nat, deadline: nat, w: Watch, poll: Poll)
    requires k.Valid() && Hushed(k, start, w) && w.end.None? && forall y :: y in poll.lines ==> Ignored(w, y)
    ensures var w2 := Pass(k, deadline, w, poll);
            && Hushed(k, start, w2)
            && (w2.end == Some(TimedOut) ==> w2.now >= deadline)
            && (w2.end.None? ==> w2.now > w.now)
  {
    hide Timers, HearAll, Probes, Beacons, Span;
    SilenceChangesNothing(w, poll.lines);
    HushedTimers(k, start, w);
  }

  lemma SilenceInRounds(k: Settings, bits: Bits, start: nat, deadline: nat, polls: seq<Poll>)
    requires k.Valid() && Silence(k, bits, start, deadline, polls)
    ensures var w := Session(k, bits, start, deadline, polls);
            && Beacons(w.sent) <= 1 && Probes(w.sent) <= 2 * k.retries + 1
            && w.now < start + Span(k, 2 * k.retries + 2) && w.end != Some(Line)
            && (w.end == Some(TimedOut) ==> w.now >= deadline)
            && (w.end.None? ==> w.now >= start + |polls|)
  {
    hide Span, Session, Probes, Beacons, Silence;
    SilenceIsHushed(k, bits, start, deadline, polls);
    var w := Session(k, bits, start, deadline, polls);
    SpanStep(k, w.probes + w.markers);
    SpanGrows(k, w.probes + w.markers + 1, 2 * k.retries + 2);
  }

  lemma SpanMeans(k: Settings, n: nat)
    ensures Span(k, n) == n * (k.interval + k.slack)
  {
  }

  /** A peer of whom nothing valid is heard is noticed, stale answers or not: after at most one beacon and 2 * retries
      + 1 probes, and within 2 * retries + 2 rounds, the call has ended, with the link declared lost or at its
      deadline. */
  lemma SilenceIsNoticed(k: Settings, bits: Bits, start: nat, deadline: nat, polls: seq<Poll>)
    requires k.Valid() && Silence(k, bits, start, deadline, polls)
    ensures var w := Session(k, bits, start, deadline, polls);
            && Beacons(w.sent) <= 1 && Probes(w.sent) <= 2 * k.retries + 1
            && w.now < start + (2 * k.retries + 2) * (k.interval + k.slack)
            && (w.end.Some? ==>
                  w.end.value.TxLost? || w.end.value.RxLost? || (w.end.value.TimedOut? && w.now >= deadline))
            && (|polls| >= (2 * k.retries + 2) * (k.interval + k.slack) ==> w.end.Some?)
  {
    hide *;
    SilenceInRounds(k, bits, start, deadline, polls);
    SpanMeans(k, 2 * k.retries + 2);
  }

  /** `n` intervals. */
  function Pace(k: Settings, n: nat): nat {
    n * k.interval
  }

  lemma PaceMeans(k: Settings, n: nat)
    ensures Pace(k, n) == n * k.interval
  {
  }

  lemma PaceStep(k: Settings, n: nat)
    ensures Pace(k, n + 1) == Pace(k, n) + k.interval
  {
    assert (n + 1) * k.interval == n * k.interval + k.interval;
  }

  lemma {:induction false} PaceGrows(k: Settings, m: nat, n: nat)
    requires m <= n
    ensures Pace(k, m) <= Pace(k, n)
  {
    hide Pace;
    if m < n {
      PaceStep(k, n - 1);
      PaceGrows(k, m, n - 1);
    }
  }

  /** When silence is taken for what: a lost receive direction only while no beacon has been due, a lost transmit
      direction only after one has. */
  ghost predicate Dated(k: Settings, start: nat, w: Watch) {
    && w.lastRx == start && w.lastMark == start && start <= w.lastPing <= w.now && w.lastBeacon <= w.now
    && w.probes <= k.retries && w.markers <= k.retries + 1
    && (w.waiting.None? ==> w.lastBeacon == start && w.markers == 0)
    && (w.waiting.Some? ==> w.now >= start + k.beaconInterval)
    && (k.beaconInterval <= k.interval ==> w.probes == 0)
    && w.lastPing >= start + Pace(k, w.probes + w.markers)
    && (w.end == Some(RxLost) ==> start + Pace(k, k.retries + 1) <= w.now < start + k.beaconInterval)
    && (w.end == Some(TxLost) ==> w.waiting.Some? && w.now >= start + Pace(k, k.retries + 2))
  }

  lemma DatedTimers(k: Settings, start: nat, w: Watch)
    requires k.Valid() && Dated(k, start, w) && w.end.None?
    ensures var w2 := Timers(k, w); Dated(k, start, w2) && w2.now == w.now
  {
    hide Pace;
    PaceStep(k, w.probes + w.markers);
    PaceGrows(k, k.retries + 1, w.probes + k.retries + 1);
    PaceGrows(k, k.retries, k.retries + w.markers);
    PaceStep(k, k.retries);
    PaceStep(k, k.retries + 1);
  }

  lemma DatedPass(k: Settings, start: nat, deadline: nat, w: Watch, poll: Poll)
    requires k.Valid() && Dated(k, start, w) && w.end.None? && forall y :: y in poll.lines ==> Ignored(w, y)
    ensures Dated(k, start, Pass(k, deadline, w, poll))
  {
    hide Timers, HearAll, Pace;
    SilenceChangesNothing(w, poll.lines);
    DatedTimers(k, start, w);
  }

  lemma DatedAtStart(k: Settings, bits: Bits, start: nat)
    ensures Dated(k, start, Start(bits, start))
  {
  }

  lemma {:induction false} SilenceIsDated(k: Settings, bits: Bits, start: nat, deadline: nat, polls: seq<Poll>)
    requires k.Valid() && Silence(k, bits, start, deadline, polls)
    ensures Dated(k, start, Session(k, bits, start, deadline, polls))
    decreases |polls|
  {
    hide Pass, Dated;
    if polls == [] {
      DatedAtStart(k, bits, start);
    } else {
      var before := polls[..|polls| - 1];
      SilenceBefore(k, bits, start, deadline, polls);
      SilenceIsDated(k, bits, start, deadline, before);
      var w := Session(k, bits, start, deadline, before);
      if w.end.None? {
        DatedPass(k, start, deadline, w, polls[|polls| - 1]);
      }
    }
  }

  lemma TransmitInRounds(k: Settings, bits: Bits, start: nat, deadline: nat, polls: seq<Poll>)
    requires k.Valid() && Silence(k, bits, start, deadline, polls) && k.beaconInterval <= Pace(k, k.retries + 1)
    ensures var w := Session(k, bits, start, deadline, polls);
            && w.end != Some(RxLost)
            && (w.end == Some(TxLost) ==> w.now >= start + Pace(k, k.retries + 2))
            && (k.beaconInterval <= k.interval ==> w.now < start + Span(k, k.retries + 2))
            && (w.end.None? ==> w.now >= start + |polls|)
  {
    hide Span, Pace, Session, Probes, Beacons, Silence;
    SilenceIsDated(k, bits, start, deadline, polls);
    SilenceIsHushed(k, bits, start, deadline, polls);
    var w := Session(k, bits, start, deadline, polls);
    SpanStep(k, w.markers);
    SpanGrows(k, w.markers + 1, k.retries + 2);
  }

  /** If a beacon is due before retries + 1 intervals, as it is by default, silence is never reported as a lost
      receive direction, whatever `timeout` is: it is reported as a lost transmit direction, no sooner than retries +
      2 intervals after the start. With beacons no rarer than probes it is no later than that many rounds, either. */
  lemma SilenceBlamesTransmit(k: Settings, bits: Bits, start: nat, deadline: nat, polls: seq<Poll>)
    requires k.Valid() && Silence(k, bits, start, deadline, polls)
    requires k.beaconInterval <= (k.retries + 1) * k.interval
    ensures var w := Session(k, bits, start, deadline, polls);
            var limit := (k.retries + 2) * (k.interval + k.slack);
            && w.end != Some(RxLost)
            && (w.end == Some(TxLost) ==> w.now >= start + (k.retries + 2) * k.interval)
            && (k.beaconInterval <= k.interval ==> w.now < start + limit && (|polls| >= limit ==> w.end.Some?))
  {
    hide *;
    PaceMeans(k, k.retries + 1);
    PaceMeans(k, k.retries + 2);
    SpanMeans(k, k.retries + 2);
    TransmitInRounds(k, bits, start, deadline, polls);
  }

  lemma ReceiveInRounds(k: Settings, bits: Bits, start: nat, deadline: nat, polls: seq<Poll>)
    requires k.Valid() && Silence(k, bits, start, deadline, polls) && k.beaconInterval >= Span(k, k.retries + 1)
    ensures var w := Session(k, bits, start, deadline, polls);
            && w.end != Some(TxLost)
            && (w.end == Some(RxLost) ==> w.now >= start + Pace(k, k.retries + 1))
            && w.now < start + Span(k, k.retries + 1)
            && (w.end.None? ==> w.now >= start + |polls|)
  {
    hide Span, Pace, Session, Probes, Beacons, Silence;
    NoBeaconIsDue(k, bits, start, deadline, polls);
    SilenceIsDated(k, bits, start, deadline, polls);
    SilenceIsHushed(k, bits, start, deadline, polls);
    var w := Session(k, bits, start, deadline, polls);
    SpanStep(k, w.probes);
    SpanGrows(k, w.probes + 1, k.retries + 1);
  }

  /** If no beacon is due within retries + 1 rounds, silence is never reported as a lost transmit direction: it is
      reported as a lost receive direction, between retries + 1 intervals and as many rounds after the start. With the
      default intervals of 5 seconds and 3 retries these are the 20 seconds that the constants promise. */
  lemma SilenceBlamesReceive(k: Settings, bits: Bits, start: nat, deadline: nat, polls: seq<Poll>)
    requires k.Valid() && Silence(k, bits, start, deadline, polls)
    requires k.beaconInterval >= (k.retries + 1) * (k.interval + k.slack)
    ensures var w := Session(k, bits, start, deadline, polls);
            var limit := (k.retries + 1) * (k.interval + k.slack);
            && w.end != Some(TxLost)
            && (w.end == Some(RxLost) ==> w.now >= start + (k.retries + 1) * k.interval)
            && w.now < start + limit && (|polls| >= limit ==> w.end.Some?)
  {
    hide *;
    PaceMeans(k, k.retries + 1);
    SpanMeans(k, k.retries + 1);
    ReceiveInRounds(k, bits, start, deadline, polls);
  }

  lemma {:induction false} NoBeaconIsDue(k: Settings, bits: Bits, start: nat, deadline: nat, polls: seq<Poll>)
    requires k.Valid() && Silence(k, bits, start, deadline, polls) && k.beaconInterval >= Span(k, k.retries + 1)
    ensures Session(k, bits, start, deadline, polls).waiting.None?
    decreases |polls|
  {
    hide Span, Pass, Probes, Beacons, Pace, Silence;
    if polls != [] {
      var before, last := polls[..|polls| - 1], polls[|polls| - 1];
      SilenceBefore(k, bits, start, deadline, polls);
      NoBeaconIsDue(k, bits, start, deadline, before);
      SilenceIsHushed(k, bits, start, deadline, before);
      SilenceIsDated(k, bits, start, deadline, before);
      var w := Session(k, bits, start, deadline, before);
      if w.end.None? {
        SpanStep(k, w.probes);
        SpanGrows(k, w.probes + 1, k.retries + 1);
        NoBeaconYet(k, start, deadline, w, last);
      }
    }
  }

  lemma NoBeaconYet(k: Settings, start: nat, deadline: nat, w: Watch, poll: Poll)
    requires w.waiting.None? && w.end.None? && w.lastBeacon == start <= w.now < start + k.beaconInterval
    requires forall y :: y in poll.lines ==> Ignored(w, y)
    ensures Pass(k, deadline, w, poll).waiting.None?
  {
    hide HearAll, Ignored;
    SilenceChangesNothing(w, poll.lines);
  }

  // ---- a dead peer with something still to be heard -------------------------------------------------

  /** How many of these lines count for something at their moment. */
  function Heeded(w: Watch, lines: seq<Signal>): nat
    decreases |lines|
  {
    if lines == [] || w.end.Some? then 0
    else (if Ignored(w, lines[0]) then 0 else 1) + Heeded(Hear(w, lines[0]), lines[1..])
  }

  /** How many lines of the whole wait do. */
  function AllHeeded(k: Settings, bits: Bits, start: nat, deadline: nat, polls: seq<Poll>): nat {
    if polls == [] then 0
    else
      var before := polls[..|polls| - 1];
      var w := Session(k, bits, start, deadline, before);
      AllHeeded(k, bits, start, deadline, before) + if w.end.Some? then 0 else Heeded(w, polls[|polls| - 1].lines)
  }

  /** The most probes that one stretch of silence takes, and the time it takes. */
  function StretchProbes(k: Settings): nat {
    2 * k.retries + 1
  }

  function Stretch(k: Settings): nat {
    Span(k, 2 * k.retries + 2)
  }

  function Times(n: nat, each: nat): nat {
    n * each
  }

  lemma TimesStep(n: nat, each: nat)
    ensures Times(n + 1, each) == Times(n, each) + each
  {
    assert (n + 1) * each == n * each + each;
  }

  function Latest(w: Watch): nat {
    if w.lastRx >= w.lastPing then w.lastRx else w.lastPing
  }

  /** After `n` heeded lines: the last of them came no later than `n` stretches after the start, and since then probes
      have been sent one a round. */
  ghost predicate Waning(k: Settings, start: nat, n: nat, w: Watch) {
    && start <= w.lastMark <= w.lastRx <= w.now && w.lastPing <= w.now && w.lastBeacon <= w.now
    && w.lastRx <= start + Times(n, Stretch(k))
    && w.probes <= k.retries && w.markers <= k.retries + 1 && (w.markers > 0 ==> w.waiting.Some?)
    && Probes(w.sent) <= Times(n, StretchProbes(k)) + w.probes + w.markers
    && Beacons(w.sent) <= n + (if w.waiting.Some? then 1 else 0)
    && Latest(w) <= w.lastRx + Span(k, w.probes + w.markers)
    && w.now < Latest(w) + k.interval + k.slack
  }

  lemma WaningBound(k: Settings, start: nat, n: nat, w: Watch)
    requires k.Valid() && Waning(k, start, n, w)
    ensures w.now < w.lastRx + Stretch(k) && w.now < start + Times(n + 1, Stretch(k))
    ensures Probes(w.sent) <= Times(n + 1, StretchProbes(k)) && Beacons(w.sent) <= n + 1
  {
    hide Span, Probes, Beacons, Times;
    SpanStep(k, w.probes + w.markers);
    SpanGrows(k, w.probes + w.markers + 1, 2 * k.retries + 2);
    TimesStep(n, Stretch(k));
    TimesStep(n, StretchProbes(k));
  }

  /** A line that counts: a new stretch begins, with nothing but fewer probes on record. */
  lemma NewStretch(k: Settings, start: nat, n: nat, w: Watch, w2: Watch)
    requires k.Valid() && Waning(k, start, n, w)
    requires w2.now == w.now && w2.lastPing == w.lastPing && w2.lastBeacon <= w.now
    requires (w2.lastRx == w.now && (w2.lastMark == w.lastMark || w2.lastMark == w.now))
             || (w2.lastRx == w.lastRx && w2.lastMark == w.lastMark && w2.probes == w.probes && w2.markers == w.markers)
    requires w2.probes <= w.probes && w2.markers <= w.markers && (w2.markers > 0 ==> w2.waiting.Some?)
    requires Probes(w2.sent) == Probes(w.sent) && Beacons(w2.sent) == Beacons(w.sent)
    ensures Waning(k, start, n + 1, w2)
  {
    WaningBound(k, start, n, w);
    hide Span, Probes, Beacons, Times, Stretch, StretchProbes;
    TimesStep(n, Stretch(k));
  }

  lemma HearingWritesNoProbe(w: Watch, y: Signal)
    ensures Probes(Hear(w, y).sent) == Probes(w.sent) && Beacons(Hear(w, y).sent) == Beacons(w.sent)
  {
    hide Probes, Beacons;
    match y
    case PeerBeacon(bit) => SentOneMore(w.sent, Mark(bit));
    case PingIn(id) => SentOneMore(w.sent, Pong(id));
    case HereIn(id) => SentOneMore(w.sent, AytOk(id));
    case _ =>
  }

  lemma WaningHear(k: Settings, start: nat, n: nat, w: Watch, y: Signal)
    requires k.Valid() && Waning(k, start, n, w) && w.end.None?
    ensures var w2 := Hear(w, y);
            Waning(k, start, n + if Ignored(w, y) then 0 else 1, w2) && w2.now == w.now
  {
    hide Span, Probes, Beacons, Times, Stretch, StretchProbes;
    if Ignored(w, y) {
      assert Hear(w, y) == w;
    } else {
      HearingWritesNoProbe(w, y);
      NewStretch(k, start, n, w, Hear(w, y));
    }
  }

  lemma {:induction false} WaningHearAll(k: Settings, start: nat, n: nat, w: Watch, lines: seq<Signal>)
    requires k.Valid() && Waning(k, start, n, w)
    ensures var w2 := HearAll(w, lines);
            Waning(k, start, n + Heeded(w, lines), w2) && w2.now == w.now
    decreases |lines|
  {
    hide Waning, Hear, Ignored;
    if lines != [] && w.end.None? {
      WaningHear(k, start, n, w, lines[0]);
      WaningHearAll(k, start, n + (if Ignored(w, lines[0]) then 0 else 1), Hear(w, lines[0]), lines[1..]);
    }
  }

  lemma WaningBeacon(k: Settings, start: nat, n: nat, w: Watch)
    requires k.Valid() && Waning(k, start, n, w) && w.end.None?
    ensures var w2 := BeaconTimer(k, w); Waning(k, start, n, w2) && w2.now == w.now && w2.end.None?
  {
    hide Span, Probes, Beacons, Times, Stretch, StretchProbes;
    SentOneMore(w.sent, Beacon(w.beaconBit, w.now));
  }

  lemma WaningMark(k: Settings, start: nat, n: nat, w: Watch)
    requires k.Valid() && Waning(k, start, n, w) && w.end.None?
    ensures var w2 := MarkTimer(k, w); Waning(k, start, n, w2) && w2.now == w.now && w2.end != Some(TimedOut)
  {
    hide Span, Probes, Beacons, Times, Stretch, StretchProbes;
    SpanStep(k, w.probes + w.markers);
    SentOneMore(w.sent, Ping(w.pingBit, w.now));
    SentOneMore(w.sent, Ayt(w.aytBit, w.now));
  }

  lemma WaningIdle(k: Settings, start: nat, n: nat, w: Watch)
    requires k.Valid() && Waning(k, start, n, w) && w.end.None?
    ensures var w2 := IdleTimer(k, w);
            && Waning(k, start, n, w2) && w2.now == w.now && w2.end != Some(TimedOut)
            && (w2.end.None? ==> w2.now < Latest(w2) + k.interval)
  {
    hide Span, Probes, Beacons, Times, Stretch, StretchProbes;
    SpanStep(k, w.probes + w.markers);
    SentOneMore(w.sent, Ping(w.pingBit, w.now));
  }

  lemma WaningTimers(k: Settings, start: nat, n: nat, w: Watch)
    requires k.Valid() && Waning(k, start, n, w) && w.end.None?
    ensures var w2 := Timers(k, w);
            && Waning(k, start, n, w2) && w2.now == w.now && w2.end != Some(TimedOut)
            && (w2.end.None? ==> w2.now < Latest(w2) + k.interval)
  {
    hide Waning, Latest, BeaconTimer, MarkTimer, IdleTimer;
    WaningBeacon(k, start, n, w);
    var a := BeaconTimer(k, w);
    WaningMark(k, start, n, a);
    var b := MarkTimer(k, a);
    if b.end.None? {
      WaningIdle(k, start, n, b);
    }
  }

  lemma WaningLater(k: Settings, start: nat, n: nat, w: Watch, later: Watch)
    requires Waning(k, start, n, w) && w.now <= later.now < Latest(w) + k.interval + k.slack
    requires later == w.(now := later.now, end := later.end)
    ensures Waning(k, start, n, later)
  {
    hide Span, Probes, Beacons, Times, Stretch, StretchProbes;
  }

  lemma WaningPass(k: Settings, start: nat, deadline: nat, n: nat, w: Watch, poll: Poll)
    requires k.Valid() && Waning(k, start, n, w) && w.end.None?
    ensures var w2 := Pass(k, deadline, w, poll);
            && Waning(k, start, n + Heeded(w, poll.lines), w2)
            && (w2.end == Some(TimedOut) ==> w2.now >= deadline)
            && (w2.end.None? ==> w2.now > w.now)
  {
    hide Timers, HearAll, Heeded, Waning, Latest;
    WaningHearAll(k, start, n, w, poll.lines);
    var heard := HearAll(w, poll.lines);
    if heard.end.None? {
      var m := n + Heeded(w, poll.lines);
      WaningTimers(k, start, m, heard);
      var w2, w3 := Timers(k, heard), Pass(k, deadline, w, poll);
      if w2.end.None? {
        WaningLater(k, start, m, w2, w3);
      }
    } else {
      LineIsNoTimeout(w, poll.lines);
    }
  }

  lemma {:induction false} LineIsNoTimeout(w: Watch, lines: seq<Signal>)
    requires w.end.None?
    ensures HearAll(w, lines).end != Some(TimedOut)
    decreases |lines|
  {
    if lines != [] && Hear(w, lines[0]).end.None? {
      LineIsNoTimeout(Hear(w, lines[0]), lines[1..]);
    }
  }

  lemma {:induction false} StaysWaning(k: Settings, bits: Bits, start: nat, deadline: nat, polls: seq<Poll>)
    requires k.Valid()
    ensures var w := Session(k, bits, start, deadline, polls);
            && Waning(k, start, AllHeeded(k, bits, start, deadline, polls), w)
            && (w.end == Some(TimedOut) ==> w.now >= deadline)
            && (w.end.None? ==> w.now >= start + |polls|)
    decreases |polls|
  {
    hide Pass, Heeded, Waning;
    if polls == [] {
      WaningAtStart(k, bits, start);
    } else {
      var before, last := polls[..|polls| - 1], polls[|polls| - 1];
      StaysWaning(k, bits, start, deadline, before);
      var w := Session(k, bits, start, deadline, before);
      if w.end.None? {
        WaningPass(k, start, deadline, AllHeeded(k, bits, start, deadline, before), w, last);
      }
    }
  }

  lemma WaningAtStart(k: Settings, bits: Bits, start: nat)
    requires k.Valid()
    ensures Waning(k, start, 0, Start(bits, start))
  {
  }

  /** Whatever is heard, each line that counts for something buys the peer at most one more stretch of silence. A dead
      peer of whom `n` such lines are still to come, stale answers that happen to carry the outstanding bit among them,
      is noticed within n + 1 times the time, the probes and the beacons of plain silence. */
  lemma DeadPeerIsNoticed(k: Settings, bits: Bits, start: nat, deadline: nat, polls: seq<Poll>)
    requires k.Valid()
    ensures var w := Session(k, bits, start, deadline, polls);
            var n := AllHeeded(k, bits, start, deadline, polls);
            var limit := (n + 1) * ((2 * k.retries + 2) * (k.interval + k.slack));
            && w.now < start + limit && (|polls| >= limit ==> w.end.Some?)
            && Probes(w.sent) <= (n + 1) * (2 * k.retries + 1) && Beacons(w.sent) <= n + 1
            && (w.end == Some(TimedOut) ==> w.now >= deadline)
  {
    hide *;
    var w, n := Session(k, bits, start, deadline, polls), AllHeeded(k, bits, start, deadline, polls);
    StaysWaning(k, bits, start, deadline, polls);
    WaningBound(k, start, n, w);
    StretchMeans(k, n + 1);
  }

  lemma StretchMeans(k: Settings, n: nat)
    ensures Times(n, Stretch(k)) == n * ((2 * k.retries + 2) * (k.interval + k.slack))
    ensures Times(n, StretchProbes(k)) == n * (2 * k.retries + 1)
  {
  }

  // ---- a transmit direction that is down ---------------------------------------------------------

  /** A line that proves nothing about our transmit direction at this moment: the peer's beacons and probes, receipts
      for its own direction or for another beacon than the one that waits, and what is ignored anyway. */
  predicate Unconfirming(w: Watch, y: Signal) {
    match y
    case PeerBeacon(_) => true
    case PingIn(_) => true
    case Receipt(ours, bit) => !ours || w.waiting != Some(bit)
    case _ => Ignored(w, y)
  }

  /** The peer may be heard, but no receipt for anything of ours. */
  ghost predicate Unreceipted(k: Settings, bits: Bits, start: nat, deadline: nat, polls: seq<Poll>) {
    forall i, y :: 0 <= i < |polls| && y in polls[i].lines ==>
      Unconfirming(Session(k, bits, start, deadline, polls[..i]), y)
  }

  lemma UnreceiptedBefore(k: Settings, bits: Bits, start: nat, deadline: nat, polls: seq<Poll>)
    requires Unreceipted(k, bits, start, deadline, polls) && polls != []
    ensures var before := polls[..|polls| - 1];
            && Unreceipted(k, bits, start, deadline, before)
            && forall y :: y in polls[|polls| - 1].lines ==> Unconfirming(Session(k, bits, start, deadline, before), y)
  {
    hide Session, Unconfirming;
    var before := polls[..|polls| - 1];
    forall i, y | 0 <= i < |before| && y in before[i].lines
      ensures Unconfirming(Session(k, bits, start, deadline, before[..i]), y)
    {
      assert before[..i] == polls[..i] && before[i] == polls[i];
    }
  }

  ghost predicate OneWay(k: Settings, start: nat, w: Watch) {
    && w.lastMark == start && start <= w.lastPing <= w.now && w.markers <= k.retries + 1
    && w.lastBeacon <= w.now && w.lastRx <= w.now && start <= w.lastRx
    && w.end != Some(Line)
    && (w.waiting.None? ==> w.markers == 0 && w.lastBeacon == start && w.now < start + k.beaconInterval + k.slack)
    && (w.waiting.Some? ==>
          && start <= w.lastBeacon < start + k.beaconInterval + k.slack
          && w.lastPing <= w.lastBeacon + Span(k, w.markers)
          && w.now < w.lastBeacon + Span(k, w.markers) + k.interval + k.slack)
  }

  lemma {:induction false} HearingOneWay(k: Settings, start: nat, w: Watch, lines: seq<Signal>)
    requires OneWay(k, start, w) && w.end.None?
    requires forall y :: y in lines ==> Unconfirming(w, y)
    ensures var w2 := HearAll(w, lines); OneWay(k, start, w2) && w2.end.None? && w2.now == w.now
    decreases |lines|
  {
    hide Span;
    if lines != [] {
      assert lines[0] in lines;
      var w2 := Hear(w, lines[0]);
      forall y | y in lines[1..]
        ensures Unconfirming(w2, y)
      {
        assert y in lines && Unconfirming(w, y);
      }
      HearingOneWay(k, start, w2, lines[1..]);
    }
  }

  lemma OneWayTimers(k: Settings, start: nat, w: Watch)
    requires k.Valid() && OneWay(k, start, w) && w.end.None?
    ensures var w2 := Timers(k, w);
            && OneWay(k, start, w2) && w2.now == w.now && w2.end != Some(TimedOut)
            && (w2.end.None? ==>
                  if w2.waiting.None? then w2.now < start + k.beaconInterval
                  else w2.now < w2.lastBeacon + Span(k, w2.markers) + k.interval)
  {
    hide Span;
    SpanStep(k, w.markers);
    assert Span(k, 0) == 0 by {
      SpanNothing(k);
    }
  }

  lemma SpanNothing(k: Settings)
    ensures Span(k, 0) == 0
  {
  }

  lemma OneWayPass(k: Settings, start: nat, deadline: nat, w: Watch, poll: Poll)
    requires k.Valid() && OneWay(k, start, w) && w.end.None? && forall y :: y in poll.lines ==> Unconfirming(w, y)
    ensures var w2 := Pass(k, deadline, w, poll);
            && OneWay(k, start, w2)
            && (w2.end == Some(TimedOut) ==> w2.now >= deadline)
            && (w2.end.None? ==> w2.now > w.now)
  {
    hide Timers, HearAll, Span;
    HearingOneWay(k, start, w, poll.lines);
    OneWayTimers(k, start, HearAll(w, poll.lines));
  }

  lemma {:induction false} StaysOneWay(k: Settings, bits: Bits, start: nat, deadline: nat, polls: seq<Poll>)
    requires k.Valid() && Unreceipted(k, bits, start, deadline, polls)
    ensures var w := Session(k, bits, start, deadline, polls);
            && OneWay(k, start, w)
            && (w.end == Some(TimedOut) ==> w.now >= deadline)
            && (w.end.None? ==> w.now >= start + |polls|)
    decreases |polls|
  {
    hide Timers, HearAll, OneWay;
    if polls == [] {
      OneWayAtStart(k, bits, start);
    } else {
      var before, last := polls[..|polls| - 1], polls[|polls| - 1];
      UnreceiptedBefore(k, bits, start, deadline, polls);
      StaysOneWay(k, bits, start, deadline, before);
      var w := Session(k, bits, start, deadline, before);
      if w.end.None? {
        OneWayPass(k, start, deadline, w, last);
      }
    }
  }

  lemma OneWayAtStart(k: Settings, bits: Bits, start: nat)
    requires k.Valid()
    ensures OneWay(k, start, Start(bits, start))
  {
  }

  lemma OneWayInRounds(k: Settings, bits: Bits, start: nat, deadline: nat, polls: seq<Poll>)
    requires k.Valid() && Unreceipted(k, bits, start, deadline, polls)
    ensures var w := Session(k, bits, start, deadline, polls);
            && w.now < start + k.beaconInterval + k.slack + Span(k, k.retries + 2) && w.end != Some(Line)
            && (w.end == Some(TimedOut) ==> w.now >= deadline)
            && (w.end.None? ==> w.now >= start + |polls|)
  {
    hide Span, Session, Unreceipted;
    StaysOneWay(k, bits, start, deadline, polls);
    var w := Session(k, bits, start, deadline, polls);
    SpanStep(k, w.markers);
    SpanGrows(k, w.markers + 1, k.retries + 2);
  }

  /** A dead transmit direction is noticed even while the peer's beacons, its probes and stale answers keep coming in:
      within a beacon interval and retries + 2 rounds the call has ended, with the link declared lost or at its
      deadline. */
  lemma DeadTransmitIsNoticed(k: Settings, bits: Bits, start: nat, deadline: nat, polls: seq<Poll>)
    requires k.Valid() && Unreceipted(k, bits, start, deadline, polls)
    ensures var w := Session(k, bits, start, deadline, polls);
            var limit := k.beaconInterval + k.slack + (k.retries + 2) * (k.interval + k.slack);
            && w.now < start + limit
            && (w.end.Some? ==>
                  w.end.value.TxLost? || w.end.value.RxLost? || (w.end.value.TimedOut? && w.now >= deadline))
            && (|polls| >= limit ==> w.end.Some?)
  {
    hide *;
    OneWayInRounds(k, bits, start, deadline, polls);
    SpanMeans(k, k.retries + 2);
  }

  // ---- the loop itself ---------------------------------------------------------------------------

  class Link {
    const k: Settings
    var pingBit: nat
    var aytBit: nat
    var beaconBit: nat
    var peerBit: nat
    var now: nat
    var sent: seq<Sent>

    // Local variables of `recv_line`.
    var lastRx: nat
    var lastPing: nat
    var lastBeacon: nat
    var lastMark: nat
    var outstanding: Option<nat>
    var probes: nat
    var waiting: Option<nat>
    var markers: nat

    constructor (k: Settings)
      ensures this.k == k && pingBit == aytBit == beaconBit == peerBit == 0
    {
      this.k := k;
      pingBit, aytBit, beaconBit, peerBit := 0, 0, 0, 0;
    }

    ghost function View(end: Option<End>): Watch
      reads this
    {
      Watch(now, lastRx, lastPing, lastBeacon, lastMark, outstanding, probes, waiting, markers, pingBit, aytBit,
            beaconBit, peerBit, sent, end)
    }

    method Confirm()
      modifies this
      ensures View(None) == Confirmed(old(View(None)))
    {
      lastRx, outstanding, waiting, lastMark, markers := now, None, None, now, 0;
      pingBit, aytBit, beaconBit, lastBeacon := 0, 0, 0, now;
    }

    /** One line from the buffer; `text` if it is for the caller. */
    method HearLine(y: Signal) returns (text: bool)
      modifies this
      ensures View(if text then Some(Line) else None) == Hear(old(View(None)), y)
    {
      text := false;
      match y {
        case PeerBeacon(bit) =>
          lastRx, probes := now, 0;
          peerBit := if bit == peerBit then Flip(peerBit) else Flip(bit);
          sent := sent + [Mark(bit)];
        case Receipt(ours, bit) =>
          lastRx, probes := now, 0;
          if ours && waiting == Some(bit) {
            waiting, lastMark, markers, outstanding := None, now, 0, None;
          }
        case PingIn(id) =>
          if outstanding != Some(id) {
            sent := sent + [Pong(id)];
            lastRx, probes := now, 0;
          }
        case PongIn(id) =>
          if outstanding == Some(id) {
            Confirm();
            probes := 0;
          }
        case HereIn(id) =>
          if outstanding == Some(id) {
            Confirm();
            sent := sent + [AytOk(id)];
          }
        case Foreign =>
        case Text => text := true;
      }
    }

    /** The lines in the buffer, up to one for the caller. */
    method HearLines(lines: seq<Signal>) returns (text: bool)
      modifies this
      ensures View(if text then Some(Line) else None) == HearAll(old(View(None)), lines)
    {
      hide Hear;
      text := false;
      var i := 0;
      while i < |lines| && !text
        invariant 0 <= i <= |lines|
        invariant HearAll(View(if text then Some(Line) else None), lines[i..]) == HearAll(old(View(None)), lines)
      {
        text := HearLine(lines[i]);
        assert lines[i..][1..] == lines[i + 1..];
        i := i + 1;
      }
    }

    method WritePing()
      modifies this
      ensures View(None) == SendPing(old(View(None)))
    {
      outstanding := Some(pingBit);
      sent := sent + [Ping(pingBit, now)];
      pingBit := Flip(pingBit);
      lastPing := now;
    }

    method WriteAyt()
      modifies this
      ensures View(None) == SendAyt(old(View(None)))
    {
      outstanding := Some(aytBit);
      sent := sent + [Ayt(aytBit, now)];
      aytBit := Flip(aytBit);
      lastPing := now;
    }

    method CheckBeacon()
      modifies this
      ensures View(None) == BeaconTimer(k, old(View(None)))
    {
      if markers == 0 && waiting.None? && now - lastBeacon >= k.beaconInterval {
        waiting := Some(beaconBit);
        sent := sent + [Beacon(beaconBit, now)];
        beaconBit := Flip(beaconBit);
        lastBeacon := now;
      }
    }

    method CheckReceipt() returns (lost: Option<End>)
      modifies this
      ensures View(lost) == MarkTimer(k, old(View(None)))
    {
      if waiting.Some? && now - lastMark >= k.interval && now - lastPing >= k.interval {
        if markers >= k.retries + 1 {
          return Some(TxLost);
        }
        if markers < 2 {
          WritePing();
        } else {
          WriteAyt();
        }
        markers := markers + 1;
      }
      return None;
    }

    method CheckSilence() returns (lost: Option<End>)
      modifies this
      ensures View(lost) == IdleTimer(k, old(View(None)))
    {
      var idle := now - lastRx;
      if idle >= k.timeout && probes >= k.retries && now - lastPing >= k.interval {
        return Some(RxLost);
      }
      if idle >= k.interval && now - lastPing >= k.interval {
        if probes >= k.retries {
          return Some(RxLost);
        }
        WritePing();
        probes := probes + 1;
      }
      return None;
    }

    /** Beacon, probes for an unanswered beacon, probes for silence. */
    method CheckTimers() returns (lost: Option<End>)
      modifies this
      ensures View(lost) == Timers(k, old(View(None)))
    {
      hide BeaconTimer, MarkTimer, IdleTimer;
      CheckBeacon();
      lost := CheckReceipt();
      if lost.None? {
        lost := CheckSilence();
      }
    }

    method StartClocks()
      modifies this
      ensures View(None) == Start(old(Bits(pingBit, aytBit, beaconBit, peerBit)), old(now))
    {
      lastRx, lastPing, lastBeacon, lastMark := now, now, now, now;
      outstanding, probes, waiting, markers, sent := None, 0, None, 0, [];
    }

    /** `recv_line` with keep-alive, over a line that behaves like this; nothing is returned if it is still waiting at
        the end. */
    method RecvLine(timeout: nat, polls: seq<Poll>) returns (end: Option<End>)
      modifies this
      ensures View(end) ==
              Session(k, old(Bits(pingBit, aytBit, beaconBit, peerBit)), old(now), old(now) + timeout, polls)
    {
      var start, deadline := now, now + timeout;
      ghost var bits := Bits(pingBit, aytBit, beaconBit, peerBit);
      StartClocks();
      end := None;
      var i := 0;
      assert polls[..0] == [];
      hide Pass, Start;
      while i < |polls| && end.None?
        invariant 0 <= i <= |polls|
        invariant View(end) == Session(k, bits, start, deadline, polls[..i])
      {
        assert polls[..i + 1][..i] == polls[..i];
        end := RunPass(deadline, polls[i]);
        i := i + 1;
      }
      SessionEnds(k, bits, start, deadline, polls, i);
    }

    method RunPass(deadline: nat, poll: Poll) returns (end: Option<End>)
      modifies this
      ensures View(end) == Pass(k, deadline, old(View(None)), poll)
    {
      hide HearAll, Timers;
      var text := HearLines(poll.lines);
      if text {
        return Some(Line);
      }
      end := CheckTimers();
      if end.None? {
        if now >= deadline {
          return Some(TimedOut);
        }
        now := now + Max(1, Min(poll.gap, k.slack));
      }
    }
  }

  lemma {:induction false} SessionEnds(k: Settings, bits: Bits, start: nat, deadline: nat, polls: seq<Poll>, i: nat)
    requires i <= |polls| && (i < |polls| ==> Session(k, bits, start, deadline, polls[..i]).end.Some?)
    ensures Session(k, bits, start, deadline, polls) == Session(k, bits, start, deadline, polls[..i])
    decreases |polls|
  {
    hide Pass;
    if i < |polls| {
      var before := polls[..|polls| - 1];
      assert before[..i] == polls[..i];
      SessionEnds(k, bits, start, deadline, before, i);
    } else {
      assert polls[..i] == polls;
    }
  }
}
