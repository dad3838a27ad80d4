/**
  Keep-alive with a watch at each end of one line: what one end writes, the other hears and answers. On a sound line
  neither end may declare it lost.
*/
module KeepAlivePair {
  import opened Basics
  import opened KeepAlive
  import Framing
  import Text

  // ---- the lines as text ------------------------------------------------------------------

  /** A line as `recv_line` words it at the end that sends as `tx` and hears `rx`. */
  function Worded(x: Sent, tx: string, rx: string): string {
    match x
    case Beacon(bit, _) => Text.Joined(["BEACON", tx, Text.Decimal(bit)])
    case Ping(id, _) => Text.Joined(["PING", Text.Decimal(id)])
    case Ayt(id, _) => Text.Joined(["AYT?", Text.Decimal(id)])
    case Pong(id) => Text.Joined(["PONG", Text.Decimal(id)])
    case Mark(bit) => Text.Joined(["MARK", tx, rx, Text.Decimal(bit)])
    case AytOk(id) => Text.Joined(["AYT-OK", Text.Decimal(id)])
  }

  predicate IsHere(parts: seq<string>) {
    |parts| == 3 && parts[0] == "HERE" && parts[1] in {"0", "1"} && Text.IsDecimal(parts[2])
  }

  function Bit(word: string): nat {
    if word == "1" then 1 else 0
  }

  /** How `recv_line` with keep-alive sorts a line. */
  function Sorted(line: string, tx: string, rx: string): Signal {
    var parts := Text.Words(line);
    if Framing.IsBeacon(parts) then if parts[1] == rx then PeerBeacon(Bit(parts[2])) else Foreign
    else if Framing.IsMarker(parts) then
      if parts[1] == rx then Receipt(parts[2] == tx, Bit(parts[3])) else Foreign
    else if Framing.IsPing(parts) then PingIn(Text.Number(parts[1]))
    else if Framing.IsPong(parts) then PongIn(Text.Number(parts[1]))
    else if IsHere(parts) then HereIn(Bit(parts[1]))
    else Signal.Text
  }

  /** What a line is for the other end. AYT? and AYT-OK are for its caller. */
  function AsHeard(x: Sent): Signal {
    match x
    case Beacon(bit, _) => PeerBeacon(bit)
    case Mark(bit) => Receipt(true, bit)
    case Ping(id, _) => PingIn(id)
    case Pong(id) => PongIn(id)
    case Ayt(_, _) => Signal.Text
    case AytOk(_) => Signal.Text
  }

  lemma PlainWords(tx: string, rx: string, n: nat)
    requires tx in {"U", "P"} && rx in {"U", "P"}
    ensures Text.IsWord(tx) && Text.IsWord(rx) && Text.IsWord(Text.Decimal(n))
    ensures Text.IsDecimal(Text.Decimal(n)) && Text.Number(Text.Decimal(n)) == n
    ensures n < 2 ==> Text.Decimal(n) == (if n == 0 then "0" else "1")
  {
    Text.DecimalReadsBack(n);
  }

  /** Every line is heard at the other end, which sends as `rx` and hears `tx`, as what it is. */
  lemma WordedIsHeard(x: Sent, tx: string, rx: string)
    requires tx in {"U", "P"} && rx in {"U", "P"} && tx != rx
    requires x.Beacon? || x.Mark? ==> x.bit < 2
    ensures Sorted(Worded(x, tx, rx), rx, tx) == AsHeard(x)
  {
    hide Text.Words, Text.Joined, Text.Decimal, Text.Number, Text.IsDecimal;
    PlainWords(tx, rx, if x.Beacon? || x.Mark? then x.bit else x.id);
    match x
    case Beacon(bit, _) => Text.WordsOfJoined(["BEACON", tx, Text.Decimal(bit)]);
    case Ping(id, _) => Text.WordsOfJoined(["PING", Text.Decimal(id)]);
    case Ayt(id, _) => Text.WordsOfJoined(["AYT?", Text.Decimal(id)]);
    case Pong(id) => Text.WordsOfJoined(["PONG", Text.Decimal(id)]);
    case Mark(bit) => Text.WordsOfJoined(["MARK", tx, rx, Text.Decimal(bit)]);
    case AytOk(id) => Text.WordsOfJoined(["AYT-OK", Text.Decimal(id)]);
  }

  // ---- one question, one answer -------------------------------------------------------------

  /** A beacon that one end waits for is answered by the other, whatever that is doing, with the line that ends the
      wait. */
  lemma BeaconIsReceipted(a: Watch, b: Watch, bit: nat, at: nat)
    requires a.waiting == Some(bit)
    ensures var b2 := Hear(b, AsHeard(Beacon(bit, at)));
            && |b2.sent| == |b.sent| + 1 && b2.sent[..|b.sent|] == b.sent
            && Hear(a, AsHeard(b2.sent[|b.sent|])).waiting == None
  {
  }

  /** A probe that one end has outstanding is answered by the other with the line that settles it, exactly unless that
      end has a probe with the same id outstanding itself: then it takes the probe for its own coming back. */
  lemma ProbeIsAnswered(a: Watch, b: Watch, id: nat, at: nat)
    requires a.outstanding == Some(id)
    ensures var b2 := Hear(b, AsHeard(Ping(id, at)));
            if b.outstanding == Some(id) then b2 == b
            else
              && |b2.sent| == |b.sent| + 1 && b2.sent[..|b.sent|] == b.sent
              && var a2 := Hear(a, AsHeard(b2.sent[|b.sent|])); a2.outstanding == None && a2.waiting == None
  {
  }

  // ---- two watches on one line -----------------------------------------------------------------

  datatype Side = Side(k: Settings, deadline: nat, w: Watch)

  /** A line on its way, and when it was written. */
  datatype Stamped = Stamped(line: Sent, at: nat)

  datatype Pair = Pair(a: Side, b: Side, toA: seq<Stamped>, toB: seq<Stamped>)

  /** One pass of the waiting loop of one end: how many lines it finds in its buffer, and how long its read takes. */
  datatype Turn = Turn(atA: bool, heard: nat, gap: nat)

  function Signals(q: seq<Stamped>): seq<Signal> {
    if q == [] then [] else [AsHeard(q[0].line)] + Signals(q[1..])
  }

  function Stamps(lines: seq<Sent>, at: nat): seq<Stamped> {
    seq(|lines|, i requires 0 <= i < |lines| => Stamped(lines[i], at))
  }

  /** What has been written since. */
  function Written(before: Watch, after: Watch): seq<Sent> {
    if |before.sent| <= |after.sent| then after.sent[|before.sent|..] else []
  }

  /** Every line that is `d` ticks old has arrived. */
  predicate Prompt(q: seq<Stamped>, heard: nat, now: nat, d: nat) {
    heard <= |q| && forall i :: heard <= i < |q| ==> now < q[i].at + d
  }

  function Mirror(st: Pair): Pair {
    Pair(st.b, st.a, st.toB, st.toA)
  }

  /** A pass of the first end. While both wait, the one whose clock is behind is next. */
  function NextA(d: nat, st: Pair, turn: Turn): Option<Pair> {
    var w := st.a.w;
    if w.end.Some? || st.b.w.end.Some? || w.now > st.b.w.now || !Prompt(st.toA, turn.heard, w.now, d) then None
    else
      var w2 := Pass(st.a.k, st.a.deadline, w, Poll(Signals(st.toA[..turn.heard]), turn.gap));
      Some(Pair(st.a.(w := w2), st.b, st.toA[turn.heard..], st.toB + Stamps(Written(w, w2), w.now)))
  }

  function Next(d: nat, st: Pair, turn: Turn): Option<Pair> {
    if turn.atA then NextA(d, st, turn)
    else
      match NextA(d, Mirror(st), turn)
      case None => None
      case Some(st2) => Some(Mirror(st2))
  }

  function Exec(d: nat, start: Pair, turns: seq<Turn>): Option<Pair> {
    if turns == [] then Some(start)
    else
      match Exec(d, start, turns[..|turns| - 1])
      case None => None
      case Some(st) => Next(d, st, turns[|turns| - 1])
  }

  /** Both ends begin to wait at the same time, and nothing is on the line. */
  predicate Begins(st: Pair, start: nat) {
    st.toA == [] && st.toB == [] && Started(st.a.w, start) && Started(st.b.w, start)
  }

  predicate Started(w: Watch, start: nat) {
    w == Start(Bits(w.pingBit, w.aytBit, w.beaconBit, w.peerBit), start)
  }

  predicate Lost(w: Watch) {
    w.end == Some(TxLost) || w.end == Some(RxLost)
  }

  // ---- what each end knows -------------------------------------------------------------------------

  /** The clocks of one end. Probes are counted from what was last heard, and from the beacon that is waited for;
      without one, the last beacon is no younger than what was last heard. */
  ghost predicate Timed(k: Settings, w: Watch) {
    && w.lastMark <= w.lastRx <= w.now && w.lastPing <= w.now && w.lastBeacon <= w.now
    && (w.probes > 0 ==> w.lastPing >= w.lastRx + Pace(k, w.probes))
    && (w.markers > 0 ==> w.waiting.Some? && w.lastPing >= w.lastBeacon + Pace(k, w.markers - 1))
    && (w.waiting.None? ==> w.lastBeacon <= w.lastRx)
  }

  lemma HearIsTimed(k: Settings, w: Watch, y: Signal)
    requires Timed(k, w) && !y.HereIn?
    ensures var w2 := Hear(w, y);
            && Timed(k, w2) && w2.now == w.now
            && (w2.waiting.Some? ==> w2.waiting == w.waiting && w2.lastBeacon == w.lastBeacon)
  {
    hide Pace;
  }

  /** Time enough: a beacon is due before the probes for silence are used up, and its receipt comes before the probes
      for the receipt are. `d` is how long a line is under way, `slack` how rarely the other end looks. */
  predicate Ample(k: Settings, d: nat, slack: nat) {
    k.Valid() && k.beaconInterval <= Pace(k, k.retries + 1) && 2 * d + slack <= Pace(k, k.retries + 1) + 1
  }

  lemma PaceNothing(k: Settings)
    ensures Pace(k, 0) == 0 && Pace(k, 1) == k.interval
  {
  }

  lemma BeaconIsTimed(k: Settings, w: Watch)
    requires k.Valid() && Timed(k, w) && w.end.None?
    ensures var w2 := BeaconTimer(k, w);
            && w2.end.None? && Timed(k, w2) && w2.now == w.now && w2.lastRx == w.lastRx
            && (if w2.sent == w.sent then w2 == w
                else w2.sent == w.sent + [Beacon(w.beaconBit, w.now)]
                     && w2.waiting == Some(w.beaconBit) && w2.lastBeacon == w.now)
            && (w2.waiting.None? ==> w2.now < w2.lastBeacon + k.beaconInterval)
  {
    hide Pace;
  }

  lemma MarkIsTimed(k: Settings, w: Watch)
    requires k.Valid() && Timed(k, w) && w.end.None?
    requires w.waiting.Some? ==> w.now < w.lastBeacon + Pace(k, k.retries + 1)
    ensures var w2 := MarkTimer(k, w);
            && w2.end.None? && Timed(k, w2) && w2.now == w.now && w2.lastRx == w.lastRx && w.sent <= w2.sent
            && w2.waiting == w.waiting && w2.lastBeacon == w.lastBeacon
            && (w2.waiting.Some? && w2.now >= w2.lastRx + k.interval ==> w2.now < w2.lastPing + k.interval)
  {
    hide Pace;
    PaceNothing(k);
    PaceStep(k, k.retries);
    if w.markers > 0 {
      PaceStep(k, w.markers - 1);
      if w.markers >= k.retries + 1 {
        PaceGrows(k, k.retries, w.markers - 1);
      }
    }
  }

  lemma IdleIsTimed(k: Settings, w: Watch)
    requires k.Valid() && Timed(k, w) && w.end.None? && k.beaconInterval <= Pace(k, k.retries + 1)
    requires w.waiting.None? ==> w.now < w.lastBeacon + k.beaconInterval
    requires w.waiting.Some? && w.now >= w.lastRx + k.interval ==> w.now < w.lastPing + k.interval
    ensures var w2 := IdleTimer(k, w);
            && w2.end.None? && Timed(k, w2) && w2.now == w.now && w.sent <= w2.sent
            && w2.waiting == w.waiting && w2.lastBeacon == w.lastBeacon
  {
    hide Pace;
    PaceNothing(k);
    PaceStep(k, w.probes);
    PaceStep(k, k.retries);
    if w.probes >= k.retries {
      PaceGrows(k, k.retries, w.probes);
    }
  }

  lemma TimersAreTimed(k: Settings, w: Watch)
    requires k.Valid() && Timed(k, w) && w.end.None? && k.beaconInterval <= Pace(k, k.retries + 1)
    requires w.waiting.Some? ==> w.now < w.lastBeacon + Pace(k, k.retries + 1)
    ensures var w2 := Timers(k, w);
            && w2.end.None? && Timed(k, w2) && w2.now == w.now && w.sent <= w2.sent
            && (w2.waiting.Some? ==>
                  || (w2.waiting == w.waiting && w2.lastBeacon == w.lastBeacon)
                  || (w2.lastBeacon == w.now && Beacon(w2.waiting.value, w.now) in Written(w, w2)))
  {
    hide Pace, BeaconTimer, MarkTimer, IdleTimer, Timed;
    BeaconIsTimed(k, w);
    var w1 := BeaconTimer(k, w);
    PaceNothing(k);
    PaceGrows(k, 1, k.retries + 1);
    MarkIsTimed(k, w1);
    IdleIsTimed(k, MarkTimer(k, w1));
    if w1.sent != w.sent {
      assert w1.sent[|w.sent|] == Beacon(w.beaconBit, w.now);
      assert Timers(k, w).sent[|w.sent|] == w1.sent[|w.sent|];
    }
  }

  // ---- beacons and receipts on their way ----------------------------------------------------------------

  /** The beacon that `x` waits for is still on its way to the other end, or its receipt is on its way back. */
  ghost predicate Awaited(d: nat, w: Watch, slack: nat, toX: seq<Stamped>, toY: seq<Stamped>)
    requires w.waiting.Some?
  {
    || Stamped(Beacon(w.waiting.value, w.lastBeacon), w.lastBeacon) in toY
    || exists h: nat :: h < w.lastBeacon + d + slack && Stamped(Mark(w.waiting.value), h) in toX
  }

  /** What is known of one end: its clocks, how old the lines toward it can be, and where its beacon is. */
  ghost predicate Half(d: nat, x: Side, y: Side, toX: seq<Stamped>, toY: seq<Stamped>) {
    && Timed(x.k, x.w) && x.w.now <= y.w.now + x.k.slack
    && (forall s :: s in toX ==> x.w.now < s.at + d + x.k.slack)
    && (x.w.waiting.Some? ==> Awaited(d, x.w, y.k.slack, toX, toY))
  }

  ghost predicate Sound(d: nat, st: Pair) {
    Half(d, st.a, st.b, st.toA, st.toB) && Half(d, st.b, st.a, st.toB, st.toA)
  }

  /** One line heard by the first end. */
  function HeardOne(st: Pair): Pair
    requires st.toA != []
  {
    var w2 := Hear(st.a.w, AsHeard(st.toA[0].line));
    Pair(st.a.(w := w2), st.b, st.toA[1..], st.toB + Stamps(Written(st.a.w, w2), st.a.w.now))
  }

  lemma HearWrites(w: Watch, y: Signal)
    ensures w.sent <= Hear(w, y).sent
    ensures Written(w, Hear(w, y)) ==
            match y
            case PeerBeacon(bit) => [Mark(bit)]
            case PingIn(id) => if w.outstanding == Some(id) then [] else [Pong(id)]
            case HereIn(id) => if w.outstanding == Some(id) then [AytOk(id)] else []
            case _ => []
  {
  }

  lemma ListenerKeeps(d: nat, st: Pair)
    requires d >= 1 && Sound(d, st) && st.toA != []
    ensures var st2 := HeardOne(st); Half(d, st2.a, st2.b, st2.toA, st2.toB)
  {
    var y := AsHeard(st.toA[0].line);
    HearIsTimed(st.a.k, st.a.w, y);
    hide Timed, Stamps, Written;
    var w2 := Hear(st.a.w, y);
    assert forall s :: s in st.toA <==> s == st.toA[0] || s in st.toA[1..];
    if w2.waiting.Some? {
      assert Awaited(d, st.a.w, st.b.k.slack, st.toA, st.toB);
    }
  }

  lemma SpeakerKeeps(d: nat, st: Pair)
    requires d >= 1 && Sound(d, st) && st.toA != []
    ensures var st2 := HeardOne(st); Half(d, st2.b, st2.a, st2.toB, st2.toA)
  {
    var y := AsHeard(st.toA[0].line);
    HearIsTimed(st.a.k, st.a.w, y);
    HearWrites(st.a.w, y);
    hide Timed, Written, Hear;
    var w2 := Hear(st.a.w, y);
    var more := Stamps(Written(st.a.w, w2), st.a.w.now);
    assert forall s :: s in more ==> s.at == st.a.w.now;
    assert forall s :: s in st.toA <==> s == st.toA[0] || s in st.toA[1..];
    if st.b.w.waiting.Some? {
      var bit, tb := st.b.w.waiting.value, st.b.w.lastBeacon;
      if st.toA[0] == Stamped(Beacon(bit, tb), tb) {
        assert more[0] == Stamped(Mark(bit), st.a.w.now);
      }
    }
  }

  /** The first `n` lines heard by the first end. */
  function HeardAll(st: Pair, n: nat): Pair
    requires n <= |st.toA|
  {
    var w2 := HearAll(st.a.w, Signals(st.toA[..n]));
    Pair(st.a.(w := w2), st.b, st.toA[n..], st.toB + Stamps(Written(st.a.w, w2), st.a.w.now))
  }

  lemma {:induction false} HearAllGrows(w: Watch, lines: seq<Signal>)
    ensures w.sent <= HearAll(w, lines).sent && HearAll(w, lines).now == w.now
    ensures w.end.None? ==> !Lost(HearAll(w, lines))
    decreases |lines|
  {
    if lines != [] && w.end.None? {
      HearWrites(w, lines[0]);
      HearAllGrows(Hear(w, lines[0]), lines[1..]);
    }
  }

  lemma WrittenAdds(a: Watch, b: Watch, c: Watch, at: nat)
    requires a.sent <= b.sent <= c.sent
    ensures Stamps(Written(a, c), at) == Stamps(Written(a, b), at) + Stamps(Written(b, c), at)
  {
    assert Written(a, c) == Written(a, b) + Written(b, c);
  }

  lemma WrittenNothing(w: Watch, at: nat)
    ensures Stamps(Written(w, w), at) == []
  {
  }

  lemma TakeDrop<T>(q: seq<T>, n: nat)
    requires 0 < n <= |q|
    ensures q[..n][1..] == q[1..][..n - 1] && q[1..][n - 1..] == q[n..] && q[..n][0] == q[0]
  {
  }

  lemma SignalsFirst(q: seq<Stamped>)
    requires q != []
    ensures Signals(q) != [] && Signals(q)[0] == AsHeard(q[0].line) && Signals(q)[1..] == Signals(q[1..])
  {
  }

  lemma HearAllFirst(w: Watch, lines: seq<Signal>)
    requires lines != [] && w.end.None?
    ensures HearAll(w, lines) == HearAll(Hear(w, lines[0]), lines[1..])
  {
  }

  /** Hearing line by line is hearing all of them. */
  lemma HeardAllOne(st: Pair, n: nat)
    requires 0 < n <= |st.toA| && st.a.w.end.None?
    ensures HeardAll(st, n) == HeardAll(HeardOne(st), n - 1)
  {
    var w1 := Hear(st.a.w, AsHeard(st.toA[0].line));
    var q := st.toA[..n];
    TakeDrop(st.toA, n);
    SignalsFirst(q);
    HearAllFirst(st.a.w, Signals(q));
    HearWrites(st.a.w, AsHeard(st.toA[0].line));
    HearAllGrows(w1, Signals(q[1..]));
    WrittenAdds(st.a.w, w1, HearAll(w1, Signals(q[1..])), st.a.w.now);
    hide Stamps, Written, Hear, HearAll, Signals, AsHeard;
    AddTwice(st.toB, Stamps(Written(st.a.w, w1), st.a.w.now),
             Stamps(Written(w1, HearAll(w1, Signals(q[1..]))), st.a.w.now));
  }

  lemma AddTwice<T>(q: seq<T>, x: seq<T>, y: seq<T>)
    ensures q + (x + y) == q + x + y
  {
  }

  lemma {:induction false} HeardAllKeeps(d: nat, st: Pair, n: nat)
    requires d >= 1 && Sound(d, st) && n <= |st.toA| && st.a.w.end.None?
    ensures HeardAll(st, n).a.w.end.None? ==> Sound(d, HeardAll(st, n))
    decreases n
  {
    if n == 0 {
      WrittenNothing(st.a.w, st.a.w.now);
      assert HeardAll(st, 0) == st;
    } else {
      HeardAllOne(st, n);
      ListenerKeeps(d, st);
      SpeakerKeeps(d, st);
      hide Half, HeardAll;
      if HeardOne(st).a.w.end.None? {
        HeardAllKeeps(d, HeardOne(st), n - 1);
      } else {
        EndStays(HeardOne(st), n - 1);
      }
    }
  }

  lemma EndStays(st: Pair, n: nat)
    requires n <= |st.toA| && st.a.w.end.Some?
    ensures HeardAll(st, n).a.w.end.Some?
  {
  }

  // ---- a pass ----------------------------------------------------------------------------------------

  /** Once everything that is `d` ticks old has been heard, a beacon that still waits is young. */
  lemma WaitIsYoung(d: nat, st: Pair, n: nat)
    requires d >= 1 && Sound(d, st) && st.a.w.now <= st.b.w.now && Prompt(st.toA, 0, st.a.w.now, d)
    requires 2 * d + st.b.k.slack <= Pace(st.a.k, n) + 1 && st.a.w.waiting.Some?
    ensures st.a.w.now < st.a.w.lastBeacon + Pace(st.a.k, n)
  {
    hide Timed, Pace;
  }

  /** The timers, and then the clock. */
  lemma TimersKeep(d: nat, st: Pair, w2: Watch, later: nat)
    requires d >= 1 && Sound(d, st) && st.a.w.now <= st.b.w.now && Prompt(st.toA, 0, st.a.w.now, d)
    requires Ample(st.a.k, d, st.b.k.slack) && st.a.w.end.None? && w2 == Timers(st.a.k, st.a.w)
    requires st.a.w.now <= later <= st.a.w.now + st.a.k.slack
    ensures w2.end.None?
    ensures Sound(d, Pair(st.a.(w := w2.(now := later)), st.b, st.toA,
                          st.toB + Stamps(Written(st.a.w, w2), st.a.w.now)))
  {
    if st.a.w.waiting.Some? {
      WaitIsYoung(d, st, st.a.k.retries + 1);
    }
    TimersAreTimed(st.a.k, st.a.w);
    hide Pace, Timers, Written;
    var more := Stamps(Written(st.a.w, w2), st.a.w.now);
    assert forall s :: s in more ==> s.at == st.a.w.now;
    StampsHold(Written(st.a.w, w2), st.a.w.now);
    hide Stamps;
    assert Half(d, st.b, st.a.(w := w2.(now := later)), st.toB + more, st.toA);
    if w2.waiting.Some? && w2.waiting == st.a.w.waiting && w2.lastBeacon == st.a.w.lastBeacon {
      assert Awaited(d, st.a.w, st.b.k.slack, st.toA, st.toB);
    }
  }

  lemma StampsHold(lines: seq<Sent>, at: nat)
    ensures forall x :: x in lines ==> Stamped(x, at) in Stamps(lines, at)
  {
    forall x | x in lines
      ensures Stamped(x, at) in Stamps(lines, at)
    {
      var i :| 0 <= i < |lines| && lines[i] == x;
      assert Stamps(lines, at)[i] == Stamped(x, at);
    }
  }

  /** A pass is hearing, timers, and the clock. */
  lemma PassIs(d: nat, st: Pair, turn: Turn)
    requires NextA(d, st, turn).Some?
    ensures turn.heard <= |st.toA| && st.a.w.now <= st.b.w.now && st.a.w.end.None? && st.b.w.end.None?
    ensures Prompt(st.toA[turn.heard..], 0, st.a.w.now, d)
    ensures var st1, st2 := HeardAll(st, turn.heard), NextA(d, st, turn).value;
            var w2 := Timers(st.a.k, st1.a.w);
            && st2.a.k == st.a.k && st2.b == st.b && st1.a.w.now == st.a.w.now && st1.a.k == st.a.k && st1.b == st.b
            && st1.toA == st.toA[turn.heard..]
            && if st1.a.w.end.Some? then st2.a.w == st1.a.w && !Lost(st1.a.w)
               else if w2.end.Some? then st2.a.w == w2
               else if w2.now >= st.a.deadline then st2.a.w.end == Some(TimedOut)
               else
                 && w2.now < st2.a.w.now <= w2.now + Max(1, st.a.k.slack)
                 && st2 == Pair(st1.a.(w := w2.(now := st2.a.w.now)), st1.b, st1.toA,
                                st1.toB + Stamps(Written(st1.a.w, w2), st1.a.w.now))
  {
    var w := st.a.w;
    var q := Signals(st.toA[..turn.heard]);
    HearAllGrows(w, q);
    var w1 := HearAll(w, q);
    var w2 := Timers(st.a.k, w1);
    TimersGrow(st.a.k, w1);
    WrittenAdds(w, w1, w2, w.now);
    assert Written(w, w2.(now := NextA(d, st, turn).value.a.w.now)) == Written(w, w2);
    hide HearAll, Timers, Signals, Stamps, Written;
    AddTwice(st.toB, Stamps(Written(w, w1), w.now), Stamps(Written(w1, w2), w.now));
  }

  lemma TimersGrow(k: Settings, w: Watch)
    ensures w.sent <= Timers(k, w).sent && Timers(k, w).now == w.now
  {
  }

  lemma NextKeepsSound(d: nat, st: Pair, turn: Turn)
    requires d >= 1 && Sound(d, st) && NextA(d, st, turn).Some? && Ample(st.a.k, d, st.b.k.slack)
    ensures var st2 := NextA(d, st, turn).value;
            !Lost(st2.a.w) && (st2.a.w.end.None? ==> Sound(d, st2)) && st2.a.k == st.a.k && st2.b == st.b
  {
    hide Sound, NextA, HeardAll, Timers, Written, Stamps;
    PassIs(d, st, turn);
    HeardAllKeeps(d, st, turn.heard);
    var st1 := HeardAll(st, turn.heard);
    TimersGrow(st.a.k, st1.a.w);
    if st1.a.w.end.None? {
      var w2 := NextA(d, st, turn).value.a.w;
      TimersKeep(d, st1, Timers(st.a.k, st1.a.w), if w2.end.None? then w2.now else st1.a.w.now);
    }
  }

  // ---- a sound line -----------------------------------------------------------------------------------------

  lemma Begun(d: nat, st: Pair, start: nat)
    requires Begins(st, start)
    ensures Sound(d, st)
  {
  }

  lemma {:induction false} RunIsSound(d: nat, start: Pair, t0: nat, turns: seq<Turn>)
    requires d >= 1 && Begins(start, t0) && Exec(d, start, turns).Some?
    requires Ample(start.a.k, d, start.b.k.slack) && Ample(start.b.k, d, start.a.k.slack)
    ensures var st := Exec(d, start, turns).value;
            && !Lost(st.a.w) && !Lost(st.b.w) && st.a.k == start.a.k && st.b.k == start.b.k
            && (st.a.w.end.None? && st.b.w.end.None? ==> Sound(d, st))
    decreases |turns|
  {
    hide NextA, Sound, Ample;
    if turns == [] {
      Begun(d, start, t0);
    } else {
      var before, turn := turns[..|turns| - 1], turns[|turns| - 1];
      RunIsSound(d, start, t0, before);
      var st := Exec(d, start, before).value;
      var st1 := if turn.atA then st else Mirror(st);
      SoundMirrors(d, st);
      BothWait(d, st1, turn);
      NextKeepsSound(d, st1, turn);
      SoundMirrors(d, NextA(d, st1, turn).value);
    }
  }

  lemma SoundMirrors(d: nat, st: Pair)
    ensures Sound(d, Mirror(st)) == Sound(d, st)
  {
    hide Half;
  }

  lemma BothWait(d: nat, st: Pair, turn: Turn)
    requires NextA(d, st, turn).Some?
    ensures st.a.w.end.None? && st.b.w.end.None?
  {
  }

  /** A sound line is never declared lost. Two ends wait for each other; every line arrives within `d` ticks, and each
      end looks at least every `slack` ticks. If the first probe for silence cannot be the last before a beacon is
      due, and twice the delay with the other end's slack fits into the probes for a receipt, then neither end ever
      reports a lost direction. Both hold when a beacon is due within the interval and the delay and the slack
      together are no longer than it. */
  lemma SoundLineIsNeverLost(d: nat, start: Pair, t0: nat, turns: seq<Turn>)
    requires d >= 1 && Begins(start, t0) && Exec(d, start, turns).Some? && start.a.k.Valid() && start.b.k.Valid()
    requires start.a.k.beaconInterval <= (start.a.k.retries + 1) * start.a.k.interval
    requires start.b.k.beaconInterval <= (start.b.k.retries + 1) * start.b.k.interval
    requires 2 * d + start.b.k.slack <= (start.a.k.retries + 1) * start.a.k.interval + 1
    requires 2 * d + start.a.k.slack <= (start.b.k.retries + 1) * start.b.k.interval + 1
    ensures var st := Exec(d, start, turns).value; !Lost(st.a.w) && !Lost(st.b.w)
  {
    PaceMeans(start.a.k, start.a.k.retries + 1);
    PaceMeans(start.b.k, start.b.k.retries + 1);
    hide Pace, Exec, Begins;
    RunIsSound(d, start, t0, turns);
  }

  // ---- when beacons are too rare --------------------------------------------------------------------------------

  /** One end after nothing but its own probes coming back: `lastPing` is that many intervals after the start. */
  ghost predicate Idle(k: Settings, w: Watch, start: nat) {
    && w.lastRx == w.lastBeacon == w.lastMark == start && w.waiting.None? && w.markers == 0 && w.end.None?
    && w.probes <= k.retries && w.lastPing == start + Pace(k, w.probes) <= w.now <= w.lastPing + k.interval
  }

  /** Both ends have done the same, and a probe of each is on its way to the other at most. */
  ghost predicate Crossed(k: Settings, deadline: nat, st: Pair, start: nat) {
    && st.a == st.b && st.a.k == k && st.a.deadline == deadline && Idle(k, st.a.w, start) && st.toA == st.toB
    && |st.toA| <= 1
    && forall s :: s in st.toA ==> s.line.Ping? && st.a.w.outstanding == Some(s.line.id) && s.at < st.a.w.now
  }

  lemma EchoIsIgnored(w: Watch, q: seq<Stamped>)
    requires |q| <= 1 && w.end.None?
    requires forall s :: s in q ==> s.line.Ping? && w.outstanding == Some(s.line.id)
    ensures HearAll(w, Signals(q)) == w
  {
    if q != [] {
      assert q[0] in q;
      assert Signals(q) == [PingIn(q[0].line.id)] && Signals(q)[1..] == [];
    }
  }

  /** The timers of an idle end: nothing, a probe, or the end. */
  lemma IdleTimers(k: Settings, w: Watch, start: nat)
    requires k.Valid() && Idle(k, w, start) && w.now <= start + Pace(k, k.retries + 1) < start + k.beaconInterval
    ensures var w2 := Timers(k, w);
            if w.now < w.lastPing + k.interval then w2 == w
            else if w.probes == k.retries then w2 == w.(end := Some(RxLost))
            else w2 == SendPing(w).(probes := w.probes + 1)
  {
    hide Pace;
    assert BeaconTimer(k, w) == w;
    assert MarkTimer(k, w) == w;
    if w.now >= w.lastPing + k.interval {
      assert w.now - w.lastRx >= k.interval;
    }
  }

  lemma IdleStays(k: Settings, w: Watch, start: nat)
    requires k.Valid() && Idle(k, w, start)
    ensures w.now < w.lastPing + k.interval ==>
              Idle(k, w.(now := w.now + 1), start) && w.now + 1 <= start + Pace(k, k.retries + 1)
    ensures w.now == w.lastPing + k.interval && w.probes < k.retries ==>
              var w2 := SendPing(w).(probes := w.probes + 1);
              Idle(k, w2.(now := w2.now + 1), start) && w.now + 1 <= start + Pace(k, k.retries + 1)
  {
    hide Pace;
    PaceStep(k, w.probes);
    PaceStep(k, w.probes + 1);
    PaceGrows(k, w.probes + 1, k.retries + 1);
    if w.probes < k.retries {
      PaceGrows(k, w.probes + 2, k.retries + 1);
    }
  }

  /** One pass of an idle end that hears nothing but its own probe, as it takes it. */
  lemma IdlePass(k: Settings, deadline: nat, w: Watch, start: nat, q: seq<Stamped>)
    requires k.Valid() && Idle(k, w, start) && w.now <= start + Pace(k, k.retries + 1) < start + k.beaconInterval
    requires deadline > start + Pace(k, k.retries + 1)
    requires |q| <= 1 && forall s :: s in q ==> s.line.Ping? && w.outstanding == Some(s.line.id)
    ensures var w2 := Pass(k, deadline, w, Poll(Signals(q), 1));
            || w2.end == Some(RxLost)
            || (&& Idle(k, w2, start) && w2.now == w.now + 1 && w2.now <= start + Pace(k, k.retries + 1)
                && (w2.sent == w.sent || w2.sent == w.sent + [Ping(w.pingBit, w.now)])
                && w2.outstanding == if w2.sent == w.sent then w.outstanding else Some(w.pingBit))
  {
    EchoIsIgnored(w, q);
    IdleTimers(k, w, start);
    IdleStays(k, w, start);
    assert w.end.None? && w.now <= w.lastPing + k.interval;
    hide Pace, HearAll, Signals, Timers, Idle;
  }

  /** Both ends take a turn; neither hears what the other writes in it. */
  lemma CrossedRound(d: nat, k: Settings, deadline: nat, st: Pair, start: nat) returns (turns: seq<Turn>)
    requires d >= 1 && k.Valid() && k.beaconInterval > Pace(k, k.retries + 1)
    requires deadline > start + Pace(k, k.retries + 1) && Crossed(k, deadline, st, start)
    requires st.a.w.now <= start + Pace(k, k.retries + 1)
    ensures Exec(d, st, turns).Some?
    ensures var st2 := Exec(d, st, turns).value;
            || st2.a.w.end == Some(RxLost)
            || (Crossed(k, deadline, st2, start) && st2.a.w.now == st.a.w.now + 1 <= start + Pace(k, k.retries + 1))
  {
    var w, q := st.a.w, st.toA;
    IdlePass(k, deadline, w, start, q);
    var w2 := Pass(k, deadline, w, Poll(Signals(q), 1));
    var mine := Turn(true, |q|, 1);
    var yours := Turn(false, |q|, 1);
    assert q[..|q|] == q;
    var st1 := Pair(st.a.(w := w2), st.b, q[|q|..], st.toB + Stamps(Written(w, w2), w.now));
    assert Next(d, st, mine) == Some(st1);
    ExecTwo(d, st, mine, yours);
    if w2.end == Some(RxLost) {
      turns := [mine];
    } else {
      turns := [mine, yours];
      hide Pace, Idle, Pass, Signals;
      var more := Stamps(Written(w, w2), w.now);
      assert (q + more)[..|q|] == q && (q + more)[|q|..] == more && q[|q|..] == [];
      assert [] + more == more;
      assert Next(d, st1, yours) == Some(Pair(st1.a, st1.a, more, more));
    }
  }

  lemma ExecTwo(d: nat, st: Pair, x: Turn, y: Turn)
    ensures Exec(d, st, [x]) == Next(d, st, x)
    ensures Exec(d, st, [x, y]) == match Next(d, st, x) case None => None case Some(st1) => Next(d, st1, y)
  {
    hide Next;
    assert [x][..0] == [] && [x, y][..1] == [x];
  }

  lemma {:induction false} ExecJoins(d: nat, st: Pair, before: seq<Turn>, after: seq<Turn>)
    requires Exec(d, st, before).Some?
    ensures Exec(d, st, before + after) == Exec(d, Exec(d, st, before).value, after)
    decreases |after|
  {
    hide Next;
    if after == [] {
      assert before + after == before;
    } else {
      var rest := after[..|after| - 1];
      assert (before + after)[..|before + after| - 1] == before + rest;
      ExecJoins(d, st, before, rest);
    }
  }

  lemma {:induction false} CrossedLoses(d: nat, k: Settings, deadline: nat, st: Pair, start: nat)
    returns (turns: seq<Turn>)
    requires d >= 1 && k.Valid() && k.beaconInterval > Pace(k, k.retries + 1)
    requires deadline > start + Pace(k, k.retries + 1) && Crossed(k, deadline, st, start)
    requires st.a.w.now <= start + Pace(k, k.retries + 1)
    ensures Exec(d, st, turns).Some? && Exec(d, st, turns).value.a.w.end == Some(RxLost)
    decreases start + Pace(k, k.retries + 1) - st.a.w.now
  {
    hide Pace, Exec, Crossed;
    turns := CrossedRound(d, k, deadline, st, start);
    var st2 := Exec(d, st, turns).value;
    if st2.a.w.end != Some(RxLost) {
      var more := CrossedLoses(d, k, deadline, st2, start);
      ExecJoins(d, st, turns, more);
      turns := turns + more;
    }
  }

  /** No two ends with these settings ever declare a sound line lost. */
  ghost predicate NeverLost(k: Settings, d: nat) {
    forall start: Pair, t0: nat, turns ::
      Begins(start, t0) && start.a.k == start.b.k == k && Exec(d, start, turns).Some? ==>
        var st := Exec(d, start, turns).value; !Lost(st.a.w) && !Lost(st.b.w)
  }

  lemma CrossedAtStart(k: Settings, deadline: nat)
    ensures var side := Side(k, deadline, Start(Bits(0, 0, 0, 0), 0));
            var st := Pair(side, side, [], []); Begins(st, 0) && Crossed(k, deadline, st, 0)
  {
    PaceNothing(k);
  }

  /** A sound line, on which every line arrives within `d` ticks, can be declared lost exactly if beacons are rarer than
      all the probes for silence: then two ends that begin together probe together, each takes the other's probe for its
      own coming back, and both give up a line that works. */
  lemma NeverLostIff(k: Settings, d: nat)
    requires k.Valid() && d >= 1 && 2 * d + k.slack <= (k.retries + 1) * k.interval + 1
    ensures NeverLost(k, d) <==> k.beaconInterval <= (k.retries + 1) * k.interval
  {
    PaceMeans(k, k.retries + 1);
    hide Exec, Begins, Pace, Crossed;
    if k.beaconInterval <= (k.retries + 1) * k.interval {
      forall start: Pair, t0: nat, turns |
        Begins(start, t0) && start.a.k == start.b.k == k && Exec(d, start, turns).Some?
        ensures var st := Exec(d, start, turns).value; !Lost(st.a.w) && !Lost(st.b.w)
      {
        SoundLineIsNeverLost(d, start, t0, turns);
      }
    } else {
      var deadline := Pace(k, k.retries + 1) + 1;
      var side := Side(k, deadline, Start(Bits(0, 0, 0, 0), 0));
      var st := Pair(side, side, [], []);
      CrossedAtStart(k, deadline);
      var turns := CrossedLoses(d, k, deadline, st, 0);
      assert Lost(Exec(d, st, turns).value.a.w);
    }
  }

  // ---- a brisk line ---------------------------------------------------------------------------------------------

  /** No line on its way is for a caller. */
  ghost predicate Plain(q: seq<Stamped>) {
    forall s :: s in q ==> !s.line.Ayt? && !s.line.AytOk?
  }

  lemma {:induction false} PlainIsKept(w: Watch, q: seq<Stamped>)
    requires Plain(q) && w.end.None?
    ensures var w2 := HearAll(w, Signals(q));
            w2.end.None? && Plain(Stamps(Written(w, w2), w.now))
    decreases |q|
  {
    if q == [] {
      WrittenNothing(w, w.now);
    } else {
      assert q[0] in q;
      var y := AsHeard(q[0].line);
      var w1 := Hear(w, y);
      SignalsFirst(q);
      HearAllFirst(w, Signals(q));
      HearWrites(w, y);
      HearAllGrows(w1, Signals(q[1..]));
      PlainIsKept(w1, q[1..]);
      WrittenAdds(w, w1, HearAll(w1, Signals(q[1..])), w.now);
    }
  }

  lemma TimersArePlain(k: Settings, w: Watch)
    requires k.Valid() && Timed(k, w) && w.end.None?
    requires w.waiting.Some? ==> w.now < w.lastBeacon + Pace(k, 2)
    ensures Plain(Stamps(Written(w, Timers(k, w)), w.now))
  {
    hide Pace;
    PaceStep(k, 1);
    PaceNothing(k);
    if w.markers >= 2 {
      PaceGrows(k, 1, w.markers - 1);
    }
  }

  /** Time for the receipt within the first two probes for it. */
  ghost predicate Brisk(k: Settings, d: nat, slack: nat) {
    Ample(k, d, slack) && 2 * d + slack <= Pace(k, 2) + 1
  }

  lemma NextKeepsPlain(d: nat, st: Pair, turn: Turn)
    requires d >= 1 && Sound(d, st) && Plain(st.toA) && Plain(st.toB)
    requires NextA(d, st, turn).Some? && Brisk(st.a.k, d, st.b.k.slack)
    ensures var st2 := NextA(d, st, turn).value;
            st2.a.w.end == None || (st2.a.w.end == Some(TimedOut) && st2.a.w.now >= st.a.deadline)
    ensures var st2 := NextA(d, st, turn).value; st2.a.w.end.None? ==> Plain(st2.toA) && Plain(st2.toB)
    ensures NextA(d, st, turn).value.a.deadline == st.a.deadline
  {
    hide Sound, Timers, Written, Stamps, Pace;
    PassIs(d, st, turn);
    HeardAllKeeps(d, st, turn.heard);
    PlainIsKept(st.a.w, st.toA[..turn.heard]);
    var st1 := HeardAll(st, turn.heard);
    BriskWait(d, st1);
    TimersArePlain(st.a.k, st1.a.w);
  }

  lemma BriskWait(d: nat, st: Pair)
    requires d >= 1 && Sound(d, st) && st.a.w.now <= st.b.w.now && Prompt(st.toA, 0, st.a.w.now, d)
    requires Brisk(st.a.k, d, st.b.k.slack) && st.a.w.end.None?
    ensures Timed(st.a.k, st.a.w) && (st.a.w.waiting.Some? ==> st.a.w.now < st.a.w.lastBeacon + Pace(st.a.k, 2))
    ensures var w2 := Timers(st.a.k, st.a.w); w2.end.None? && w2.now == st.a.w.now
  {
    if st.a.w.waiting.Some? {
      WaitIsYoung(d, st, 2);
      WaitIsYoung(d, st, st.a.k.retries + 1);
    }
    hide Pace, Timers;
    TimersAreTimed(st.a.k, st.a.w);
  }

  lemma {:induction false} RunIsPlain(d: nat, start: Pair, t0: nat, turns: seq<Turn>)
    requires d >= 1 && Begins(start, t0) && Exec(d, start, turns).Some?
    requires Brisk(start.a.k, d, start.b.k.slack) && Brisk(start.b.k, d, start.a.k.slack)
    ensures var st := Exec(d, start, turns).value;
            && (st.a.w.end.None? && st.b.w.end.None? ==> Plain(st.toA) && Plain(st.toB))
            && (st.a.w.end.None? || (st.a.w.end == Some(TimedOut) && st.a.w.now >= start.a.deadline))
            && (st.b.w.end.None? || (st.b.w.end == Some(TimedOut) && st.b.w.now >= start.b.deadline))
            && st.a.deadline == start.a.deadline && st.b.deadline == start.b.deadline
    decreases |turns|
  {
    hide NextA, Sound, Ample, Plain;
    if turns == [] {
      assert Plain([]) by {
        NothingIsPlain();
      }
    } else {
      var before, turn := turns[..|turns| - 1], turns[|turns| - 1];
      RunIsPlain(d, start, t0, before);
      RunIsSound(d, start, t0, before);
      var st := Exec(d, start, before).value;
      var st1 := if turn.atA then st else Mirror(st);
      SoundMirrors(d, st);
      BothWait(d, st1, turn);
      NextKeepsPlain(d, st1, turn);
      NextKeepsSound(d, st1, turn);
    }
  }

  lemma NothingIsPlain()
    ensures Plain([])
  {
  }

  /** On a line that is quicker than the interval, looked at at least every `slack` ticks, nothing disturbs either
      caller: no AYT? is ever on its way, and both calls wait until their deadlines. */
  lemma BriskLineIsQuiet(d: nat, start: Pair, t0: nat, turns: seq<Turn>)
    requires d >= 1 && Begins(start, t0) && Exec(d, start, turns).Some? && start.a.k.Valid() && start.b.k.Valid()
    requires start.a.k.beaconInterval <= start.a.k.interval && start.b.k.beaconInterval <= start.b.k.interval
    requires d + start.b.k.slack <= start.a.k.interval && d + start.a.k.slack <= start.b.k.interval
    ensures var st := Exec(d, start, turns).value;
            && (st.a.w.end.None? && st.b.w.end.None? ==> Plain(st.toA) && Plain(st.toB))
            && (st.a.w.end.None? || (st.a.w.end == Some(TimedOut) && st.a.w.now >= start.a.deadline))
            && (st.b.w.end.None? || (st.b.w.end == Some(TimedOut) && st.b.w.now >= start.b.deadline))
  {
    assert Brisk(start.a.k, d, start.b.k.slack) by {
      QuickIsBrisk(start.a.k, d, start.b.k.slack);
    }
    assert Brisk(start.b.k, d, start.a.k.slack) by {
      QuickIsBrisk(start.b.k, d, start.a.k.slack);
    }
    hide Brisk, Exec, Begins;
    RunIsPlain(d, start, t0, turns);
  }

  lemma QuickIsBrisk(k: Settings, d: nat, slack: nat)
    requires k.Valid() && k.beaconInterval <= k.interval && d + slack <= k.interval
    ensures Brisk(k, d, slack)
  {
    PaceNothing(k);
    PaceStep(k, 1);
    PaceGrows(k, 2, k.retries + 1);
    hide Pace;
  }
}
