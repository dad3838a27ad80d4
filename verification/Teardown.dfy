/**
  Closing a session, src/pcutp/link.py: each direction is closed by CLOSE and acknowledged by BYE. Two ends, two queues,
  every interleaving.
*/
module Teardown {
  import opened Basics

  datatype Line = Close | Bye

  /** Serving requests; the two halves of an attempt of `send_fin`; `await_fin`; `linger`; nothing more. */
  datatype Mode = Serving | FinWrite(i: nat) | FinWait(i: nat) | AwaitFin | Linger | Closed

  /** Which of its callers runs `send_fin`: the client's `close` awaits the peer's CLOSE if its own was acknowledged,
      the server's `shutdown` always does, and a server that answers a CLOSE never does. */
  datatype Plan = AwaitIfAcked | AwaitAlways | NoAwait

  datatype End = End(plan: Plan, mode: Mode, fin: Option<bool>, closes: nat, byes: nat, heardCloses: nat,
                     heardByes: nat)

  datatype State = State(a: End, b: End, toA: seq<Line>, toB: seq<Line>)

  function Closing(plan: Plan): End {
    End(plan, FinWrite(0), None, 0, 0, 0, 0)
  }

  function Asked(plan: Plan): End {
    End(plan, Serving, None, 0, 0, 0, 0)
  }

  /** `send_fin` returns. */
  function Returned(e: End, acked: bool): End {
    e.(fin := Some(acked),
       mode := if e.plan.AwaitAlways? || (e.plan.AwaitIfAcked? && acked) then AwaitFin else Linger)
  }

  function WriteClose(e: End): End
    requires e.mode.FinWrite?
  {
    e.(closes := e.closes + 1, mode := FinWait(e.mode.i))
  }

  predicate Listening(e: End) {
    !e.mode.FinWrite? && !e.mode.Closed?
  }

  /** One line read, and what is written in answer. */
  function ReadLine(e: End, y: Line): (End, seq<Line>)
    requires Listening(e)
  {
    match y
    case Bye =>
      var e2 := e.(heardByes := e.heardByes + 1);
      (if e.mode.FinWait? then Returned(e2, true) else e2, [])
    case Close =>
      var e2 := e.(heardCloses := e.heardCloses + 1, byes := e.byes + 1);
      (if e.mode.Serving? then e2.(mode := FinWrite(0)) else if e.mode.AwaitFin? then e2.(mode := Linger) else e2,
       [Bye])
  }

  /** The wait for BYE is over. */
  function Expired(retries: nat, e: End): End
    requires e.mode.FinWait?
  {
    if e.mode.i + 1 < retries then e.(mode := FinWrite(e.mode.i + 1)) else Returned(e, false)
  }

  /** The other waits are over. */
  function GaveUp(e: End): End
    requires e.mode.AwaitFin? || e.mode.Linger?
  {
    e.(mode := if e.mode.AwaitFin? then Linger else Closed)
  }

  datatype Step = Write(atA: bool) | Read(atA: bool) | Expire(atA: bool) | GiveUp(atA: bool) | Lose(toA: bool, i: nat)

  /** The same state with the ends exchanged. */
  function Mirror(st: State): State {
    State(st.b, st.a, st.toB, st.toA)
  }

  predicate AtA(step: Step) {
    if step.Lose? then step.toA else step.atA
  }

  /** A step of the first end, or on the queue toward it. */
  function NextA(retries: nat, st: State, step: Step): Option<State> {
    match step
    case Write(_) =>
      if st.a.mode.FinWrite? then Some(st.(a := WriteClose(st.a), toB := st.toB + [Close])) else None
    case Read(_) =>
      if st.toA == [] || !Listening(st.a) then None
      else
        var (e, ys) := ReadLine(st.a, st.toA[0]);
        Some(State(e, st.b, st.toA[1..], st.toB + ys))
    case Expire(_) => if st.a.mode.FinWait? then Some(st.(a := Expired(retries, st.a))) else None
    case GiveUp(_) => if st.a.mode.AwaitFin? || st.a.mode.Linger? then Some(st.(a := GaveUp(st.a))) else None
    case Lose(_, i) => if i < |st.toA| then Some(st.(toA := st.toA[..i] + st.toA[i + 1..])) else None
  }

  function Next(retries: nat, st: State, step: Step): Option<State> {
    if AtA(step) then NextA(retries, st, step)
    else
      match NextA(retries, Mirror(st), step)
      case None => None
      case Some(st2) => Some(Mirror(st2))
  }

  function Exec(retries: nat, start: State, steps: seq<Step>): Option<State> {
    if steps == [] then Some(start)
    else
      match Exec(retries, start, steps[..|steps| - 1])
      case None => None
      case Some(st) => Next(retries, st, steps[|steps| - 1])
  }

  // ---- with losses and timeouts ------------------------------------------------------------

  function Count(q: seq<Line>, y: Line): nat {
    multiset(q)[y]
  }

  /** What `x` knows of itself, and what the queue from `x` to `y` and `y` together know of it. */
  predicate Half(retries: nat, x: End, y: End, queue: seq<Line>) {
    && x.byes == x.heardCloses
    && Count(queue, Close) + y.heardCloses <= x.closes <= retries
    && Count(queue, Bye) + y.heardByes <= x.byes
    && (x.mode.Serving? ==> x.closes == 0)
    && (x.mode.FinWrite? ==> x.closes == x.mode.i < retries)
    && (x.mode.FinWait? ==> x.closes == x.mode.i + 1)
    && (x.fin == Some(true) ==> x.heardByes >= 1)
    && (x.mode.Serving? || x.mode.FinWrite? || x.mode.FinWait? <==> x.fin.None?)
  }

  predicate Counted(retries: nat, st: State) {
    Half(retries, st.a, st.b, st.toB) && Half(retries, st.b, st.a, st.toA)
  }

  lemma QueueCounts(q: seq<Line>, x: Line, y: Line)
    ensures Count(q + [x], y) == Count(q, y) + if x == y then 1 else 0
    ensures q != [] ==> Count(q[1..], y) == Count(q, y) - if q[0] == y then 1 else 0
  {
    if q != [] {
      assert q == [q[0]] + q[1..];
    }
  }

  lemma LossCounts(q: seq<Line>, i: nat, y: Line)
    requires i < |q|
    ensures Count(q[..i] + q[i + 1..], y) <= Count(q, y)
  {
    assert q == q[..i] + [q[i]] + q[i + 1..];
  }

  lemma CountedStepA(retries: nat, st: State, step: Step)
    requires Counted(retries, st) && NextA(retries, st, step).Some?
    ensures Counted(retries, NextA(retries, st, step).value)
  {
    hide Count;
    match step
    case Write(_) =>
      QueueCounts(st.toB, Close, Close);
      QueueCounts(st.toB, Close, Bye);
    case Read(_) => CountedRead(retries, st);
    case Expire(_) =>
    case GiveUp(_) =>
    case Lose(_, i) =>
      LossCounts(st.toA, i, Close);
      LossCounts(st.toA, i, Bye);
  }

  lemma CountedRead(retries: nat, st: State)
    requires Counted(retries, st) && NextA(retries, st, Read(true)).Some?
    ensures Counted(retries, NextA(retries, st, Read(true)).value)
  {
    hide Count;
    QueueCounts(st.toA, Bye, Close);
    QueueCounts(st.toA, Bye, Bye);
    QueueCounts(st.toB, Bye, Close);
    QueueCounts(st.toB, Bye, Bye);
    assert st.toB + [] == st.toB;
  }

  lemma {:induction false} CountedRun(retries: nat, start: State, steps: seq<Step>)
    requires Counted(retries, start) && Exec(retries, start, steps).Some?
    ensures Counted(retries, Exec(retries, start, steps).value)
    decreases |steps|
  {
    hide NextA;
    if steps != [] {
      var before, step := steps[..|steps| - 1], steps[|steps| - 1];
      CountedRun(retries, start, before);
      var st := Exec(retries, start, before).value;
      CountedStepA(retries, if AtA(step) then st else Mirror(st), step);
    }
  }

  predicate StartsEmpty(st: State) {
    && st.toA == [] && st.toB == []
    && (st.a == Closing(st.a.plan) || st.a == Asked(st.a.plan))
    && (st.b == Closing(st.b.plan) || st.b == Asked(st.b.plan))
  }

  /** Over a line that loses anything, with any timeouts: neither end sends CLOSE more than `retries` times, and
      `send_fin` returns true only if the other end has read one of these and answered it with BYE. */
  lemma AcknowledgedOnlyIfAnswered(retries: nat, start: State, steps: seq<Step>)
    requires retries >= 1 && StartsEmpty(start) && Exec(retries, start, steps).Some?
    ensures var st := Exec(retries, start, steps).value;
            && st.a.closes <= retries && st.b.closes <= retries
            && (st.a.fin == Some(true) ==> 1 <= st.a.heardByes <= st.b.byes <= st.a.closes)
            && (st.b.fin == Some(true) ==> 1 <= st.b.heardByes <= st.a.byes <= st.b.closes)
  {
    CountedRun(retries, start, steps);
  }

  // ---- without losses and timeouts of send_fin -----------------------------------------------

  predicate Prompt(steps: seq<Step>) {
    forall x :: x in steps ==> !x.Lose? && !x.Expire?
  }

  /** Lines written and read. */
  function Activity(st: State): nat {
    st.a.closes + st.b.closes + st.a.heardCloses + st.a.heardByes + st.b.heardCloses + st.b.heardByes
  }

  function Moves(steps: seq<Step>): nat {
    if steps == [] then 0
    else
      var last := steps[|steps| - 1];
      Moves(steps[..|steps| - 1]) + if last.Write? || last.Read? then 1 else 0
  }

  /** One end and the queue from it, when both ends close at once: CLOSE, then BYE, each once. */
  predicate Together(x: End, y: End, queue: seq<Line>) {
    && x.closes <= 1 && x.byes == x.heardCloses <= x.closes && x.heardByes <= x.heardCloses
    && queue == (if y.heardCloses < x.closes then [Close] else []) + (if y.heardByes < x.byes then [Bye] else [])
    && y.heardByes <= x.byes && y.heardCloses <= x.closes
    && (x.closes == 0 <==> x.mode == FinWrite(0))
    && (x.closes == 1 && x.heardByes == 0 <==> x.mode == FinWait(0))
    && (x.heardByes == 1 ==> x.fin == Some(true) && (x.mode.AwaitFin? || x.mode.Linger? || x.mode.Closed?))
    && (x.heardByes == 0 <==> x.fin.None?)
    && !x.mode.Serving?
  }

  lemma TogetherStepA(retries: nat, st: State, step: Step)
    requires Together(st.a, st.b, st.toB) && Together(st.b, st.a, st.toA) && !step.Lose? && !step.Expire?
    requires NextA(retries, st, step).Some?
    ensures var st2 := NextA(retries, st, step).value;
            && Together(st2.a, st2.b, st2.toB) && Together(st2.b, st2.a, st2.toA)
            && Activity(st2) == Activity(st) + if step.GiveUp? then 0 else 1
  {
  }

  lemma {:induction false} TogetherRun(retries: nat, p: Plan, q: Plan, steps: seq<Step>)
    requires Prompt(steps) && Exec(retries, State(Closing(p), Closing(q), [], []), steps).Some?
    ensures var st := Exec(retries, State(Closing(p), Closing(q), [], []), steps).value;
            Together(st.a, st.b, st.toB) && Together(st.b, st.a, st.toA) && Activity(st) == Moves(steps)
    decreases |steps|
  {
    hide NextA, Together;
    if steps == [] {
      assert Together(Closing(p), Closing(q), []) && Together(Closing(q), Closing(p), []) by {
        TogetherAtStart(p, q);
        TogetherAtStart(q, p);
      }
    } else {
      var before, step := steps[..|steps| - 1], steps[|steps| - 1];
      assert step in steps;
      TogetherRun(retries, p, q, before);
      var st := Exec(retries, State(Closing(p), Closing(q), [], []), before).value;
      TogetherStepA(retries, if AtA(step) then st else Mirror(st), step);
    }
  }

  lemma TogetherAtStart(p: Plan, q: Plan)
    ensures Together(Closing(p), Closing(q), [])
  {
  }

  predicate CanMove(st: State) {
    || st.a.mode.FinWrite? || st.b.mode.FinWrite?
    || (st.toA != [] && Listening(st.a)) || (st.toB != [] && Listening(st.b))
  }

  /** Two ends that close at the same time, on a line that loses nothing: whatever the interleaving, no call of
      `send_fin` fails, there is something to write or read until both have returned true, that is so after at most six
      of these moves, and then the line is empty. */
  lemma SimultaneousClose(retries: nat, p: Plan, q: Plan, steps: seq<Step>)
    requires Prompt(steps) && Exec(retries, State(Closing(p), Closing(q), [], []), steps).Some?
    ensures var st := Exec(retries, State(Closing(p), Closing(q), [], []), steps).value;
            && st.a.fin != Some(false) && st.b.fin != Some(false) && st.a.closes <= 1 && st.b.closes <= 1
            && (st.a.fin.None? || st.b.fin.None? ==> CanMove(st))
            && Moves(steps) <= 6
            && (st.a.fin.Some? && st.b.fin.Some? ==> st.toA == [] && st.toB == [])
  {
    TogetherRun(retries, p, q, steps);
  }

  // ---- one end closes, the other answers and closes -------------------------------------------

  /** The end that closes first: CLOSE, then BYE in answer to the other's CLOSE. */
  predicate Leads(x: End, y: End, queue: seq<Line>) {
    && x.closes <= 1 && x.byes == x.heardCloses <= x.heardByes <= 1 && x.heardByes <= x.closes
    && queue == (if y.heardCloses < x.closes then [Close] else []) + (if y.heardByes < x.byes then [Bye] else [])
    && y.heardByes <= x.byes && y.heardCloses <= x.closes
    && (x.closes == 0 <==> x.mode == FinWrite(0))
    && (x.closes == 1 && x.heardByes == 0 <==> x.mode == FinWait(0))
    && (x.heardByes == 1 ==> x.fin == Some(true) && (x.mode.AwaitFin? || x.mode.Linger?))
    && (x.heardByes == 0 <==> x.fin.None?)
    && !x.mode.Serving?
  }

  /** The end that answers: BYE, then its own CLOSE. */
  predicate Answers(x: End, y: End, queue: seq<Line>) {
    && x.closes <= x.byes == x.heardCloses <= 1 && x.heardByes <= x.closes
    && queue == (if y.heardByes < x.byes then [Bye] else []) + (if y.heardCloses < x.closes then [Close] else [])
    && y.heardByes <= x.byes && y.heardCloses <= x.closes && y.heardCloses <= y.heardByes
    && (x.byes == 0 <==> x.mode.Serving?)
    && (x.byes == 1 && x.closes == 0 <==> x.mode == FinWrite(0))
    && (x.closes == 1 && x.heardByes == 0 <==> x.mode == FinWait(0))
    && (x.heardByes == 1 ==> x.fin == Some(true) && (x.mode.AwaitFin? || x.mode.Linger?))
    && (x.heardByes == 0 <==> x.fin.None?)
  }

  predicate InTurn(st: State) {
    Leads(st.a, st.b, st.toB) && Answers(st.b, st.a, st.toA)
  }

  predicate Untimed(steps: seq<Step>) {
    forall x :: x in steps ==> x.Write? || x.Read?
  }

  lemma InTurnStep(retries: nat, st: State, step: Step)
    requires InTurn(st) && (step.Write? || step.Read?) && Next(retries, st, step).Some?
    ensures InTurn(Next(retries, st, step).value)
    ensures Activity(Next(retries, st, step).value) == Activity(st) + 1
  {
    hide InTurn, Activity, NextA;
    if step.atA {
      LeaderMoves(retries, st, step);
    } else {
      AnswererMoves(retries, st, step);
    }
  }

  lemma LeaderMoves(retries: nat, st: State, step: Step)
    requires InTurn(st) && (step.Write? || step.Read?) && NextA(retries, st, step).Some?
    ensures InTurn(NextA(retries, st, step).value)
    ensures Activity(NextA(retries, st, step).value) == Activity(st) + 1
  {
  }

  lemma AnswererMoves(retries: nat, st: State, step: Step)
    requires InTurn(st) && (step.Write? || step.Read?) && NextA(retries, Mirror(st), step).Some?
    ensures InTurn(Mirror(NextA(retries, Mirror(st), step).value))
    ensures Activity(Mirror(NextA(retries, Mirror(st), step).value)) == Activity(st) + 1
  {
  }

  lemma {:induction false} InTurnRun(retries: nat, p: Plan, q: Plan, steps: seq<Step>)
    requires Untimed(steps) && Exec(retries, State(Closing(p), Asked(q), [], []), steps).Some?
    ensures InTurn(Exec(retries, State(Closing(p), Asked(q), [], []), steps).value)
    ensures Activity(Exec(retries, State(Closing(p), Asked(q), [], []), steps).value) == |steps|
    decreases |steps|
  {
    hide Next, InTurn;
    if steps == [] {
      assert InTurn(State(Closing(p), Asked(q), [], [])) by {
        InTurnAtStart(p, q);
      }
    } else {
      var before, step := steps[..|steps| - 1], steps[|steps| - 1];
      assert step in steps;
      InTurnRun(retries, p, q, before);
      InTurnStep(retries, Exec(retries, State(Closing(p), Asked(q), [], []), before).value, step);
    }
  }

  lemma InTurnAtStart(p: Plan, q: Plan)
    ensures InTurn(State(Closing(p), Asked(q), [], []))
  {
  }

  /** One end closes and the other, serving until then, answers and closes too: while nothing is lost and no wait runs
      out, there is something to write or read until both calls have returned true, which takes six moves. */
  lemma OrderlyClose(retries: nat, p: Plan, q: Plan, steps: seq<Step>)
    requires Untimed(steps) && Exec(retries, State(Closing(p), Asked(q), [], []), steps).Some?
    ensures var st := Exec(retries, State(Closing(p), Asked(q), [], []), steps).value;
            && st.a.fin != Some(false) && st.b.fin != Some(false)
            && (CanMove(st) <==> |steps| < 6)
            && (st.a.fin == Some(true) && st.b.fin == Some(true) <==> |steps| == 6)
            && (|steps| == 6 ==> st.toA == [] && st.toB == [])
  {
    InTurnRun(retries, p, q, steps);
  }

  // ---- send_fin as it runs ------------------------------------------------------------------------

  /** What one read meets: a line after some ticks, other text, or nothing (or an over-long line) until some ticks
      later. */
  datatype Arrival = Brings(y: Line, gap: nat) | Other(gap: nat) | Nothing(gap: nat)

  datatype Event = Wrote | Heard(y: Line) | Late

  /** An end after a history of its own events. */
  function Follow(retries: nat, start: End, log: seq<Event>): Option<End> {
    if log == [] then Some(start)
    else
      match Follow(retries, start, log[..|log| - 1])
      case None => None
      case Some(e) =>
        match log[|log| - 1]
        case Wrote => if e.mode.FinWrite? then Some(WriteClose(e)) else None
        case Heard(y) => if Listening(e) then Some(ReadLine(e, y).0) else None
        case Late => if e.mode.FinWait? then Some(Expired(retries, e)) else None
  }

  lemma FollowOne(retries: nat, start: End, log: seq<Event>, x: Event)
    requires Follow(retries, start, log).Some?
    ensures var e := Follow(retries, start, log).value;
            Follow(retries, start, log + [x]) ==
            match x
            case Wrote => if e.mode.FinWrite? then Some(WriteClose(e)) else None
            case Heard(y) => if Listening(e) then Some(ReadLine(e, y).0) else None
            case Late => if e.mode.FinWait? then Some(Expired(retries, e)) else None
  {
    assert (log + [x])[..|log|] == log;
  }

  // What the clock and the line have to do with it.

  function Ticks(incoming: nat -> Arrival, from: nat, till: nat): nat
    decreases till
  {
    if from >= till then 0 else Ticks(incoming, from, till - 1) + 1 + incoming(till - 1).gap
  }

  /** An arrival that ends the wait for BYE. */
  predicate Ends(got: Arrival) {
    got.Nothing? || (got.Brings? && got.y.Bye?)
  }

  /** The reads of one attempt, numbers `from` up to `till`: each begins before the timeout and none but the last ends
      the wait; and then either the last one does or the time is up. */
  ghost predicate IsWait(incoming: nat -> Arrival, timeout: nat, from: nat, till: nat) {
    && from <= till
    && (forall k :: from <= k < till ==> Ticks(incoming, from, k) < timeout)
    && (forall k :: from <= k < till - 1 ==> !Ends(incoming(k)))
    && ((from < till && Ends(incoming(till - 1))) || Ticks(incoming, from, till) >= timeout)
  }

  predicate HeardBye(incoming: nat -> Arrival, from: nat, till: nat) {
    from < till && incoming(till - 1).Brings? && incoming(till - 1).y.Bye?
  }

  /** What one attempt writes: CLOSE, and a BYE for every CLOSE that comes in. */
  function Byes(incoming: nat -> Arrival, from: nat, till: nat): seq<Line>
    decreases till
  {
    if from >= till then []
    else
      Byes(incoming, from, till - 1)
      + if incoming(till - 1).Brings? && incoming(till - 1).y.Close? then [Bye] else []
  }

  /** Where the reads of attempt `i` begin, if those of the attempts end at `ends`. */
  function StartOf(from: nat, ends: seq<nat>, i: nat): nat
    requires i <= |ends|
  {
    if i == 0 then from else ends[i - 1]
  }

  /** Attempts one after the other. No attempt but the last hears BYE. */
  ghost predicate AreAttempts(incoming: nat -> Arrival, timeout: nat, from: nat, ends: seq<nat>) {
    forall i :: 0 <= i < |ends| ==>
      && IsWait(incoming, timeout, StartOf(from, ends, i), ends[i])
      && (i < |ends| - 1 ==> !HeardBye(incoming, StartOf(from, ends, i), ends[i]))
  }

  function AllWritten(incoming: nat -> Arrival, from: nat, ends: seq<nat>): seq<Line> {
    if ends == [] then []
    else
      var last := |ends| - 1;
      AllWritten(incoming, from, ends[..last]) + [Close] + Byes(incoming, StartOf(from, ends, last), ends[last])
  }

  lemma OneMoreAttempt(incoming: nat -> Arrival, timeout: nat, from: nat, ends: seq<nat>, till: nat)
    requires AreAttempts(incoming, timeout, from, ends)
    requires ends != [] ==> !HeardBye(incoming, StartOf(from, ends, |ends| - 1), ends[|ends| - 1])
    requires IsWait(incoming, timeout, StartOf(from, ends, |ends|), till)
    ensures AreAttempts(incoming, timeout, from, ends + [till])
    ensures StartOf(from, ends + [till], |ends|) == StartOf(from, ends, |ends|)
  {
    hide IsWait, HeardBye;
    var more := ends + [till];
    forall i | 0 <= i < |more|
      ensures IsWait(incoming, timeout, StartOf(from, more, i), more[i])
      ensures i < |more| - 1 ==> !HeardBye(incoming, StartOf(from, more, i), more[i])
    {
      if i < |ends| {
        assert more[i] == ends[i] && StartOf(from, more, i) == StartOf(from, ends, i);
      }
    }
  }

  lemma OneMoreWritten(incoming: nat -> Arrival, from: nat, ends: seq<nat>, till: nat)
    ensures AllWritten(incoming, from, ends + [till]) ==
            AllWritten(incoming, from, ends) + [Close] + Byes(incoming, StartOf(from, ends, |ends|), till)
  {
    hide Byes;
    assert (ends + [till])[..|ends|] == ends;
  }

  /** One more read. */
  lemma OneMoreRead(incoming: nat -> Arrival, from: nat, till: nat)
    requires from <= till
    ensures Ticks(incoming, from, till + 1) == Ticks(incoming, from, till) + 1 + incoming(till).gap
    ensures Byes(incoming, from, till + 1) ==
            Byes(incoming, from, till) + if incoming(till).Brings? && incoming(till).y.Close? then [Bye] else []
  {
  }

  lemma TicksAdd(incoming: nat -> Arrival, from: nat, mid: nat, till: nat)
    requires from <= mid <= till
    ensures Ticks(incoming, from, till) == Ticks(incoming, from, mid) + Ticks(incoming, mid, till)
    decreases till
  {
  }

  /** A BYE that comes first, before the timeout, ends the first attempt. */
  lemma PromptByeSuffices(incoming: nat -> Arrival, timeout: nat, from: nat, ends: seq<nat>)
    requires AreAttempts(incoming, timeout, from, ends) && ends != [] && timeout >= 1
    requires incoming(from).Brings? && incoming(from).y.Bye?
    ensures ends == [from + 1] && HeardBye(incoming, from, from + 1) && AllWritten(incoming, from, ends) == [Close]
  {
    assert IsWait(incoming, timeout, StartOf(from, ends, 0), ends[0]);
    assert Ticks(incoming, from, from) == 0;
    assert ends[0] == from + 1;
    assert HeardBye(incoming, StartOf(from, ends, 0), ends[0]);
    assert ends[..0] == [];
    assert Byes(incoming, from, from + 1) == Byes(incoming, from, from) == [];
  }

  class Link {
    const incoming: nat -> Arrival
    var position: nat
    var now: nat
    var written: seq<Line>
    ghost var log: seq<Event>

    constructor (incoming: nat -> Arrival)
      ensures this.incoming == incoming && written == [] && log == []
    {
      this.incoming := incoming;
      position, now, written, log := 0, 0, [], [];
    }

    /** One `recv_line`: nothing if the time was up. */
    method RecvLine() returns (got: Arrival)
      modifies this`position, this`now
      ensures got == incoming(old(position)) && position == old(position) + 1 && now == old(now) + 1 + got.gap
    {
      got := incoming(position);
      position := position + 1;
      now := now + 1 + got.gap;
    }

    /** `send_fin`. Its history is one of an end that closes, which answers every CLOSE it hears and returns what
        `acked` says. It makes attempts until a BYE is among what it reads, or `retries` of them; each goes on until
        that BYE, until a read brings nothing, or until `timeout` ticks after its CLOSE. */
    method SendFin(timeout: nat, retries: nat, ghost plan: Plan) returns (acked: bool, ghost ends: seq<nat>)
      requires retries >= 1 && log == [] && written == []
      modifies this
      ensures var e := Follow(retries, Closing(plan), log);
              && e.Some? && e.value.fin == Some(acked) && e.value.closes <= retries
              && Count(written, Close) == e.value.closes && Count(written, Bye) == e.value.byes
      ensures 1 <= |ends| <= retries && AreAttempts(incoming, timeout, old(position), ends)
      ensures old(position) <= position == ends[|ends| - 1]
      ensures now == old(now) + Ticks(incoming, old(position), position)
      ensures acked <==> HeardBye(incoming, StartOf(old(position), ends, |ends| - 1), position)
      ensures acked <==> exists k :: old(position) <= k < position && incoming(k).Brings? && incoming(k).y.Bye?
      ensures !acked ==> |ends| == retries
      ensures written == AllWritten(incoming, old(position), ends)
    {
      hide Follow, Count, IsWait, Ticks, Byes, AllWritten, AreAttempts;
      NothingCounted();
      NothingTried(incoming, timeout, position);
      ghost var e := Closing(plan);
      var i := 0;
      ends := [];
      while i < retries
        invariant 0 <= i <= retries && |ends| == i
        invariant Follow(retries, Closing(plan), log) == Some(e)
        invariant e.closes == i && e.plan == plan
        invariant if i < retries then e.mode == FinWrite(i) && e.fin == None else e.fin == Some(false)
        invariant Count(written, Close) == e.closes && Count(written, Bye) == e.byes
        invariant AreAttempts(incoming, timeout, old(position), ends) && old(position) <= position
        invariant position == StartOf(old(position), ends, i)
        invariant i > 0 ==> !HeardBye(incoming, StartOf(old(position), ends, i - 1), position)
        invariant now == old(now) + Ticks(incoming, old(position), position)
        invariant forall k :: old(position) <= k < position ==> !(incoming(k).Brings? && incoming(k).y.Bye?)
        invariant written == AllWritten(incoming, old(position), ends)
      {
        QueueCounts(written, Close, Close);
        QueueCounts(written, Close, Bye);
        FollowOne(retries, Closing(plan), log, Wrote);
        ghost var from := position;
        written := written + [Close];
        log := log + [Wrote];
        e := WriteClose(e);
        acked, e := AwaitBye(timeout, retries, plan, i, e);
        OneMoreAttempt(incoming, timeout, old(position), ends, position);
        OneMoreWritten(incoming, old(position), ends, position);
        TicksAdd(incoming, old(position), from, position);
        ends := ends + [position];
        i := i + 1;
        if acked {
          return;
        }
      }
      acked := false;
    }

    /** The inner loop of one attempt. */
    method AwaitBye(timeout: nat, retries: nat, ghost plan: Plan, ghost i: nat, ghost e0: End)
      returns (acked: bool, ghost e: End)
      requires Follow(retries, Closing(plan), log) == Some(e0) && e0.mode == FinWait(i) && e0.fin == None
      requires Count(written, Close) == e0.closes && Count(written, Bye) == e0.byes && e0.plan == plan
      modifies this
      ensures Follow(retries, Closing(plan), log) == Some(e) && e.closes == e0.closes && e.plan == plan
      ensures if acked then e.fin == Some(true)
              else if i + 1 < retries then e.mode == FinWrite(i + 1) && e.fin == None
              else e.fin == Some(false)
      ensures Count(written, Close) == e.closes && Count(written, Bye) == e.byes
      ensures IsWait(incoming, timeout, old(position), position) && old(position) <= position
      ensures acked <==> HeardBye(incoming, old(position), position)
      ensures !acked ==>
                forall k :: old(position) <= k < position ==> !(incoming(k).Brings? && incoming(k).y.Bye?)
      ensures now == old(now) + Ticks(incoming, old(position), position)
      ensures written == old(written) + Byes(incoming, old(position), position)
    {
      hide Follow, Count, Ticks, Byes;
      NoRead(incoming, position);
      e := e0;
      var deadline := now + timeout;
      var open := true;
      while now < deadline && open
        invariant Follow(retries, Closing(plan), log) == Some(e)
        invariant e.mode == FinWait(i) && e.fin == None && e.closes == e0.closes && e.plan == plan
        invariant Count(written, Close) == e.closes && Count(written, Bye) == e.byes
        invariant old(position) <= position && now == old(now) + Ticks(incoming, old(position), position)
        invariant Waits(incoming, timeout, old(position), position, open)
        invariant written == old(written) + Byes(incoming, old(position), position)
        decreases deadline - now
      {
        OneMoreRead(incoming, old(position), position);
        var line := RecvLine();
        if line.Brings? {
          FollowOne(retries, Closing(plan), log, Heard(line.y));
          log := log + [Heard(line.y)];
          e := ReadLine(e, line.y).0;
          if line.y.Bye? {
            return true, e;
          }
          QueueCounts(written, Bye, Close);
          QueueCounts(written, Bye, Bye);
          written := written + [Bye];
        }
        open := !line.Nothing?;
      }
      FollowOne(retries, Closing(plan), log, Late);
      log := log + [Late];
      e := Expired(retries, e);
      return false, e;
    }
  }

  /** The reads so far, none of which has ended the wait but, if it is not open any more, the last. */
  ghost predicate Waits(incoming: nat -> Arrival, timeout: nat, from: nat, till: nat, open: bool) {
    && (forall k :: from <= k < till ==>
          && Ticks(incoming, from, k) < timeout && !(incoming(k).Brings? && incoming(k).y.Bye?)
          && (incoming(k).Nothing? ==> k == till - 1 && !open))
    && (!open ==> from < till && incoming(till - 1).Nothing?)
  }

  lemma NoRead(incoming: nat -> Arrival, from: nat)
    ensures Ticks(incoming, from, from) == 0 && Byes(incoming, from, from) == []
  {
  }

  lemma NothingTried(incoming: nat -> Arrival, timeout: nat, from: nat)
    ensures AreAttempts(incoming, timeout, from, []) && AllWritten(incoming, from, []) == []
    ensures Ticks(incoming, from, from) == 0
  {
  }

  lemma NothingCounted()
    ensures Count([], Close) == 0 && Count([], Bye) == 0
    ensures forall retries, e :: Follow(retries, e, []) == Some(e)
  {
  }
}
