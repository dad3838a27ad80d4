/**
  A transfer on a line that loses nothing, while no read times out: it always goes on, it needs every block once, and it
  ends with the file verified.
*/
module TransferProgress {
  import opened Basics
  import opened Crc32
  import opened Transfer
  import opened TransferSafety

  /** Neither end is disturbed in this run. */
  predicate Undisturbed(steps: seq<Step>) {
    forall x :: x in steps ==> x.Deliver? || (x.SenderMoves? && !x.e.Timeout?)
  }

  /** Blocks on their way, in order from the one the receiver waits for. */
  ghost predicate BlocksFrom(c: Config, q: seq<Frame>, k: nat)
    requires c.Valid()
  {
    forall i :: 0 <= i < |q| ==> q[i].Data? && q[i].seqno == k + i && Carries(c, q[i])
  }

  /** Acknowledgements on their way, in order from the one the sender waits for. */
  ghost predicate AcksFrom(q: seq<Reply>, k: nat) {
    forall i :: 0 <= i < |q| ==> q[i] == Ack(k + i)
  }

  /** At most `e` times each: recoveries without progress, resets, and attempts made in vain. */
  ghost predicate Spared(s: Sender, e: nat) {
    && s.recoveries <= e && s.resets <= e
    && forall k :: k in s.attempts ==> s.attempts[k] <= if k < s.next then e + 1 else e
  }

  /** Nothing is missing on the line. */
  ghost predicate Healthy(c: Config, st: System, e: nat)
    requires c.Valid()
  {
    && Spared(st.s, e)
    && match st.s.phase
       case Fill => Exchanging(c, st)
       case Wait => Exchanging(c, st) && st.s.base < st.s.next
       case AwaitOk =>
         && st.s.base == st.s.next == st.r.expected == c.Blocks()
         && (if st.r.mode.Receiving? then st.toR == [Done(Crc(0, c.data))] && st.toS == []
             else st.r.mode == Finished(true) && st.toR == [] && st.toS == [Ok(Crc(0, c.data))])
       case Complete(verified) =>
         && verified && st.s.base == st.s.next == st.r.expected == c.Blocks()
         && st.r.mode == Finished(true) && st.toR == [] && st.toS == []
       case _ => false
  }

  ghost predicate Exchanging(c: Config, st: System)
    requires c.Valid()
  {
    && st.r.mode.Receiving? && st.s.base <= st.r.expected <= st.s.next
    && |st.toR| == st.s.next - st.r.expected && BlocksFrom(c, st.toR, st.r.expected)
    && |st.toS| == st.r.expected - st.s.base && AcksFrom(st.toS, st.s.base)
  }

  /** How far the transfer has come: blocks sent, received, acknowledged, and waited for; then DONE and its answer. */
  function Progress(st: System): nat {
    st.s.next + st.r.expected + 2 * st.s.base
    + (match st.s.phase
       case Wait => 1
       case AwaitOk => if st.r.mode.Receiving? then 1 else 2
       case Complete(_) => 3
       case _ => 0)
  }

  // ---- the receiver ------------------------------------------------------------------

  lemma CarriesIsCommitted(c: Config, r: Receiver, f: Frame)
    requires c.Valid() && ReceiverOk(c, r) && r.mode.Receiving?
    requires f.Data? && Carries(c, f) && f.seqno == r.expected
    ensures var (r2, ys) := Receive(c.Announced(), c.compression, r, f);
            && ys == [Ack(r.expected)] && r2.expected == r.expected + 1 && r2.mode.Receiving?
            && r2.resets == r.resets
  {
    hide Crc;
    CommitFits(c, r);
    hide Plain, c.Block, c.Prefix;
  }

  lemma DeliverHealthy(c: Config, st: System, e: nat)
    requires c.Valid() && Inv(c, st) && Healthy(c, st, e) && Next(c, st, Deliver).Some?
    ensures var st2 := Next(c, st, Deliver).value;
            Healthy(c, st2, e) && Progress(st2) == Progress(st) + 1 && st2.s == st.s
  {
    InvHasReceiver(c, st);
    if st.s.phase.AwaitOk? {
      hide Inv, Crc, Spared;
      BlocksCover(c);
    } else {
      hide Receive, Carries, Crc, Inv, ReceiverOk;
      var f := st.toR[0];
      CarriesIsCommitted(c, st.r, f);
      BlockArrives(c, st, e, Receive(c.Announced(), c.compression, st.r, f).0);
    }
  }

  lemma BlockArrives(c: Config, st: System, e: nat, r2: Receiver)
    requires c.Valid() && Healthy(c, st, e) && (st.s.phase.Fill? || st.s.phase.Wait?) && st.toR != []
    requires r2.expected == st.r.expected + 1 && r2.mode.Receiving?
    ensures var st2 := System(st.s, r2, st.toR[1..], st.toS + [Ack(st.r.expected)]);
            Healthy(c, st2, e) && Progress(st2) == Progress(st) + 1
  {
    hide Carries, Crc, Spared;
  }

  // ---- the sender ----------------------------------------------------------------------

  lemma FillHealthy(c: Config, st: System, e: nat, x: Event)
    requires c.Valid() && Healthy(c, st, e) && e <= c.maxRetries && st.s.phase.Fill? && SenderStep(c, st, x).Some?
    requires SenderOk(c, st.s)
    ensures var st2 := SenderStep(c, st, x).value;
            && Healthy(c, st2, e) && Progress(st2) == Progress(st) + 1
            && (e == 0 ==> st2.s.retransmits == st.s.retransmits)
  {
    hide Crc, HeaderFits, Plain;
  }

  lemma ReadHealthy(c: Config, st: System, e: nat, x: Event)
    requires c.Valid() && Healthy(c, st, e) && (st.s.phase.Wait? || st.s.phase.AwaitOk?) && SenderStep(c, st, x).Some?
    requires !x.Timeout? && SenderOk(c, st.s)
    ensures var st2 := SenderStep(c, st, x).value;
            Healthy(c, st2, e) && Progress(st2) == Progress(st) + 1 && st2.s.retransmits == st.s.retransmits
  {
    hide Crc, Carries;
    assert st.toS[0] in st.toS;
  }

  lemma InvHasSender(c: Config, st: System)
    requires c.Valid() && Inv(c, st)
    ensures SenderOk(c, st.s)
  {
    hide ReceiverOk, SenderOk, FrameOk, ReplyOk, Coupled;
  }

  lemma StepHealthy(c: Config, st: System, e: nat, step: Step)
    requires c.Valid() && Inv(c, st) && Healthy(c, st, e) && e <= c.maxRetries && Next(c, st, step).Some?
    requires step.Deliver? || (step.SenderMoves? && !step.e.Timeout?)
    ensures var st2 := Next(c, st, step).value;
            && Healthy(c, st2, e) && Progress(st2) == Progress(st) + 1
            && (e == 0 ==> st2.s.retransmits == st.s.retransmits)
  {
    InvHasSender(c, st);
    if step.Deliver? {
      DeliverHealthy(c, st, e);
    } else if st.s.phase.Fill? {
      FillHealthy(c, st, e, step.e);
    } else {
      hide Inv, SenderOk, Progress, Exchanging, FillNext, Crc;
      ReadHealthy(c, st, e, step.e);
    }
  }

  lemma {:induction false} RunHealthy(c: Config, steps: seq<Step>)
    requires c.Valid() && Exec(c, steps).Some? && Undisturbed(steps)
    ensures var st := Exec(c, steps).value;
            Inv(c, st) && Healthy(c, st, 0) && Progress(st) == |steps| && st.s.retransmits == 0
    decreases |steps|
  {
    RunKeeps(c, steps);
    hide Inv, Healthy, Next, Progress;
    if steps == [] {
      StartsHealthy(c);
    } else {
      var before, step := steps[..|steps| - 1], steps[|steps| - 1];
      assert step in steps;
      RunHealthy(c, before);
      StepHealthy(c, Exec(c, before).value, 0, step);
    }
  }

  lemma StartsHealthy(c: Config)
    requires c.Valid()
    ensures Healthy(c, Initial(c), 0) && Progress(Initial(c)) == 0
  {
  }

  // ---- there is always a next step ---------------------------------------------------------

  /** What an undisturbed transfer can do next, until it is complete. */
  function Onward(c: Config, st: System): Step
    requires c.Valid()
  {
    if st.s.phase.Fill? then
      SenderMoves(if st.s.base >= c.Blocks() then Tx(Done(Crc(0, c.data)))
                  else if st.s.next < Min(c.Blocks(), st.s.base + st.s.cwnd) then Tx(RawFrame(c, st.s.next))
                  else Tau)
    else if st.toS != [] then SenderMoves(Rx(st.toS[0], false))
    else Deliver
  }

  lemma OnwardIsPossible(c: Config, st: System, e: nat)
    requires c.Valid() && Healthy(c, st, e) && e <= c.maxRetries && !st.s.phase.Complete?
    ensures Next(c, st, Onward(c, st)).Some?
    ensures var x := Onward(c, st); x.Deliver? || (x.SenderMoves? && !x.e.Timeout?)
  {
    if st.s.phase.Fill? && st.s.next < c.Blocks() {
      RawCarries(c, st.s.next);
    }
    hide Crc, Carries, HeaderFits, Receive, Handle;
  }

  /** An undisturbed transfer takes 4 * blocks + 3 steps, never fewer and never more; until then there is a next step,
      so no run gets stuck; no block is sent twice; and at the end both sides know that the receiver's file is the
      data. */
  lemma UndisturbedTransferSucceeds(c: Config, steps: seq<Step>)
    requires c.Valid() && Exec(c, steps).Some? && Undisturbed(steps)
    ensures var st := Exec(c, steps).value;
            && |steps| <= 4 * c.Blocks() + 3
            && (|steps| < 4 * c.Blocks() + 3 ==> Undisturbed([Onward(c, st)]) && Next(c, st, Onward(c, st)).Some?)
            && (|steps| == 4 * c.Blocks() + 3 <==> st.s.phase == Complete(true))
            && (st.s.phase == Complete(true) ==> st.r.mode == Finished(true) && st.r.file == c.data)
            && st.s.retransmits == 0 && !st.s.phase.Abort?
  {
    RunHealthy(c, steps);
    var st := Exec(c, steps).value;
    hide Exec;
    ProgressEnds(c, st, 0);
    if !st.s.phase.Complete? {
      OnwardIsPossible(c, st, 0);
    } else {
      FileIsData(c, st, 0);
    }
    hide *;
  }

  lemma ProgressEnds(c: Config, st: System, e: nat)
    requires c.Valid() && Inv(c, st) && Healthy(c, st, e)
    ensures Progress(st) <= 4 * c.Blocks() + 3
    ensures Progress(st) == 4 * c.Blocks() + 3 <==> st.s.phase == Complete(true)
    ensures st.s.phase.Complete? ==> st.s.phase.verified
    ensures !st.s.phase.Abort?
  {
    InvHasSender(c, st);
    hide Inv, BlocksFrom, AcksFrom, Crc;
  }

  lemma FileIsData(c: Config, st: System, e: nat)
    requires c.Valid() && Inv(c, st) && Healthy(c, st, e) && st.s.phase.Complete?
    ensures st.r.mode == Finished(true) && st.r.file == c.data
  {
    InvHasReceiver(c, st);
    BlocksCover(c);
    hide Inv, Crc;
  }

  /** Why the receive buffer is promised only for lines that repeat no block: a line that repeats its first frame puts
      block 0 on the way twice, while the sender's window is one. */
  lemma RepeatsBreakCredit(c: Config)
    requires c.Valid()
    ensures var steps := [SenderMoves(Tx(RawFrame(c, 0))), RepeatFrame(0)];
            && Exec(c, steps).Some?
            && Exec(c, steps).value.toR == [RawFrame(c, 0), RawFrame(c, 0)] && Exec(c, steps).value.s.cwnd == 1
  {
    BlocksCover(c);
    RawCarries(c, 0);
    hide Carries, Crc, RawFrame;
    var write, twice := SenderMoves(Tx(RawFrame(c, 0))), RepeatFrame(0);
    var steps := [write, twice];
    assert steps[..1] == [write] && [write][..0] == [];
    var st := Initial(c);
    assert Exec(c, []) == Some(st);
    var st1 := Next(c, st, write);
    assert RawFrame(c, 0).Data? && RawFrame(c, 0).seqno == 0 by {
      RawIsData(c);
    }
    assert st1.Some? && st1.value.toR == [RawFrame(c, 0)];
    assert Exec(c, [write]) == st1;
    assert Exec(c, steps) == Next(c, st1.value, twice);
  }

  lemma RawIsData(c: Config)
    ensures RawFrame(c, 0).Data? && RawFrame(c, 0).seqno == 0
  {
  }

  // ---- a verdict that is too pessimistic -------------------------------------------------------

  /** The line loses, damages and repeats nothing; reads may time out. */
  ghost predicate OnlyDelays(steps: seq<Step>) {
    forall x :: x in steps ==> x.SenderMoves? || x.Deliver?
  }

  /** A run that loses, damages and repeats nothing, in which the receiver ends with the right file and says OK, and the
      sender reports the file as not verified. */
  ghost predicate Spoils(c: Config, steps: seq<Step>)
    requires c.Valid()
  {
    && OnlyDelays(steps) && Exec(c, steps).Some?
    && var st := Exec(c, steps).value;
       && st.r.mode == Finished(true) && st.r.file == c.data && Ok(Crc(0, c.data)) in st.toS
       && st.s.phase == Complete(false)
  }

  lemma ExecOneMore(c: Config, steps: seq<Step>, x: Step)
    requires c.Valid() && Exec(c, steps).Some?
    ensures Exec(c, steps + [x]) == Next(c, Exec(c, steps).value, x)
  {
    assert (steps + [x])[..|steps|] == steps;
    hide Next;
  }

  /** The first block is on its way, and the sender has given up waiting for its acknowledgement. */
  lemma ImpatientStart(c: Config) returns (steps: seq<Step>, st: System)
    requires c.Valid() && c.Blocks() == 1 && c.probeRetries >= 1
    ensures Exec(c, steps) == Some(st) && OnlyDelays(steps)
    ensures st.r == FRESH && st.toR == [RawFrame(c, 0)] && st.toS == []
    ensures st.s.phase == ProbeWrite(0, false) && st.s.base == 0 && st.s.next == 1 && st.s.lastToken == c.priorToken
  {
    var f := RawFrame(c, 0);
    RawCarries(c, 0);
    assert f.Data? && f.seqno == 0;
    hide Carries, Crc, RawFrame, Exec;
    steps, st := [], Initial(c);
    assert Exec(c, steps) == Some(st) by {
      ExecNothing(c);
    }
    var s1 := st.s.(attempts := st.s.attempts[0 := 1], next := 1);
    steps, st := Extend(c, steps, st, SenderMoves(Tx(f)), System(s1, st.r, st.toR + [f], st.toS));
    steps, st := Extend(c, steps, st, SenderMoves(Tau), st.(s := st.s.(phase := Wait)));
    steps, st := Extend(c, steps, st, SenderMoves(Timeout),
                        st.(s := st.s.(cwnd := 1, clean := 0, phase := Guard(false))));
    steps, st := Extend(c, steps, st, SenderMoves(Timeout), st.(s := st.s.(phase := ProbeWrite(0, false))));
  }

  lemma ExecNothing(c: Config)
    requires c.Valid()
    ensures Exec(c, []) == Some(Initial(c))
  {
  }

  lemma ProbeIsAnswered(c: Config, r: Receiver, t: nat)
    requires c.Valid() && r.mode.Receiving?
    ensures Receive(c.Announced(), c.compression, r, Ayt(t)) == (r, [Here(t, r.expected)])
  {
  }

  /** It probes, and only then block and probe arrive. */
  lemma BothAnswersOnTheWay(c: Config) returns (steps: seq<Step>, st: System)
    requires c.Valid() && c.Blocks() == 1 && c.probeRetries >= 1
    ensures Exec(c, steps) == Some(st) && OnlyDelays(steps)
    ensures st.r == Receive(c.Announced(), c.compression, FRESH, RawFrame(c, 0)).0
    ensures st.toR == [] && st.toS == [Ack(0), Here(c.priorToken + 1, 1)]
    ensures st.s.phase == ProbeRead(0, c.priorToken + 1, false) && st.s.base == 0 && st.s.next == 1
  {
    hide Crc, RawFrame, Receive, Exec;
    var f, t := RawFrame(c, 0), c.priorToken + 1;
    steps, st := ImpatientStart(c);
    FirstBlockArrives(c);
    var r1 := Receive(c.Announced(), c.compression, FRESH, f).0;
    ProbeIsAnswered(c, r1, t);
    var s5 := st.s.(lastToken := t, phase := ProbeRead(0, t, false));
    steps, st := Extend(c, steps, st, SenderMoves(Tx(Ayt(t))), System(s5, st.r, st.toR + [Ayt(t)], st.toS));
    steps, st := Extend(c, steps, st, Deliver, System(s5, r1, st.toR[1..], st.toS + [Ack(0)]));
    steps, st := Extend(c, steps, st, Deliver, System(s5, r1, st.toR[1..], st.toS + [Here(t, 1)]));
  }

  /** The late ACK ends the wait, and the answer to the probe is the first line read after DONE. */
  lemma LateHereSpoilsVerdict(c: Config)
    requires c.Valid() && c.Blocks() == 1 && c.probeRetries >= 1
    ensures exists steps :: Spoils(c, steps)
  {
    var steps, st := BothAnswersOnTheWay(c);
    FirstBlockArrives(c);
    hide Crc, RawFrame, Receive, Exec, Spoils;
    var s6 := Handle(c, st.s, Ack(0), true, false);
    steps, st := Extend(c, steps, st, SenderMoves(Rx(Ack(0), true)), System(s6, st.r, st.toR, st.toS[1..]));
    FinishSpoiled(c, steps, st, c.priorToken + 1);
  }

  lemma FinishSpoiled(c: Config, before: seq<Step>, st0: System, t: nat)
    requires c.Valid() && c.Blocks() == 1 && Exec(c, before) == Some(st0) && OnlyDelays(before)
    requires st0.s.phase.Fill? && st0.s.base == 1 && st0.toR == [] && st0.toS == [Here(t, 1)]
    requires st0.r.mode.Receiving? && st0.r.expected == 1 && st0.r.file == c.data
    requires st0.r.running == Crc(0, c.data) && st0.r.received == |c.data|
    ensures exists steps :: Spoils(c, steps)
  {
    hide Crc, Exec;
    var steps, st := before, st0;
    var crc := Crc(0, c.data);
    steps, st := Extend(c, steps, st, SenderMoves(Tx(Done(crc))),
                        System(st.s.(phase := AwaitOk), st.r, st.toR + [Done(crc)], st.toS));
    steps, st := Extend(c, steps, st, Deliver,
                        System(st.s, st.r.(mode := Finished(true)), st.toR[1..], st.toS + [Ok(crc)]));
    steps, st := Extend(c, steps, st, SenderMoves(Rx(Here(t, 1), false)),
                        System(st.s.(phase := Complete(false)), st.r, st.toR, st.toS[1..]));
    assert Ok(crc) in st.toS;
    assert Spoils(c, steps);
  }

  /** One more step of a run, to a state that is known. */
  lemma Extend(c: Config, steps: seq<Step>, st: System, x: Step, st2: System) returns (longer: seq<Step>, now: System)
    requires c.Valid() && Exec(c, steps) == Some(st) && Next(c, st, x) == Some(st2)
    requires OnlyDelays(steps) && (x.SenderMoves? || x.Deliver?)
    ensures Exec(c, longer) == Some(now) && now == st2 && OnlyDelays(longer)
  {
    hide Next;
    ExecOneMore(c, steps, x);
    longer, now := steps + [x], st2;
  }

  lemma FirstBlockArrives(c: Config)
    requires c.Valid() && c.Blocks() == 1
    ensures var (r, ys) := Receive(c.Announced(), c.compression, FRESH, RawFrame(c, 0));
            && ys == [Ack(0)] && r.expected == 1 && r.mode.Receiving? && r.file == c.data
            && r.running == Crc(0, c.data) && r.received == |c.data|
  {
    RawCarries(c, 0);
    InvInitially(c);
    InvHasReceiver(c, Initial(c));
    CarriesIsCommitted(c, FRESH, RawFrame(c, 0));
    DataHas(c, FRESH, RawFrame(c, 0));
    BlocksCover(c);
    hide Crc, Carries, Plain, Clean, DataOutcome;
  }
}
