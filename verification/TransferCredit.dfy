/**
  Transfers over a line that loses and damages lines and repeats no block; other lines may be repeated. Here the receive
  buffer is never asked to hold more than the window, the receiver never gives up its file on its own, and the sender
  never has a reason to call an honest receiver's reply a protocol error in recovery.
*/
module TransferCredit {
  import opened Basics
  import opened Crc32
  import opened Text
  import opened Transfer
  import opened TransferQueues
  import opened TransferSafety

  /** The receiver stands between what is acknowledged and what is still to come. After a gap it waits exactly at
      `base`, and the sender can add nothing but that block. */
  ghost predicate Tight(st: System) {
    && st.s.base <= st.r.expected
    && (forall f :: f in st.toR && f.Data? ==> st.r.expected <= f.seqno)
    && st.r.drops <= 1
    && (st.r.drops == 1 ==>
          && st.s.base == st.r.expected
          && (forall f :: f in st.toR && f.Data? ==> f.seqno == st.r.expected)
          && (st.s.next >= st.s.base + 2 || st.s.cwnd == 1))
  }

  /** The receiver has been reset by the sender and no block is on the line. */
  ghost predicate Drained(st: System) {
    st.r.expected == 0 && st.r.drops == 0 && forall f :: f in st.toR ==> !f.Data?
  }

  ghost predicate Position(st: System) {
    && (Tight(st) || Drained(st))
    && (Flows(st.s) ==> Tight(st))
    && (RecoversReset(st.s) ==> Drained(st))
    && (forall y :: y in st.toS && y.ResetAck? && InReset(st.s) ==> Drained(st))
  }

  ghost predicate NoBlockBehindReset(q: seq<Frame>) {
    forall i, j :: 0 <= i < j < |q| && q[i].Reset? ==> !q[j].Data?
  }

  /** Every block on the line is there once, and was sent after the last acknowledged one. */
  ghost predicate Credit(st: System) {
    Increasing(st.toR) && forall f :: f in st.toR && f.Data? ==> st.s.base <= f.seqno
  }

  ghost predicate Steady(st: System) {
    && st.r.resets == 0 && !st.r.mode.Failed?
    && (forall y :: y in st.toS ==> !y.SelfReset? && !y.Err?)
  }

  predicate Blameless(s: Sender) {
    s.phase.Abort? ==>
      && s.phase.why != BadRecoverySequence && s.phase.why != UnexpectedRecoveryReply
      && s.phase.why != UnexpectedResetReply
  }

  ghost predicate Orderly(st: System) {
    Position(st) && NoBlockBehindReset(st.toR) && Credit(st) && Steady(st) && Blameless(st.s)
  }

  lemma OrderlyInitially(c: Config)
    ensures Orderly(Initial(c))
  {
  }

  // ---- the line ------------------------------------------------------------------

  ghost predicate CalmerOnce(p: seq<Frame>, q: seq<Frame>) {
    && (forall f :: f in p ==> f in q)
    && (Increasing(q) ==> Increasing(p))
    && (NoBlockBehindReset(q) ==> NoBlockBehindReset(p))
  }

  lemma WithoutIsCalmerOnce(q: seq<Frame>, i: nat)
    requires i < |q|
    ensures CalmerOnce(Without(q, i), q)
  {
    WithoutIsCalmer(q, i);
    WithoutStaysSorted(q, i);
    var p := Without(q, i);
    forall k | 0 <= k < |p|
      ensures p[k] == q[if k < i then k else k + 1]
    {
    }
  }

  /** A line that is no block can be there twice. */
  lemma TwiceIsCalmerOnce(q: seq<Frame>, i: nat)
    requires i < |q| && !q[i].Data?
    ensures CalmerOnce(Twice(q, i), q)
  {
    TwiceIsCalmer(q, i);
    var p := Twice(q, i);
    forall k | 0 <= k < |p|
      ensures p[k] == q[if k <= i then k else k - 1]
    {
    }
  }

  lemma TailIsCalmerOnce(q: seq<Frame>)
    requires q != []
    ensures CalmerOnce(q[1..], q)
  {
    assert Without(q, 0) == q[1..];
    WithoutIsCalmerOnce(q, 0);
  }

  lemma OrderlyIfCalmer(st: System, toR: seq<Frame>, toS: seq<Reply>)
    requires Orderly(st) && CalmerOnce(toR, st.toR) && forall y :: y in toS ==> y in st.toS
    ensures Orderly(st.(toR := toR, toS := toS))
  {
    hide Increasing, NoBlockBehindReset;
  }

  lemma DamageIsCalmerOnce(q: seq<Frame>, i: nat, payload: bytes)
    requires i < |q| && q[i].Data?
    ensures var p := q[i := q[i].(payload := payload)];
            && (Increasing(q) ==> Increasing(p)) && (NoBlockBehindReset(q) ==> NoBlockBehindReset(p))
            && forall f :: f in p && f.Data? ==> exists g :: g in q && g.Data? && g.seqno == f.seqno
  {
    var p := q[i := q[i].(payload := payload)];
    forall f | f in p && f.Data?
      ensures exists g :: g in q && g.Data? && g.seqno == f.seqno
    {
      var k :| 0 <= k < |p| && p[k] == f;
      assert q[k] in q && q[k].Data? && q[k].seqno == f.seqno;
    }
  }

  lemma OrderlyIfDamaged(st: System, i: nat, payload: bytes)
    requires Orderly(st) && i < |st.toR| && st.toR[i].Data?
    ensures Orderly(st.(toR := st.toR[i := st.toR[i].(payload := payload)]))
  {
    DamageIsCalmerOnce(st.toR, i, payload);
    hide Increasing, NoBlockBehindReset;
    assert st.toR[i] in st.toR;
  }

  // ---- the receiver ------------------------------------------------------------------

  /** A reply that is neither a reset nor a failure, and a receiver that has not moved. */
  lemma OrderlyReply(st: System, y: Reply)
    requires Orderly(st) && !y.SelfReset? && !y.Err? && !y.ResetAck?
    ensures Orderly(st.(toS := st.toS + [y]))
  {
    hide Increasing, NoBlockBehindReset;
    Appended(st.toS, y);
  }

  /** Blocks behind the head of the queue have higher numbers. */
  lemma HeadIsLowest(q: seq<Frame>)
    requires q != [] && Increasing(q) && q[0].Data?
    ensures forall g :: g in q[1..] && g.Data? ==> q[0].seqno < g.seqno
  {
    forall g | g in q[1..] && g.Data?
      ensures q[0].seqno < g.seqno
    {
      var k :| 1 <= k < |q| && q[k] == g;
    }
  }

  lemma HeadResetDrains(q: seq<Frame>)
    requires q != [] && NoBlockBehindReset(q) && q[0].Reset?
    ensures forall g :: g in q[1..] ==> !g.Data?
  {
    forall g | g in q[1..]
      ensures !g.Data?
    {
      var k :| 1 <= k < |q| && q[k] == g;
    }
  }

  /** A block read in order: committed, or one ahead of the receiver and remembered as a gap. */
  lemma OrderlyData(c: Config, st: System, f: Frame, r2: Receiver, y: Reply)
    requires c.Valid() && Orderly(st) && SenderOk(c, st.s) && st.r.mode.Receiving?
    requires f.Data? && Tight(st) && st.r.expected <= f.seqno < st.s.next
    requires !RecoversReset(st.s) && (InReset(st.s) ==> forall z :: z in st.toS ==> !z.ResetAck?)
    requires forall g :: g in st.toR && g.Data? ==> f.seqno < g.seqno < st.s.next
    requires st.r.drops == 1 ==> f.seqno == st.r.expected
    requires DataOutcome(st.r, f.seqno, r2, y)
    ensures Orderly(System(st.s, r2, st.toR, st.toS + [y]))
  {
    hide Increasing, NoBlockBehindReset;
    Appended(st.toS, y);
  }

  lemma OrderlyDeliverData(c: Config, st: System)
    requires c.Valid() && Inv(c, st) && Orderly(st) && Next(c, st, Deliver).Some? && st.toR[0].Data?
    ensures Orderly(Next(c, st, Deliver).value)
  {
    hide Crc, Inv, ReceiveData, DataOutcome, ReceiverOk, FencedBehind, DataBehind, ResetBehind, FrameOk;
    var f, rest := st.toR[0], st.(toR := st.toR[1..]);
    TailIsCalmerOnce(st.toR);
    OrderlyIfCalmer(st, st.toR[1..], st.toS);
    HeadRead(c, st);
    HeadIsLowest(st.toR);
    InvHasReceiver(c, st);
    DataHas(c, st.r, f);
    TightHead(c, st);
    hide Orderly;
    var (r2, ys) := Receive(c.Announced(), c.compression, st.r, f);
    OrderlyData(c, rest, f, r2, ys[0]);
    assert ys == [ys[0]];
  }

  lemma TightHead(c: Config, st: System)
    requires c.Valid() && Inv(c, st) && Orderly(st) && st.toR != [] && st.toR[0].Data?
    ensures SenderOk(c, st.s) && Tight(st.(toR := st.toR[1..]))
    ensures !RecoversReset(st.s) && (InReset(st.s) ==> forall z :: z in st.toS ==> !z.ResetAck?)
    ensures st.r.expected <= st.toR[0].seqno && (st.r.drops == 1 ==> st.toR[0].seqno == st.r.expected)
    ensures forall g :: g in st.toR && g.Data? ==> g.seqno < st.s.next
    ensures forall g :: g in st.toR[1..] ==> g in st.toR
  {
    assert st.toR[0] in st.toR;
    forall g | g in st.toR && g.Data?
      ensures g.seqno < st.s.next
    {
      assert FrameOk(c, st.s, g);
    }
    hide Increasing, NoBlockBehindReset, FrameOk, ReplyOk, ReceiverOk, SenderOk, Coupled;
  }

  lemma OrderlyReset(st: System, t: nat, r2: Receiver)
    requires Orderly(st) && st.r.mode.Receiving? && !Flows(st.s)
    requires r2.expected == 0 && r2.drops == 0 && r2.resets == 0 && r2.mode.Receiving?
    requires forall g :: g in st.toR ==> !g.Data?
    ensures Orderly(System(st.s, r2, st.toR, st.toS + [ResetAck(t)]))
  {
    hide Increasing, NoBlockBehindReset;
    Appended(st.toS, ResetAck(t));
  }

  lemma OrderlyDone(st: System, y: Reply)
    requires Orderly(st) && y.Ok?
    ensures Orderly(System(st.s, st.r.(mode := Finished(true)), st.toR, st.toS + [y]))
  {
    hide Increasing, NoBlockBehindReset;
    Appended(st.toS, y);
  }

  lemma NoFlowBehindReset(c: Config, st: System)
    requires c.Valid() && Inv(c, st) && st.toR != [] && st.toR[0].Reset?
    ensures !Flows(st.s)
  {
    assert st.toR[0] in st.toR;
    hide ReceiverOk, FrameOk, ReplyOk, SenderOk;
  }

  lemma OrderlyDeliverControl(c: Config, st: System)
    requires c.Valid() && Inv(c, st) && Orderly(st) && Next(c, st, Deliver).Some? && !st.toR[0].Data?
    ensures Orderly(Next(c, st, Deliver).value)
  {
    var f, rest := st.toR[0], st.(toR := st.toR[1..]);
    TailIsCalmerOnce(st.toR);
    OrderlyIfCalmer(st, st.toR[1..], st.toS);
    HeadRead(c, st);
    if f.Reset? {
      NoFlowBehindReset(c, st);
      BlocksBehindReset(st);
    }
    hide Crc, Inv, Orderly, FencedBehind, DataBehind, ResetBehind, ReceiveDone;
    match f
    case Ayt(t) => OrderlyReply(rest, Here(t, st.r.expected));
    case Barrier(t) => OrderlyReply(rest, Resume(t, st.r.expected));
    case Reset(t) =>
      var (r2, _) := Receive(c.Announced(), c.compression, st.r, f);
      OrderlyReset(rest, t, r2);
    case Done(crc) =>
      DoneFinishes(c, st, crc);
      OrderlyDone(rest, Ok(st.r.running));
  }

  lemma BlocksBehindReset(st: System)
    requires Orderly(st) && st.toR != [] && st.toR[0].Reset?
    ensures forall g :: g in st.toR[1..] ==> !g.Data?
  {
    HeadResetDrains(st.toR);
  }

  lemma DoneFinishes(c: Config, st: System, crc: bv32)
    requires c.Valid() && Inv(c, st) && st.toR != [] && st.toR[0] == Done(crc)
    ensures ReceiveDone(c.Announced(), st.r, crc) == (st.r.(mode := Finished(true)), [Ok(st.r.running)])
  {
    assert st.toR[0] in st.toR;
    BlocksCover(c);
    hide Crc, ReplyOk, SenderOk;
  }

  // ---- the sender ----------------------------------------------------------------------

  /** The sender moves without touching base, next or the line. */
  lemma OrderlyPhase(st: System, s2: Sender)
    requires Orderly(st) && s2.base == st.s.base && s2.next == st.s.next && Blameless(s2)
    requires s2.cwnd == st.s.cwnd || s2.cwnd == 1
    requires (Flows(s2) ==> Flows(st.s)) && (RecoversReset(s2) ==> Drained(st))
    requires InReset(s2) ==> InReset(st.s) || forall y :: y in st.toS ==> !y.ResetAck?
    ensures Orderly(st.(s := s2))
  {
    hide Increasing, NoBlockBehindReset;
  }

  lemma OrderlyLine(st: System)
    requires Orderly(st) && st.toS != []
    ensures Orderly(LineRead(st))
    ensures !st.toS[0].SelfReset? && !st.toS[0].Err?
  {
    assert CalmerOnce(st.toR, st.toR);
    OrderlyIfCalmer(st, st.toR, st.toS[1..]);
    assert st.toS[0] in st.toS;
    hide Increasing, NoBlockBehindReset;
  }

  lemma OrderlyHandle(c: Config, st: System, y: Reply, late: bool, again: bool)
    requires c.Valid() && Orderly(st) && InSync(st) && InWindow(st.s)
    requires !y.SelfReset? && (y.Ack? ==> y.n < st.r.expected)
    ensures Orderly(st.(s := Handle(c, st.s, y, late, again)))
  {
    hide Increasing, NoBlockBehindReset;
  }

  /** While no block is repeated the receiver has not reset itself, so the line flows only in step. */
  lemma FlowsInSync(c: Config, st: System)
    requires c.Valid() && Inv(c, st) && Orderly(st) && Flows(st.s)
    ensures InSync(st) && forall y :: y in st.toS ==> !y.ResetAck?
  {
    hide ReceiverOk, FrameOk, ReplyOk, SenderOk, Position, Credit, NoBlockBehindReset, Sorted;
  }

  lemma OrderlyWindowLine(c: Config, st: System, late: bool, again: bool)
    requires c.Valid() && Inv(c, st) && Orderly(st) && InWindow(st.s) && st.toS != []
    ensures Orderly(LineRead(st).(s := Handle(c, st.s, st.toS[0], late, again)))
  {
    OrderlyLine(st);
    LineReadKeeps(c, st);
    FlowsInSync(c, st);
    FlowsInSync(c, LineRead(st));
    assert st.toS[0] in st.toS;
    hide Handle, Inv, Orderly;
    OrderlyHandle(c, LineRead(st), st.toS[0], late, again);
  }

  lemma OrderlyNextProbe(c: Config, st: System, i: nat, again: bool)
    requires c.Valid() && Inv(c, st) && Orderly(st) && InWindow(st.s)
    ensures Orderly(st.(s := NextProbe(c, st.s, i, again)))
  {
    FlowsInSync(c, st);
    hide Inv, Orderly, Drained;
    OrderlyPhase(st, NextProbe(c, st.s, i, again));
  }

  lemma OrderlyWindow(c: Config, st: System, e: Event)
    requires c.Valid() && Inv(c, st) && Orderly(st) && SenderStep(c, st, e).Some?
    requires st.s.phase.Wait? || st.s.phase.Guard? || st.s.phase.ProbeRead?
    ensures Orderly(SenderStep(c, st, e).value)
  {
    hide Inv, Orderly, Handle, NextProbe, Drained;
    if e.Timeout? {
      if st.s.phase.Wait? {
        OrderlyPhase(st, st.s.(cwnd := 1, clean := 0, phase := Guard(false)));
      } else {
        OrderlyNextProbe(c, st, if st.s.phase.Guard? then 0 else st.s.phase.i + 1, st.s.phase.again);
      }
    } else {
      OrderlyWindowRead(c, st, e);
    }
  }

  lemma OrderlyWindowRead(c: Config, st: System, e: Event)
    requires c.Valid() && Inv(c, st) && Orderly(st) && SenderStep(c, st, e).Some? && e.Rx?
    requires st.s.phase.Wait? || st.s.phase.Guard? || st.s.phase.ProbeRead?
    ensures Orderly(SenderStep(c, st, e).value)
  {
    hide Inv, Orderly, Handle, NextProbe, Drained, InSync, OldResume;
    OrderlyLine(st);
    LineReadKeeps(c, st);
    FlowsInSync(c, LineRead(st));
    var st1 := LineRead(st);
    match st.s.phase
    case Wait => OrderlyWindowLine(c, st, e.late, false);
    case Guard(again) =>
      if e.reply == Blank(true) {
        OrderlyNextProbe(c, st1, 0, again);
      } else {
        OrderlyWindowLine(c, st, true, again);
      }
    case ProbeRead(i, probe, again) =>
      if e.reply.Here? && e.reply.token == probe {
        OrderlyHandle(c, st1, Drop(e.reply.n), true, again);
      } else if IsAck(e.reply) || IsNakOrDrop(e.reply) || IsRst(e.reply) || IsErr(e.reply) {
        OrderlyWindowLine(c, st, true, again);
      } else if e.late {
        OrderlyNextProbe(c, st1, i + 1, again);
      }
  }

  lemma OrderlyWrite(st: System, s2: Sender, f: Frame)
    requires Orderly(st.(s := s2)) && !f.Data?
    ensures Orderly(System(s2, st.r, st.toR + [f], st.toS))
  {
    SortedAppend(st.toR, f);
    Appended(st.toR, f);
    assert NoBlockBehindReset(st.toR + [f]) by {
      forall i | 0 <= i < |st.toR|
        ensures (st.toR + [f])[i] == st.toR[i]
      {
      }
    }
    hide Increasing, NoBlockBehindReset;
  }

  lemma OrderlyControlWrite(c: Config, st: System, e: Event)
    requires c.Valid() && Inv(c, st) && Orderly(st) && SenderStep(c, st, e).Some?
    requires st.s.phase.ProbeWrite? || st.s.phase.ResetWrite? || st.s.phase.BarrierWrite?
    ensures Orderly(SenderStep(c, st, e).value)
  {
    hide Inv, Orderly, Drained;
    var s2 := Send(c, st.s, e).value;
    DrainedInRecovery(st);
    OrderlyPhase(st, s2);
    OrderlyWrite(st, s2, e.frame);
  }

  lemma DrainedInRecovery(st: System)
    requires Orderly(st)
    ensures RecoversReset(st.s) ==> Drained(st)
    ensures InReset(st.s) ==> forall y :: y in st.toS && y.ResetAck? ==> Drained(st)
    ensures Flows(st.s) ==> Tight(st)
  {
    hide Increasing, NoBlockBehindReset, Drained;
  }

  /** The replies that an orderly line can hold during recovery. */
  predicate RecoveryReply(y: Reply, resetToken: Option<nat>) {
    || IsAck(y) || IsNakOrDrop(y) || IsResume(y) || IsHere(y)
    || (y.ResetAck? && Some(y.token) == resetToken)
  }

  lemma RecoveryReplies(c: Config, st: System)
    requires c.Valid() && Inv(c, st) && Orderly(st) && InBarrier(st.s) && st.toS != []
    ensures RecoveryReply(st.toS[0], st.s.resetToken)
    ensures !st.toS[0].ResumeUnreadable?
  {
    hide ReceiverOk, FrameOk, SenderOk, Position, Credit, NoBlockBehindReset, Sorted, Fenced;
    assert st.toS[0] in st.toS;
  }

  lemma ResetReplies(c: Config, st: System)
    requires c.Valid() && Inv(c, st) && Orderly(st) && InReset(st.s) && st.toS != []
    ensures var y := st.toS[0]; y == ResetAck(st.s.lastToken) || IsAck(y) || IsNakOrDrop(y) || IsHere(y) || IsResume(y)
  {
    hide ReceiverOk, FrameOk, SenderOk, Position, Credit, NoBlockBehindReset, Sorted;
    assert st.toS[0] in st.toS;
  }

  lemma ResetTokens(c: Config, st: System)
    requires c.Valid() && Inv(c, st)
    ensures st.s.phase.ResetRead? ==> st.s.phase.reset == st.s.lastToken
    ensures st.s.phase.BarrierRead? ==> st.s.phase.barrier == st.s.lastToken
    ensures st.s.phase.BarrierRead? && st.s.phase.job.AfterNak? ==> st.s.cwnd == 1
  {
    hide ReceiverOk, FrameOk, ReplyOk, Coupled;
  }

  /** The sender stays where it is and accuses no one. */
  predicate Stays(s: Sender, s2: Sender) {
    s2.base == s.base && s2.next == s.next && Blameless(s2) && (s2.cwnd == s.cwnd || s2.cwnd == 1) && !Flows(s2)
  }

  lemma ResetMoves(c: Config, s: Sender, e: Event)
    requires c.Valid() && s.phase.ResetRead? && s.phase.reset == s.lastToken && Send(c, s, e).Some?
    requires e.Rx? ==> var y := e.reply;
               y == ResetAck(s.lastToken) || IsAck(y) || IsNakOrDrop(y) || IsHere(y) || IsResume(y)
    ensures var s2 := Send(c, s, e).value;
            Stays(s, s2) && (RecoversReset(s2) ==> e.Rx? && e.reply == ResetAck(s.lastToken))
  {
  }

  lemma OrderlyResetRead(c: Config, st: System, e: Event)
    requires c.Valid() && Inv(c, st) && Orderly(st) && SenderStep(c, st, e).Some? && st.s.phase.ResetRead?
    ensures Orderly(SenderStep(c, st, e).value)
  {
    ResetTokens(c, st);
    if e.Rx? {
      OrderlyLine(st);
      ResetReplies(c, st);
      assert st.toS[0] in st.toS;
      DrainedInRecovery(st);
    }
    ResetMoves(c, st.s, e);
    hide Inv, Orderly, Drained, Send, Blameless, IsAck, IsNakOrDrop, IsHere, IsResume;
    OrderlyPhase(if e.Rx? then LineRead(st) else st, Send(c, st.s, e).value);
  }

  /** An answer to the barrier is always in range: it is neither before `base` nor after `next`. */
  lemma AnswerInRange(c: Config, st: System)
    requires c.Valid() && Inv(c, st) && Orderly(st) && st.s.phase.BarrierRead? && st.toS != []
    requires st.toS[0].Resume? && st.toS[0].token == st.s.lastToken
    ensures var n := st.toS[0].n;
            && Quiet(LineRead(st), st.s.lastToken, n)
            && (if st.s.phase.job.AfterReset? then n == 0 && Drained(st) else st.s.base <= n <= st.s.next && Tight(st))
  {
    var n := st.toS[0].n;
    DrainedInRecovery(st);
    assert n == st.r.expected by {
      assert st.toS[0] in st.toS;
      hide ReceiverOk, FrameOk, SenderOk, ReplyOk, Orderly, Flowing, Zeroed;
    }
    AnswerFindsQuiet(c, st, n);
    if !st.s.phase.job.AfterReset? {
      FlowsInSync(c, st);
    }
    hide Inv, Orderly, Quiet;
  }

  lemma OrderlyRecovered(c: Config, st: System, n: nat)
    requires c.Valid() && Orderly(st) && st.s.phase.BarrierRead? && Quiet(st, st.s.lastToken, n)
    requires if st.s.phase.job.AfterReset? then n == 0 && Drained(st)
             else st.s.base <= n <= st.s.next && Tight(st) && st.s.cwnd == 1
    ensures Orderly(st.(s := Recovered(c, st.s, st.s.phase.job, n)))
  {
    hide Increasing, NoBlockBehindReset;
  }

  lemma OrderlyBarrierRead(c: Config, st: System, e: Event)
    requires c.Valid() && Inv(c, st) && Orderly(st) && SenderStep(c, st, e).Some? && st.s.phase.BarrierRead?
    ensures Orderly(SenderStep(c, st, e).value)
  {
    hide Inv, Orderly, Drained;
    var BarrierRead(i, barrier, job) := st.s.phase;
    ResetTokens(c, st);
    DrainedInRecovery(st);
    if e.Rx? {
      OrderlyBarrierLine(c, st, e);
    } else {
      OrderlyPhase(st, RetryBarrier(c, st.s, i, barrier, job));
    }
  }

  lemma OrderlyBarrierLine(c: Config, st: System, e: Event)
    requires c.Valid() && Inv(c, st) && Orderly(st) && SenderStep(c, st, e).Some? && st.s.phase.BarrierRead? && e.Rx?
    requires st.s.phase.barrier == st.s.lastToken && (st.s.phase.job.AfterNak? ==> st.s.cwnd == 1)
    ensures Orderly(SenderStep(c, st, e).value)
  {
    hide Inv, Orderly, Drained;
    OrderlyLine(st);
    RecoveryReplies(c, st);
    DrainedInRecovery(LineRead(st));
    var BarrierRead(i, barrier, job) := st.s.phase;
    if e.reply.Resume? && e.reply.token == barrier {
      AnswerInRange(c, st);
      DrainedAfterLine(st);
      hide Inv, Orderly, Drained, Tight, Recovered, Quiet;
      OrderlyRecovered(c, LineRead(st), e.reply.n);
    } else {
      hide Inv, Orderly, Drained;
      OrderlyPhase(LineRead(st), Send(c, st.s, e).value);
    }
  }

  lemma DrainedAfterLine(st: System)
    requires st.toS != []
    ensures Drained(LineRead(st)) == Drained(st) && Tight(LineRead(st)) == Tight(st)
  {
  }

  /** After a gap the only block that can still be written is the one the receiver waits for. */
  lemma OrderlyWriteData(c: Config, st: System, f: Frame)
    requires c.Valid() && Inv(c, st) && Orderly(st) && st.s.phase.Fill?
    requires f.Data? && SenderStep(c, st, Tx(f)).Some?
    ensures Orderly(SenderStep(c, st, Tx(f)).value)
  {
    hide Carries, Sound, ReceiverOk, Increasing, NoBlockBehindReset, Sorted;
    FlowsInSync(c, st);
    DataAppends(c, st, f);
    ResetsAreGone(c, st, f);
    Appended(st.toR, f);
    hide Inv, InSync;
  }

  lemma ResetsAreGone(c: Config, st: System, f: Frame)
    requires c.Valid() && Inv(c, st) && st.s.phase.Fill?
    ensures NoBlockBehindReset(st.toR + [f])
  {
    assert Flowing(c, st);
    forall i | 0 <= i < |st.toR|
      ensures !(st.toR + [f])[i].Reset?
    {
      assert st.toR[i] in st.toR;
    }
  }

  lemma OrderlyFill(c: Config, st: System, e: Event)
    requires c.Valid() && Inv(c, st) && Orderly(st) && SenderStep(c, st, e).Some? && st.s.phase.Fill?
    ensures Orderly(SenderStep(c, st, e).value)
  {
    DrainedInRecovery(st);
    if e.Tx? && e.frame.Data? {
      OrderlyWriteData(c, st, e.frame);
    } else {
      hide Inv, Orderly, Drained, Crc;
      var s2 := Send(c, st.s, e).value;
      OrderlyPhase(st, s2);
      if e.Tx? {
        OrderlyWrite(st, s2, e.frame);
      }
    }
  }

  lemma AwaitMoves(c: Config, s: Sender, e: Event)
    requires c.Valid() && s.phase.AwaitOk? && Send(c, s, e).Some?
    ensures var s2 := Send(c, s, e).value; !e.Tx? && Stays(s, s2) && !RecoversReset(s2) && !InReset(s2)
  {
    hide Crc;
  }

  lemma OrderlyAwait(c: Config, st: System, e: Event)
    requires c.Valid() && Inv(c, st) && Orderly(st) && SenderStep(c, st, e).Some? && st.s.phase.AwaitOk?
    ensures Orderly(SenderStep(c, st, e).value)
  {
    hide Inv, Orderly, Drained, Crc, Send, Blameless;
    if e.Rx? {
      OrderlyLine(st);
    }
    AwaitMoves(c, st.s, e);
    OrderlyPhase(if e.Rx? then LineRead(st) else st, Send(c, st.s, e).value);
  }

  // ---- every step, every run ------------------------------------------------------------

  lemma OrderlySend(c: Config, st: System, e: Event)
    requires c.Valid() && Inv(c, st) && Orderly(st) && SenderStep(c, st, e).Some?
    ensures Orderly(SenderStep(c, st, e).value)
  {
    hide Inv, Orderly, FillNext, Handle, GuardNext, ProbeNext, ResetNext, BarrierNext, AwaitNext;
    match st.s.phase
    case Fill => OrderlyFill(c, st, e);
    case Wait => OrderlyWindow(c, st, e);
    case Guard(_) => OrderlyWindow(c, st, e);
    case ProbeWrite(_, _) => OrderlyControlWrite(c, st, e);
    case ProbeRead(_, _, _) => OrderlyWindow(c, st, e);
    case ResetWrite(_, _, _) => OrderlyControlWrite(c, st, e);
    case ResetRead(_, _, _) => OrderlyResetRead(c, st, e);
    case BarrierWrite(_, _, _) => OrderlyControlWrite(c, st, e);
    case BarrierRead(_, _, _) => OrderlyBarrierRead(c, st, e);
    case AwaitOk => OrderlyAwait(c, st, e);
  }

  lemma OrderlyStep(c: Config, st: System, step: Step)
    requires c.Valid() && Inv(c, st) && Orderly(st) && Next(c, st, step).Some?
    requires step.RepeatFrame? ==> !st.toR[step.i].Data?
    ensures Orderly(Next(c, st, step).value)
  {
    hide Inv, Orderly, SenderStep, Receive, Increasing, NoBlockBehindReset;
    match step
    case SenderMoves(e) => OrderlySend(c, st, e);
    case Deliver =>
      if st.toR[0].Data? {
        OrderlyDeliverData(c, st);
      } else {
        OrderlyDeliverControl(c, st);
      }
    case PayloadTimesOut =>
      TailIsCalmerOnce(st.toR);
      OrderlyIfCalmer(st, st.toR[1..], st.toS);
      OrderlyReply(st.(toR := st.toR[1..]), Drop(st.r.expected));
    case LoseFrame(i) =>
      WithoutIsCalmerOnce(st.toR, i);
      OrderlyIfCalmer(st, Without(st.toR, i), st.toS);
    case LoseReply(i) =>
      WithoutIsCalmer(st.toS, i);
      OrderlyIfCalmer(st, st.toR, Without(st.toS, i));
    case RepeatFrame(i) =>
      TwiceIsCalmerOnce(st.toR, i);
      OrderlyIfCalmer(st, Twice(st.toR, i), st.toS);
    case RepeatReply(i) =>
      TwiceIsCalmer(st.toS, i);
      OrderlyIfCalmer(st, st.toR, Twice(st.toS, i));
    case DamageFrame(i, payload) => OrderlyIfDamaged(st, i, payload);
  }

  lemma {:induction false} OrderlyRun(c: Config, steps: seq<Step>)
    requires c.Valid() && Exec(c, steps).Some? && BlocksOnce(c, steps)
    ensures Orderly(Exec(c, steps).value) && Inv(c, Exec(c, steps).value)
    decreases |steps|
  {
    RunKeeps(c, steps);
    hide Inv, Orderly, Next;
    if steps == [] {
      OrderlyInitially(c);
    } else {
      var before, last := steps[..|steps| - 1], steps[|steps| - 1];
      OrderlyRun(c, before);
      OrderlyStep(c, Exec(c, before).value, last);
    }
  }

  // ---- what holds in every run that repeats no block ----------------------------------------

  /** The receiver never counts up to a reset of its own: with a window of two it sees at most one gap before the
      missing block arrives. */
  lemma ReceiverNeverGivesUp(c: Config, steps: seq<Step>)
    requires c.Valid() && Exec(c, steps).Some? && BlocksOnce(c, steps)
    ensures var r := Exec(c, steps).value.r; r.drops <= 1 && r.resets == 0 && !r.mode.Failed?
  {
    OrderlyRun(c, steps);
    hide Inv, Credit, NoBlockBehindReset;
  }

  /** An honest receiver never makes the sender abort recovery with a protocol error. */
  lemma RecoveryNeverRefused(c: Config, steps: seq<Step>)
    requires c.Valid() && Exec(c, steps).Some? && BlocksOnce(c, steps)
    ensures Blameless(Exec(c, steps).value.s)
  {
    OrderlyRun(c, steps);
    hide Inv, Credit, NoBlockBehindReset, Position;
  }

  /** While blocks flow, everything acknowledged is in the receiver's file. */
  lemma AcknowledgedStaysHeld(c: Config, steps: seq<Step>)
    requires c.Valid() && Exec(c, steps).Some? && BlocksOnce(c, steps) && Flows(Exec(c, steps).value.s)
    ensures c.Prefix(Exec(c, steps).value.s.base) <= Exec(c, steps).value.r.file
  {
    OrderlyRun(c, steps);
    var st := Exec(c, steps).value;
    InvHasReceiver(c, st);
    FlowsInSync(c, st);
    PrefixGrows(c, st.s.base, st.r.expected);
    hide Inv, Orderly;
  }

  // ---- the receive buffer -------------------------------------------------------------------

  /** Bytes of header and payload that are still on their way to the receiver or in its buffer. */
  function InFlight(q: seq<Frame>): nat {
    if q == [] then 0 else (if q[0].Data? then WireSize(q[0]) else 0) + InFlight(q[1..])
  }

  lemma HeaderIsShort(f: Frame)
    requires f.Data? && f.seqno < MAX_FILE_SIZE && |f.payload| <= MAX_BLOCK_SIZE
    requires f.packed ==> f.rawLen <= MAX_BLOCK_SIZE
    ensures |Header(f)| + 1 <= FRAME_OVERHEAD
  {
    DecimalIsShort(f.seqno, 8);
    DecimalIsShort(|f.payload|, 4);
    if f.packed {
      DecimalIsShort(f.rawLen, 4);
    }
  }

  lemma HeaderWords(f: Frame)
    requires f.Data?
    ensures Words(Header(f)) ==
            if f.packed then ["ZDATA", Decimal(f.seqno), Decimal(|f.payload|), Decimal(f.rawLen), Hex8(f.want)]
            else ["DATA", Decimal(f.seqno), Decimal(|f.payload|), Hex8(f.want)]
  {
    DecimalReadsBack(f.seqno);
    DecimalReadsBack(|f.payload|);
    DecimalReadsBack(f.rawLen);
    Hex8ReadsBack(f.want);
    hide Words, Decimal, Number, Hex8, HexNumber, Joined, IsHex, IsDecimal, IsWord;
    var a, b, d := Decimal(f.seqno), Decimal(|f.payload|), Hex8(f.want);
    assert "DATA" + " " == "DATA " && "ZDATA" + " " == "ZDATA ";
    TypesAreWords();
    if f.packed {
      WordsOfJoined(["ZDATA", a, b, Decimal(f.rawLen), d]);
      FiveJoined("ZDATA", a, b, Decimal(f.rawLen), d);
    } else {
      WordsOfJoined(["DATA", a, b, d]);
      FourJoined("DATA", a, b, d);
    }
  }

  lemma TypesAreWords()
    ensures IsWord("DATA") && IsWord("ZDATA")
    ensures forall s :: IsDecimal(s) ==> IsWord(s)
  {
  }

  lemma FourJoined(a: string, b: string, c: string, d: string)
    ensures Joined([a, b, c, d]) == a + " " + b + " " + c + " " + d
  {
    assert Joined([d]) == d && Joined([c, d]) == c + " " + d;
    assert Joined([b, c, d]) == b + " " + Joined([c, d]);
    assert [a, b, c, d][1..] == [b, c, d];
  }

  lemma FiveJoined(a: string, b: string, c: string, d: string, e: string)
    ensures Joined([a, b, c, d, e]) == a + " " + b + " " + c + " " + d + " " + e
  {
    FourJoined(b, c, d, e);
    assert [a, b, c, d, e][1..] == [b, c, d, e];
  }

  /** The words of a header say what the frame is: its number, its length on the line, its length unpacked if it is
      packed, and its checksum. */
  lemma HeaderReadsBack(f: Frame)
    requires f.Data?
    ensures var ws := Words(Header(f));
            && |ws| == (if f.packed then 5 else 4) && ws[0] == (if f.packed then "ZDATA" else "DATA")
            && IsDecimal(ws[1]) && Number(ws[1]) == f.seqno
            && IsDecimal(ws[2]) && Number(ws[2]) == |f.payload|
            && (f.packed ==> IsDecimal(ws[3]) && Number(ws[3]) == f.rawLen)
            && IsHex(ws[|ws| - 1]) && HexNumber(ws[|ws| - 1]) == f.want as nat
  {
    DecimalReadsBack(f.seqno);
    DecimalReadsBack(|f.payload|);
    DecimalReadsBack(f.rawLen);
    Hex8ReadsBack(f.want);
    HeaderWords(f);
    hide *;
  }

  function Slots(n: nat, slot: nat): nat {
    n * slot
  }

  lemma {:induction false} MoreSlots(a: nat, b: nat, slot: nat)
    requires a <= b
    ensures Slots(a, slot) + (if a < b then slot else 0) <= Slots(b, slot)
  {
    if a < b {
      MoreSlots(a, b - 1, slot);
      assert b * slot == (b - 1) * slot + slot;
    }
  }

  /** Frames that are there once and lie between `lo` and `hi` fit in that many buffer slots. */
  lemma {:induction false} FlightIsBounded(q: seq<Frame>, lo: nat, hi: nat, slot: nat)
    requires lo <= hi && Increasing(q)
    requires forall f :: f in q && f.Data? ==> lo <= f.seqno < hi && WireSize(f) <= slot
    ensures InFlight(q) <= Slots(hi - lo, slot)
  {
    hide WireSize, Increasing, Slots;
    if q != [] {
      assert q[0] in q;
      var rest := q[1..];
      TailStaysSorted(q);
      if q[0].Data? {
        HeadIsLowest(q);
        FlightIsBounded(rest, q[0].seqno + 1, hi, slot);
        MoreSlots(hi - (q[0].seqno + 1), hi - lo, slot);
      } else {
        FlightIsBounded(rest, lo, hi, slot);
      }
    }
  }

  /** Blocks in flight have different numbers from `base` up, and with their headers they fit in the buffer space that
      was negotiated: `window` slots of one block and `FRAME_OVERHEAD` bytes each. Shrinking the congestion window
      while blocks are in flight does not change that. */
  lemma FlightFitsWindow(c: Config, steps: seq<Step>)
    requires c.Valid() && Exec(c, steps).Some? && BlocksOnce(c, steps)
    ensures var st := Exec(c, steps).value;
            && (forall i, j :: 0 <= i < j < |st.toR| && st.toR[i].Data? && st.toR[j].Data? ==>
                  st.toR[i].seqno < st.toR[j].seqno)
            && (forall f :: f in st.toR && f.Data? ==> st.s.base <= f.seqno < st.s.next)
            && st.s.next <= st.s.base + c.window
            && InFlight(st.toR) <= c.window * (c.blockSize + FRAME_OVERHEAD)
  {
    OrderlyRun(c, steps);
    FlightFits(c, Exec(c, steps).value);
    hide *;
  }

  lemma FlightFits(c: Config, st: System)
    requires c.Valid() && Inv(c, st) && Orderly(st)
    ensures forall i, j :: 0 <= i < j < |st.toR| && st.toR[i].Data? && st.toR[j].Data? ==>
              st.toR[i].seqno < st.toR[j].seqno
    ensures forall f :: f in st.toR && f.Data? ==> st.s.base <= f.seqno < st.s.next
    ensures st.s.next <= st.s.base + c.window
    ensures InFlight(st.toR) <= c.window * (c.blockSize + FRAME_OVERHEAD)
  {
    hide Position, NoBlockBehindReset, Steady, Coupled, ReceiverOk, ReplyOk, FrameOk, WireSize, InFlight;
    assert Slots(c.window, c.blockSize + FRAME_OVERHEAD) == c.window * (c.blockSize + FRAME_OVERHEAD);
    hide Slots;
    var slot := c.blockSize + FRAME_OVERHEAD;
    forall f | f in st.toR && f.Data?
      ensures f.seqno < st.s.next && WireSize(f) <= slot
    {
      FlightSlot(c, st, f);
    }
    FlightIsBounded(st.toR, st.s.base, st.s.next, slot);
    MoreSlots(st.s.next - st.s.base, c.window, slot);
  }

  lemma FlightSlot(c: Config, st: System, f: Frame)
    requires c.Valid() && Core(c, st) && f in st.toR && f.Data?
    ensures f.seqno < st.s.next && WireSize(f) <= c.blockSize + FRAME_OVERHEAD
  {
    hide ReceiverOk, ReplyOk, Header;
    assert FrameOk(c, st.s, f);
    FewBlocks(c);
    HeaderIsShort(f);
  }

  lemma FewBlocks(c: Config)
    requires c.Valid()
    ensures c.Blocks() <= MAX_FILE_SIZE
  {
  }
}
