/**
  When an honest receiver is not believed: which lines bring which verdict at the end of a transfer, what decides it at
  the moment DONE is written, and which lines make the sender give up over an unexpected reply.
*/
module TransferVerdict {
  import opened Crc32
  import opened Transfer
  import opened TransferQueues
  import opened TransferSafety
  import TransferCredit
  import TransferProgress

  // ---- lines that never come ------------------------------------------------------------

  predicate FrameTame(f: Frame) {
    f.Barrier? ==> f.token >= 1
  }

  predicate ReplyTame(c: Config, y: Reply)
    requires c.Valid()
  {
    (y.Ack? ==> y.n < c.Blocks()) && (y.Resume? ==> y.token >= 1)
  }

  /** Acknowledgements name blocks of the file, and barriers have tokens that were drawn. */
  ghost predicate Tame(c: Config, st: System)
    requires c.Valid()
  {
    && (forall f :: f in st.toR ==> FrameTame(f))
    && (forall y :: y in st.toS ==> ReplyTame(c, y))
    && (InBarrier(st.s) ==> st.s.phase.barrier >= 1)
  }

  /** A receiver that has given up lacks a block, an ERR comes from no other, and once DONE is sent nothing is left of
      any reset. */
  ghost predicate Settled(c: Config, st: System)
    requires c.Valid()
  {
    && (st.r.mode.Failed? ==> st.r.expected < c.Blocks())
    && (Err in st.toS ==> st.r.mode.Failed?)
    && (st.s.phase.AwaitOk? ==> forall y :: y in st.toS ==> !y.SelfReset? && !y.ResetAck?)
  }

  lemma SendTame(c: Config, s: Sender, e: Event)
    requires c.Valid() && (InBarrier(s) ==> s.phase.barrier >= 1) && Send(c, s, e).Some?
    ensures InBarrier(Send(c, s, e).value) ==> Send(c, s, e).value.phase.barrier >= 1
    ensures e.Tx? ==> FrameTame(e.frame)
  {
    hide Crc, HeaderFits, Plain, KeepFrom, Attempts;
  }

  lemma ReceiveTame(c: Config, r: Receiver, f: Frame)
    requires c.Valid() && r.expected <= c.Blocks() && FrameTame(f) && r.mode.Receiving?
    ensures var ys := Receive(c.Announced(), c.compression, r, f).1;
            |ys| <= 1 && forall y :: y in ys ==> ReplyTame(c, y)
  {
    hide Crc, Plain, Clean;
  }

  lemma StepTame(c: Config, st: System, step: Step)
    requires c.Valid() && Inv(c, st) && Tame(c, st) && Next(c, st, step).Some?
    ensures Tame(c, Next(c, st, step).value)
  {
    hide Inv, Receive, Send, ReplyTame, FrameTame;
    match step
    case SenderMoves(e) => SendTame(c, st.s, e);
    case Deliver =>
      assert st.toR[0] in st.toR;
      InvHasReceiver(c, st);
      ReceiveTame(c, st.r, st.toR[0]);
    case PayloadTimesOut => DropIsTame(c, st.r.expected);
    case LoseFrame(i) => WithoutIsCalmer(st.toR, i);
    case LoseReply(i) => WithoutIsCalmer(st.toS, i);
    case RepeatFrame(i) => TwiceIsCalmer(st.toR, i);
    case RepeatReply(i) => TwiceIsCalmer(st.toS, i);
    case DamageFrame(i, payload) =>
      DamageMembers(st.toR, i, st.toR[i].(payload := payload));
      DataIsTame(st.toR[i].(payload := payload));
  }

  lemma DropIsTame(c: Config, n: nat)
    requires c.Valid()
    ensures ReplyTame(c, Drop(n))
  {
  }

  lemma DataIsTame(f: Frame)
    requires f.Data?
    ensures FrameTame(f)
  {
  }

  /** What one frame can do to a receiver that has given up, has every block, or neither. */
  lemma ReceiveSettled(c: Config, st: System)
    requires c.Valid() && Inv(c, st) && st.toR != [] && st.r.mode.Receiving?
    ensures var (r2, ys) := Receive(c.Announced(), c.compression, st.r, st.toR[0]);
            && (r2.mode.Failed? ==> r2.expected < c.Blocks())
            && (Err in ys ==> r2.mode.Failed?)
            && (st.s.phase.AwaitOk? ==> forall y :: y in ys ==> !y.SelfReset? && !y.ResetAck?)
  {
    hide Inv, ReceiveData, ReceiveDone, Crc;
    var f := st.toR[0];
    if f.Data? {
      DataSettled(c, st);
    } else {
      ControlFrames(c, st, f);
      if f.Done? {
        TransferCredit.DoneFinishes(c, st, f.crc);
      }
    }
  }

  lemma ControlFrames(c: Config, st: System, f: Frame)
    requires c.Valid() && Inv(c, st) && f in st.toR && !f.Data?
    ensures f.Ayt? || f.Barrier? || f.Reset? || f.Done?
    ensures st.s.phase.AwaitOk? ==> !f.Reset?
  {
    hide ReceiverOk, ReplyOk, SenderOk;
    assert FrameOk(c, st.s, f);
  }

  lemma DataSettled(c: Config, st: System)
    requires c.Valid() && Inv(c, st) && st.toR != [] && st.toR[0].Data? && st.r.mode.Receiving?
    ensures var (r2, ys) := Receive(c.Announced(), c.compression, st.r, st.toR[0]);
            && (r2.mode.Failed? ==> r2.expected < c.Blocks())
            && (Err in ys ==> r2.mode.Failed?)
            && (st.s.phase.AwaitOk? ==> forall y :: y in ys ==> !y.SelfReset? && !y.ResetAck?)
  {
    hide Crc, Inv, ReceiverOk, ReceiveData, Sound;
    InvHasReceiver(c, st);
    InvHasFrame(c, st, st.toR[0]);
    DataHas(c, st.r, st.toR[0]);
    if st.s.phase.AwaitOk? {
      DoneMeansAll(c, st);
    }
  }

  lemma InvHasFrame(c: Config, st: System, f: Frame)
    requires c.Valid() && Inv(c, st) && f in st.toR && f.Data?
    ensures Sound(c, f) && f.seqno < st.s.next <= c.Blocks()
  {
    hide ReceiverOk, ReplyOk, Coupled, Sound;
    assert FrameOk(c, st.s, f);
  }

  lemma DoneMeansAll(c: Config, st: System)
    requires c.Valid() && Inv(c, st) && st.s.phase.AwaitOk?
    ensures st.r.expected == c.Blocks() && forall f :: f in st.toR ==> !f.Reset?
  {
    hide Core;
  }

  lemma StepSettled(c: Config, st: System, step: Step)
    requires c.Valid() && Inv(c, st) && Settled(c, st) && Next(c, st, step).Some?
    ensures Settled(c, Next(c, st, step).value)
  {
    StepKeeps(c, st, step);
    hide Inv, Receive, Crc;
    match step
    case SenderMoves(e) => SenderSettled(c, st, e);
    case Deliver => ReceiveSettled(c, st);
    case PayloadTimesOut =>
    case LoseFrame(i) =>
    case LoseReply(i) => WithoutIsCalmer(st.toS, i);
    case RepeatFrame(i) =>
    case RepeatReply(i) => TwiceIsCalmer(st.toS, i);
    case DamageFrame(i, payload) =>
  }

  lemma SenderSettled(c: Config, st: System, e: Event)
    requires c.Valid() && Inv(c, st) && Settled(c, st) && SenderStep(c, st, e).Some?
    ensures Settled(c, SenderStep(c, st, e).value)
  {
    BeforeDone(c, st);
    hide Inv, Crc, Handle, Recovered, HeaderFits, Plain;
    if Send(c, st.s, e).value.phase.AwaitOk? && !st.s.phase.AwaitOk? {
      OnlyDoneAwaits(c, st.s, e);
    }
    hide Send;
  }

  /** When every block is acknowledged and the window is open, the receiver holds them all and no reset is in the air.
      */
  lemma BeforeDone(c: Config, st: System)
    requires c.Valid() && Inv(c, st)
    ensures st.s.phase.Fill? && st.s.base >= c.Blocks() ==>
              && st.r.expected == c.Blocks() && !st.r.mode.Finished?
              && (forall y :: y in st.toS ==> !y.SelfReset? && !y.ResetAck? && !y.Ok?)
              && (forall f :: f in st.toR ==> !f.Done? && !f.Reset?)
  {
    hide ReceiverOk, Sound;
    if st.s.phase.Fill? && st.s.base >= c.Blocks() {
      assert Flowing(c, st);
      assert !DoneSent(st.s);
      forall f | f in st.toR
        ensures !f.Done?
      {
        assert FrameOk(c, st.s, f);
      }
      forall y | y in st.toS
        ensures !y.Ok?
      {
        assert ReplyOk(st.s, st.r, y);
      }
    }
  }

  /** The wait for confirmation begins with DONE only. */
  lemma OnlyDoneAwaits(c: Config, s: Sender, e: Event)
    requires c.Valid() && Send(c, s, e).Some? && Send(c, s, e).value.phase.AwaitOk? && !s.phase.AwaitOk?
    ensures s.phase.Fill? && s.base >= c.Blocks() && e == Tx(Done(Crc(0, c.data)))
  {
    hide Crc, HeaderFits, Plain, KeepFrom, Attempts;
  }

  lemma {:induction false} RunSettled(c: Config, steps: seq<Step>)
    requires c.Valid() && Exec(c, steps).Some?
    ensures Tame(c, Exec(c, steps).value) && Settled(c, Exec(c, steps).value)
    decreases |steps|
  {
    if steps != [] {
      hide Inv, Next, Tame, Settled;
      var before := steps[..|steps| - 1];
      RunSettled(c, before);
      RunKeeps(c, before);
      StepTame(c, Exec(c, before).value, steps[|steps| - 1]);
      StepSettled(c, Exec(c, before).value, steps[|steps| - 1]);
    }
  }

  // ---- which line brings which verdict ----------------------------------------------------

  /** What can stand first on the line toward a sender that waits for confirmation. */
  lemma ConfirmationRead(c: Config, st: System)
    requires c.Valid() && Inv(c, st) && Tame(c, st) && Settled(c, st) && st.s.phase.AwaitOk? && st.toS != []
    ensures var y := st.toS[0];
            && (y.Ok? ==> y == Ok(Crc(0, c.data)) && st.r.file == c.data)
            && (y.Resume? ==> OldResume(st.s, y)) && (y.Ack? ==> y.n < c.Blocks())
            && (y.Ok? || y.Resume? || y.Ack? || IsNakOrDrop(y) || y.Here?)
  {
    hide Crc, FrameOk, SenderOk;
    assert st.toS[0] in st.toS;
    BlocksCover(c);
  }

  /** The line that ends the wait for confirmation brings `verified` exactly when it is an OK, and then the file is the
      data. The only other lines that can end it are a NAK, a DROP or a HERE. */
  lemma VerdictIsExact(c: Config, steps: seq<Step>, reply: Reply, late: bool)
    requires c.Valid() && Exec(c, steps).Some? && Exec(c, steps).value.s.phase.AwaitOk?
    requires var st2 := SenderStep(c, Exec(c, steps).value, Rx(reply, late)); st2.Some? && st2.value.s.phase.Complete?
    ensures var st2 := SenderStep(c, Exec(c, steps).value, Rx(reply, late)).value;
            && (st2.s.phase.verified <==> reply.Ok?)
            && (reply.Ok? ==> st2.r.file == c.data)
            && (!reply.Ok? ==> IsNakOrDrop(reply) || reply.Here?)
  {
    RunKeeps(c, steps);
    RunSettled(c, steps);
    var st := Exec(c, steps).value;
    hide Exec;
    ConfirmationRead(c, st);
    hide Inv, Tame, Settled, Crc;
  }

  // ---- what decides the verdict --------------------------------------------------------------

  predicate Passable(y: Reply) {
    y.Ack? || y.Resume?
  }

  /** A frame that is answered with a line the sender passes over. */
  predicate Unobtrusive(f: Frame) {
    f.Barrier? || (f.Data? && Clean(f))
  }

  /** Nothing on the line will stand in the way of the OK. */
  ghost predicate Clear(st: System) {
    (forall y :: y in st.toS ==> Passable(y)) && (forall f :: f in st.toR ==> Unobtrusive(f))
  }

  /** Once the receiver holds every block, a frame changes nothing, and what it is answered with is passed over
      exactly when the frame is unobtrusive. */
  lemma FrameAnswered(c: Config, st: System)
    requires c.Valid() && Inv(c, st) && st.s.phase.AwaitOk? && st.r.mode.Receiving?
    requires st.toR != [] && !st.toR[0].Done?
    ensures var (r2, ys) := Receive(c.Announced(), c.compression, st.r, st.toR[0]);
            r2 == st.r && |ys| == 1 && (Passable(ys[0]) <==> Unobtrusive(st.toR[0])) && !ys[0].Ok?
  {
    var f := st.toR[0];
    DoneMeansAll(c, st);
    assert f in st.toR && FrameOk(c, st.s, f);
    if f.Data? {
      InvHasFrame(c, st, f);
      LateBlockAnswered(c, st.r, f);
    }
    hide Crc, Sound, Inv, ReceiveData, Clean;
  }

  lemma LateBlockAnswered(c: Config, r: Receiver, f: Frame)
    requires c.Valid() && r.mode.Receiving? && f.Data? && Sound(c, f) && f.seqno < r.expected
    ensures ReceiveData(c.Announced(), c.compression, r, f) ==
            (r, [if Clean(f) then Ack(r.expected - 1) else Nak(r.expected)])
  {
    hide Crc, Plain;
  }

  /** After DONE: it is the last line toward the receiver until its answer is the last toward the sender; and `clear`
      says whether all that stands before them is passed over. */
  ghost predicate Awaiting(c: Config, st: System, clear: bool)
    requires c.Valid()
  {
    match st.s.phase
    case AwaitOk =>
      if st.r.mode.Receiving? then
        && st.toR != [] && st.toR[|st.toR| - 1] == Done(Crc(0, c.data))
        && (forall f :: f in st.toR[..|st.toR| - 1] ==> !f.Done?)
        && (forall y :: y in st.toS ==> !y.Ok?)
        && (clear <==> Clear(st.(toR := st.toR[..|st.toR| - 1])))
      else
        && st.r.mode == Finished(true) && st.toR == []
        && st.toS != [] && st.toS[|st.toS| - 1] == Ok(Crc(0, c.data))
        && (forall y :: y in st.toS[..|st.toS| - 1] ==> !y.Ok?)
        && (clear <==> Clear(st.(toS := st.toS[..|st.toS| - 1])))
    case Complete(verified) => verified <==> clear
    case Abort(_) => true
    case _ => false
  }

  lemma AwaitingDeliver(c: Config, st: System, clear: bool)
    requires c.Valid() && Inv(c, st) && Awaiting(c, st, clear) && st.s.phase.AwaitOk? && Next(c, st, Deliver).Some?
    ensures Awaiting(c, Next(c, st, Deliver).value, clear)
  {
    var n := |st.toR| - 1;
    if n == 0 {
      TransferCredit.DoneFinishes(c, st, Crc(0, c.data));
      BlocksCover(c);
      DoneMeansAll(c, st);
      InvHasReceiver(c, st);
      DoneAnswered(c, st, clear);
    } else {
      assert st.toR[0] == st.toR[..n][0] && st.toR[..n][0] in st.toR[..n];
      FrameAnswered(c, st);
      hide Receive, Inv, Crc;
      var (r2, ys) := Receive(c.Announced(), c.compression, st.r, st.toR[0]);
      assert ys == [ys[0]];
      FramePassed(c, st, ys[0], clear);
    }
  }

  lemma DoneAnswered(c: Config, st: System, clear: bool)
    requires c.Valid() && Awaiting(c, st, clear) && st.s.phase.AwaitOk? && st.r.mode.Receiving? && |st.toR| == 1
    requires ReceiverOk(c, st.r) && st.r.expected == c.Blocks() && c.Prefix(c.Blocks()) == c.data
    requires ReceiveDone(c.Announced(), st.r, Crc(0, c.data)) == (st.r.(mode := Finished(true)), [Ok(st.r.running)])
    ensures Next(c, st, Deliver).Some? && Awaiting(c, Next(c, st, Deliver).value, clear)
  {
    hide Crc, ReceiveDone, Passable, Unobtrusive;
    var toS := st.toS + [Ok(Crc(0, c.data))];
    assert toS[..|toS| - 1] == st.toS && st.toR[..0] == [] == st.toR[1..];
  }

  lemma FramePassed(c: Config, st: System, y: Reply, clear: bool)
    requires c.Valid() && Awaiting(c, st, clear) && st.s.phase.AwaitOk? && st.r.mode.Receiving? && |st.toR| > 1
    requires !y.Ok? && (Passable(y) <==> Unobtrusive(st.toR[0]))
    ensures Awaiting(c, st.(toR := st.toR[1..], toS := st.toS + [y]), clear)
  {
    hide Crc, Passable, Unobtrusive;
    var n := |st.toR| - 1;
    var before, after := st.toR[..n], st.toR[1..][..n - 1];
    assert before == [st.toR[0]] + after;
    assert forall f :: f in before <==> f == st.toR[0] || f in after;
    Appended(st.toS, y);
  }

  /** One line read while waiting for confirmation. */
  lemma ConfirmationStep(c: Config, st: System, reply: Reply, late: bool)
    requires c.Valid() && Inv(c, st) && Tame(c, st) && Settled(c, st) && st.s.phase.AwaitOk?
    requires SenderStep(c, st, Rx(reply, late)).Some?
    ensures st.toS != [] && reply == st.toS[0]
    ensures var st2 := SenderStep(c, st, Rx(reply, late)).value;
            && st2 == st.(s := st2.s, toS := st.toS[1..])
            && (if Passable(reply) then st2.s.phase.AwaitOk? || st2.s.phase.Abort?
                else st2.s.phase == Complete(reply.Ok?))
  {
    hide Inv, Tame, Settled, Crc;
    ConfirmationRead(c, st);
  }

  lemma LinePassed(c: Config, st: System, s: Sender, clear: bool)
    requires c.Valid() && Awaiting(c, st, clear) && st.s.phase.AwaitOk? && s.phase.AwaitOk?
    requires st.toS != [] && Passable(st.toS[0])
    ensures Awaiting(c, st.(s := s, toS := st.toS[1..]), clear)
  {
    hide Crc, Unobtrusive;
    var n, rest := |st.toS| - 1, st.toS[1..];
    assert st.toS == [st.toS[0]] + rest;
    assert forall y :: y in st.toS <==> y == st.toS[0] || y in rest;
    if !st.r.mode.Receiving? {
      assert n > 0;
      assert st.toS[..n] == [st.toS[0]] + rest[..n - 1];
      assert forall y :: y in st.toS[..n] <==> y == st.toS[0] || y in rest[..n - 1];
    }
  }

  lemma LineEnds(c: Config, st: System, clear: bool)
    requires c.Valid() && Awaiting(c, st, clear) && st.s.phase.AwaitOk? && st.toS != [] && !Passable(st.toS[0])
    ensures st.toS[0].Ok? <==> clear
  {
    hide Crc, Unobtrusive;
    var n := |st.toS| - 1;
    if n > 0 {
      assert st.toS[..n][0] == st.toS[0] && st.toS[0] in st.toS[..n];
    }
    assert st.toS[0] in st.toS;
  }

  lemma AwaitingRead(c: Config, st: System, reply: Reply, late: bool, clear: bool)
    requires c.Valid() && Inv(c, st) && Tame(c, st) && Settled(c, st) && Awaiting(c, st, clear) && st.s.phase.AwaitOk?
    requires SenderStep(c, st, Rx(reply, late)).Some?
    ensures Awaiting(c, SenderStep(c, st, Rx(reply, late)).value, clear)
  {
    hide Inv, Tame, Settled, Crc, Clear, Passable, SenderStep;
    ConfirmationStep(c, st, reply, late);
    var s2 := SenderStep(c, st, Rx(reply, late)).value.s;
    if s2.phase.AwaitOk? {
      LinePassed(c, st, s2, clear);
    } else if !Passable(reply) {
      LineEnds(c, st, clear);
    }
  }

  lemma AwaitingStep(c: Config, st: System, step: Step, clear: bool)
    requires c.Valid() && Inv(c, st) && Tame(c, st) && Settled(c, st) && Awaiting(c, st, clear)
    requires Next(c, st, step).Some? && (step.SenderMoves? || step.Deliver?)
    ensures Awaiting(c, Next(c, st, step).value, clear)
  {
    if st.s.phase.AwaitOk? {
      if step.Deliver? {
        AwaitingDeliver(c, st, clear);
      } else if step.e.Rx? {
        AwaitingRead(c, st, step.e.reply, step.e.late, clear);
      } else {
        hide Inv, Tame, Settled, Clear, Crc;
      }
    } else {
      hide Inv, Tame, Settled, Clear, Crc, Receive;
    }
  }

  lemma DoneWritten(c: Config, st: System)
    requires c.Valid() && Inv(c, st) && Settled(c, st) && st.s.phase.Fill? && st.s.base >= c.Blocks()
    ensures var st2 := SenderStep(c, st, Tx(Done(Crc(0, c.data))));
            st2.Some? && Awaiting(c, st2.value, Clear(st))
  {
    hide Inv, Crc, Clear;
    BeforeDone(c, st);
    var toR := st.toR + [Done(Crc(0, c.data))];
    assert toR[..|toR| - 1] == st.toR;
    assert st.(s := st.s.(phase := AwaitOk), toR := toR).(toR := st.toR) == st.(s := st.s.(phase := AwaitOk));
    assert Clear(st.(s := st.s.(phase := AwaitOk))) == Clear(st) by {
      ClearIsLines(st, st.s.(phase := AwaitOk));
    }
  }

  lemma ClearIsLines(st: System, s: Sender)
    ensures Clear(st.(s := s)) == Clear(st)
  {
  }

  lemma {:induction false} AwaitingRun(c: Config, steps: seq<Step>, more: seq<Step>)
    requires c.Valid() && Exec(c, steps).Some?
    requires var st := Exec(c, steps).value; st.s.phase.Fill? && st.s.base >= c.Blocks()
    requires TransferProgress.OnlyDelays(more)
    requires Exec(c, steps + [SenderMoves(Tx(Done(Crc(0, c.data))))] + more).Some?
    ensures Awaiting(c, Exec(c, steps + [SenderMoves(Tx(Done(Crc(0, c.data))))] + more).value,
                     Clear(Exec(c, steps).value))
    decreases |more|
  {
    hide Inv, Tame, Settled, Awaiting, Clear, Crc, Next, Exec, SenderStep;
    var done := steps + [SenderMoves(Tx(Done(Crc(0, c.data))))];
    if more == [] {
      assert done + more == done;
      DoneWrittenAfter(c, steps);
    } else {
      var before, last := more[..|more| - 1], more[|more| - 1];
      assert done + more == done + before + [last];
      ExecSplits(c, done + before, last);
      assert last in more;
      AwaitingRun(c, steps, before);
      RunKeeps(c, done + before);
      RunSettled(c, done + before);
      AwaitingStep(c, Exec(c, done + before).value, last, Clear(Exec(c, steps).value));
    }
  }

  lemma ExecSplits(c: Config, steps: seq<Step>, x: Step)
    requires c.Valid() && Exec(c, steps + [x]).Some?
    ensures Exec(c, steps).Some? && Exec(c, steps + [x]) == Next(c, Exec(c, steps).value, x)
  {
    hide Next;
    assert (steps + [x])[..|steps|] == steps;
  }

  lemma DoneWrittenAfter(c: Config, steps: seq<Step>)
    requires c.Valid() && Exec(c, steps).Some?
    requires var st := Exec(c, steps).value; st.s.phase.Fill? && st.s.base >= c.Blocks()
    requires Exec(c, steps + [SenderMoves(Tx(Done(Crc(0, c.data))))]).Some?
    ensures Awaiting(c, Exec(c, steps + [SenderMoves(Tx(Done(Crc(0, c.data))))]).value, Clear(Exec(c, steps).value))
  {
    hide Inv, Tame, Settled, Awaiting, Clear, Crc, Exec, SenderStep;
    RunKeeps(c, steps);
    RunSettled(c, steps);
    DoneWritten(c, Exec(c, steps).value);
    ExecSplits(c, steps, SenderMoves(Tx(Done(Crc(0, c.data)))));
  }

  /** The verdict is decided when DONE is written. However the transfer came to that point, if from there on the line
      loses, repeats and damages nothing and the sender's wait comes to an end with a verdict, the file is reported as
      verified exactly when at that moment the line toward the sender held nothing but ACKs and RESUMEs and the line
      toward the receiver nothing but barriers and clean blocks. */
  lemma VerdictDecidedAtDone(c: Config, steps: seq<Step>, more: seq<Step>)
    requires c.Valid() && Exec(c, steps).Some?
    requires var st := Exec(c, steps).value; st.s.phase.Fill? && st.s.base >= c.Blocks()
    requires TransferProgress.OnlyDelays(more)
    requires var end := Exec(c, steps + [SenderMoves(Tx(Done(Crc(0, c.data))))] + more);
             end.Some? && end.value.s.phase.Complete?
    ensures Exec(c, steps + [SenderMoves(Tx(Done(Crc(0, c.data))))] + more).value.s.phase.verified <==>
            Clear(Exec(c, steps).value)
  {
    AwaitingRun(c, steps, more);
    hide Exec, Clear;
  }

  /** Until the verdict there is a line to read or to deliver. */
  function Onward(st: System): Step {
    if st.toS != [] then SenderMoves(Rx(st.toS[0], false)) else Deliver
  }

  function Weight(st: System): nat {
    2 * |st.toR| + |st.toS|
  }

  lemma ConfirmationGoesOn(c: Config, st: System, clear: bool)
    requires c.Valid() && Inv(c, st) && Tame(c, st) && Settled(c, st) && Awaiting(c, st, clear) && st.s.phase.AwaitOk?
    ensures Next(c, st, Onward(st)).Some? && Weight(Next(c, st, Onward(st)).value) < Weight(st)
    ensures var s2 := Next(c, st, Onward(st)).value.s; s2.phase.AwaitOk? || s2.phase.Complete?
  {
    if st.toS != [] {
      ConfirmationRead(c, st);
      hide Inv, Tame, Settled, Awaiting, Crc;
    } else {
      assert st.toR[0] in st.toR;
      InvHasReceiver(c, st);
      ReceiveTame(c, st.r, st.toR[0]);
      hide Inv, Tame, Settled, Clear, Crc, Receive;
    }
  }

  lemma {:induction false} VerdictComes(c: Config, steps: seq<Step>, more: seq<Step>) returns (rest: seq<Step>)
    requires c.Valid() && Exec(c, steps).Some?
    requires var st := Exec(c, steps).value; st.s.phase.Fill? && st.s.base >= c.Blocks()
    requires TransferProgress.OnlyDelays(more)
    requires var now := Exec(c, steps + [SenderMoves(Tx(Done(Crc(0, c.data))))] + more);
             now.Some? && now.value.s.phase.AwaitOk?
    ensures TransferProgress.OnlyDelays(more + rest)
    ensures var end := Exec(c, steps + [SenderMoves(Tx(Done(Crc(0, c.data))))] + (more + rest));
            end.Some? && end.value.s.phase.Complete?
    decreases Weight(Exec(c, steps + [SenderMoves(Tx(Done(Crc(0, c.data))))] + more).value)
  {
    hide Inv, Tame, Settled, Awaiting, Clear, Crc, Next, Weight, Exec;
    var all := steps + [SenderMoves(Tx(Done(Crc(0, c.data))))] + more;
    var st := Exec(c, all).value;
    RunKeeps(c, all);
    RunSettled(c, all);
    AwaitingRun(c, steps, more);
    ConfirmationGoesOn(c, st, Clear(Exec(c, steps).value));
    var next := Onward(st);
    TransferProgress.ExecOneMore(c, all, next);
    assert all + [next] == steps + [SenderMoves(Tx(Done(Crc(0, c.data))))] + (more + [next]);
    if Next(c, st, next).value.s.phase.Complete? {
      rest := [next];
    } else {
      var later := VerdictComes(c, steps, more + [next]);
      rest := [next] + later;
      assert more + [next] + later == more + rest;
    }
  }

  /** What is clear when DONE is written is verified in the end, and what is not is not: there is a continuation without
      further disturbance that comes to the verdict, and that is the one it comes to. */
  lemma ClearIsVerified(c: Config, steps: seq<Step>)
    requires c.Valid() && Exec(c, steps).Some?
    requires var st := Exec(c, steps).value; st.s.phase.Fill? && st.s.base >= c.Blocks()
    ensures exists more :: TransferProgress.OnlyDelays(more)
              && Exec(c, steps + [SenderMoves(Tx(Done(Crc(0, c.data))))] + more).Some?
              && Exec(c, steps + [SenderMoves(Tx(Done(Crc(0, c.data))))] + more).value.s.phase
                 == Complete(Clear(Exec(c, steps).value))
  {
    hide Inv, Tame, Settled, Clear, Crc, Next, Exec;
    var done := SenderMoves(Tx(Done(Crc(0, c.data))));
    RunKeeps(c, steps);
    RunSettled(c, steps);
    DoneIsPossible(c, Exec(c, steps).value);
    TransferProgress.ExecOneMore(c, steps, done);
    assert steps + [done] + [] == steps + [done];
    var more := VerdictComes(c, steps, []);
    assert [] + more == more;
    VerdictDecidedAtDone(c, steps, more);
  }

  lemma DoneIsPossible(c: Config, st: System)
    requires c.Valid() && st.s.phase.Fill? && st.s.base >= c.Blocks()
    ensures var st2 := Next(c, st, SenderMoves(Tx(Done(Crc(0, c.data))))); st2.Some? && st2.value.s.phase.AwaitOk?
  {
    hide Crc;
  }

  // ---- unexpected replies ---------------------------------------------------------------------

  /** The replies of an honest receiver that the waiting loop of the window refuses: a HERE in the guard time of the
      second probe, an old RESUME in any guard time or when the wait is over, and the ERR of a receiver that has given
      up. */
  predicate Unwelcome(s: Sender, reply: Reply, late: bool) {
    || (reply.Here? && s.phase == Guard(true))
    || (reply.Resume? && (s.phase.Guard? || (s.phase.Wait? && late)))
    || (reply.Err? && InWindow(s))
  }

  /** An honest receiver makes the sender give up over an unexpected reply exactly by such a line; an ERR among them
      means that the receiver has given up itself. */
  lemma UnexpectedReplyIff(c: Config, steps: seq<Step>, e: Event)
    requires c.Valid() && Exec(c, steps).Some? && SenderStep(c, Exec(c, steps).value, e).Some?
    ensures var st := Exec(c, steps).value;
            && (SenderStep(c, st, e).value.s.phase == Abort(UnexpectedReply) <==>
                e.Rx? && Unwelcome(st.s, e.reply, e.late))
            && (e.Rx? && e.reply.Err? ==> st.r.mode == Failed(TooManyResets))
  {
    hide *;
    RunKeeps(c, steps);
    RunSettled(c, steps);
    UnexpectedAt(c, Exec(c, steps).value, e);
  }

  lemma UnexpectedAt(c: Config, st: System, e: Event)
    requires c.Valid() && Inv(c, st) && Tame(c, st) && Settled(c, st) && SenderStep(c, st, e).Some?
    ensures SenderStep(c, st, e).value.s.phase == Abort(UnexpectedReply) <==>
            e.Rx? && Unwelcome(st.s, e.reply, e.late)
    ensures e.Rx? && e.reply.Err? ==> st.r.mode == Failed(TooManyResets)
  {
    hide Inv, Tame, Settled, Send, Unwelcome, WindowReply, InWindow;
    if e.Rx? {
      WindowReads(c, st);
      if e.reply.Err? {
        ErrMeansFailed(c, st);
      }
    }
    SendUnexpected(c, st.s, e);
  }

  lemma ErrMeansFailed(c: Config, st: System)
    requires c.Valid() && Inv(c, st) && Settled(c, st) && st.toS != [] && st.toS[0].Err?
    ensures st.r.mode == Failed(TooManyResets)
  {
    InvHasReceiver(c, st);
    assert st.toS[0] in st.toS;
    hide Inv, Crc;
  }

  /** The replies that can be read while the window is open. */
  predicate WindowReply(s: Sender, y: Reply) {
    || y.Ack? || IsNakOrDrop(y) || y.SelfReset? || y.Here? || y.Err?
    || (y.Resume? && OldResume(s, y))
  }

  lemma WindowReads(c: Config, st: System)
    requires c.Valid() && Inv(c, st) && Tame(c, st) && st.toS != []
    ensures InWindow(st.s) ==> WindowReply(st.s, st.toS[0])
  {
    hide ReceiverOk, FrameOk, SenderOk, InSync, Orphaned, Sorted;
    assert st.toS[0] in st.toS;
  }

  lemma SendUnexpected(c: Config, s: Sender, e: Event)
    requires c.Valid() && Send(c, s, e).Some?
    requires e.Rx? && InWindow(s) ==> WindowReply(s, e.reply)
    ensures Send(c, s, e).value.phase == Abort(UnexpectedReply) <==> e.Rx? && Unwelcome(s, e.reply, e.late)
  {
    hide Crc, Carries, KeepFrom, Attempts;
  }

  // ---- refused recoveries ------------------------------------------------------------------------

  /** The replies that a barrier or a reset request does not put up with: the receiver's own reset, and its ERR. */
  predicate Upsetting(reply: Reply) {
    reply.SelfReset? || reply.Err?
  }

  /** The answer to this barrier, from a position before the acknowledged one. */
  predicate AnswersFromBehind(s: Sender, reply: Reply) {
    s.phase.BarrierRead? && s.phase.job.AfterNak? && reply.Resume? && reply.token == s.phase.barrier && reply.n < s.base
  }

  /** An honest receiver makes recovery or a reset request fail over what it says exactly in these ways: its own RST or
      its ERR is read where an answer is waited for, or it answers from behind `base`. It has then reset itself or given
      up; in the last case it stands at zero. */
  lemma RefusedRecoveryIff(c: Config, steps: seq<Step>, e: Event)
    requires c.Valid() && Exec(c, steps).Some? && SenderStep(c, Exec(c, steps).value, e).Some?
    ensures var st := Exec(c, steps).value;
            var phase := SenderStep(c, st, e).value.s.phase;
            && (phase == Abort(UnexpectedRecoveryReply) <==>
                  st.s.phase.BarrierRead? && e.Rx? && Upsetting(e.reply))
            && (phase == Abort(UnexpectedResetReply) <==> st.s.phase.ResetRead? && e.Rx? && Upsetting(e.reply))
            && (phase == Abort(BadRecoverySequence) <==> e.Rx? && AnswersFromBehind(st.s, e.reply))
            && (e.Rx? && AnswersFromBehind(st.s, e.reply) ==>
                  e.reply.n == st.r.expected == 0 && st.r.resets >= 1 && st.r.file == [])
  {
    hide *;
    RunKeeps(c, steps);
    RunSettled(c, steps);
    RefusedAt(c, Exec(c, steps).value, e);
  }

  lemma RefusedAt(c: Config, st: System, e: Event)
    requires c.Valid() && Inv(c, st) && Tame(c, st) && Settled(c, st) && SenderStep(c, st, e).Some?
    ensures var phase := SenderStep(c, st, e).value.s.phase;
            && (phase == Abort(UnexpectedRecoveryReply) <==>
                  st.s.phase.BarrierRead? && e.Rx? && Upsetting(e.reply))
            && (phase == Abort(UnexpectedResetReply) <==> st.s.phase.ResetRead? && e.Rx? && Upsetting(e.reply))
            && (phase == Abort(BadRecoverySequence) <==> e.Rx? && AnswersFromBehind(st.s, e.reply))
    ensures e.Rx? && AnswersFromBehind(st.s, e.reply) ==>
              e.reply.n == st.r.expected == 0 && st.r.resets >= 1 && st.r.file == []
  {
    hide Inv, Tame, Settled, Send, Upsetting, RecoveryRead, ResetReply;
    if e.Rx? {
      RecoveryReads(c, st);
      ResetReads(c, st);
      BehindMeansReset(c, st);
    }
    SendRefused(c, st.s, e);
  }

  /** The replies that can be read while a barrier is waited for, and what a matching answer can say. */
  predicate RecoveryRead(s: Sender, y: Reply) {
    || IsAck(y) || IsNakOrDrop(y) || IsHere(y) || Upsetting(y)
    || (y.ResetAck? && s.resetToken.Some? && s.resetToken.value == y.token)
    || (y.Resume? && (s.phase.BarrierRead? && y.token == s.phase.barrier ==>
                        y.n <= s.next && (s.phase.job.AfterReset? ==> y.n == 0)))
  }

  lemma RecoveryReads(c: Config, st: System)
    requires c.Valid() && Inv(c, st) && st.toS != []
    ensures st.s.phase.BarrierRead? ==> RecoveryRead(st.s, st.toS[0])
  {
    hide ReceiverOk, FrameOk, Sorted;
    assert st.toS[0] in st.toS;
  }

  predicate ResetReply(s: Sender, y: Reply) {
    || IsAck(y) || IsNakOrDrop(y) || IsHere(y) || IsResume(y) || Upsetting(y)
    || (y.ResetAck? && s.phase.ResetRead? && y.token == s.phase.reset)
  }

  lemma ResetReads(c: Config, st: System)
    requires c.Valid() && Inv(c, st) && st.toS != []
    ensures st.s.phase.ResetRead? ==> ResetReply(st.s, st.toS[0])
  {
    hide ReceiverOk, FrameOk, Sorted;
    assert st.toS[0] in st.toS;
  }

  lemma BehindMeansReset(c: Config, st: System)
    requires c.Valid() && Inv(c, st) && st.toS != []
    ensures AnswersFromBehind(st.s, st.toS[0]) ==>
              st.toS[0].n == st.r.expected == 0 && st.r.resets >= 1 && st.r.file == []
  {
    hide FrameOk, ReplyOk, Sorted, Crc;
    assert st.toS[0] in st.toS;
    BlockExtends(c, 0);
  }

  lemma SendRefused(c: Config, s: Sender, e: Event)
    requires c.Valid() && Send(c, s, e).Some?
    requires e.Rx? && s.phase.BarrierRead? ==> RecoveryRead(s, e.reply)
    requires e.Rx? && s.phase.ResetRead? ==> ResetReply(s, e.reply)
    ensures var phase := Send(c, s, e).value.phase;
            && (phase == Abort(UnexpectedRecoveryReply) <==> s.phase.BarrierRead? && e.Rx? && Upsetting(e.reply))
            && (phase == Abort(UnexpectedResetReply) <==> s.phase.ResetRead? && e.Rx? && Upsetting(e.reply))
            && (phase == Abort(BadRecoverySequence) <==> e.Rx? && AnswersFromBehind(s, e.reply))
  {
    hide Crc, Carries, KeepFrom, Attempts;
  }
}
