/**
  Recovery: when one block is lost, damaged or cut short and nothing else happens to the line, the transfer always goes
  on, and ends with the file verified.
*/
module TransferRecovery {
  import opened Basics
  import opened Crc32
  import opened Transfer
  import opened TransferSafety
  import opened TransferCredit
  import opened TransferProgress

  // ---- runs with mishaps ----------------------------------------------------------------

  /** A step without a mishap. A read times out only when nothing is on its way. */
  predicate Calm(st: System, step: Step) {
    || step.Deliver?
    || (step.SenderMoves? && (step.e.Rx? ==> !step.e.late) && (step.e.Timeout? ==> st.toR == [] && st.toS == []))
  }

  /** A block is lost, damaged or cut short. */
  predicate Mishap(st: System, step: Step) {
    || step.DamageFrame? || step.PayloadTimesOut?
    || (step.LoseFrame? && step.i < |st.toR| && st.toR[step.i].Data?)
  }

  /** A run with exactly `n` mishaps. */
  predicate Suffers(c: Config, steps: seq<Step>, n: nat)
    requires c.Valid()
  {
    if steps == [] then n == 0
    else
      var before, last := steps[..|steps| - 1], steps[|steps| - 1];
      && Exec(c, before).Some?
      && if Mishap(Exec(c, before).value, last) then n >= 1 && Suffers(c, before, n - 1)
         else Calm(Exec(c, before).value, last) && Suffers(c, before, n)
  }

  // ---- between the mishap and its repair ----------------------------------------------------

  /** Lines that a barrier passes over. */
  ghost predicate Passing(q: seq<Reply>) {
    forall y :: y in q ==> y.Ack? || y.Nak? || y.Drop?
  }

  ghost predicate OnlyData(q: seq<Frame>) {
    forall f :: f in q ==> f.Data?
  }

  /** Block `m` is missing, and the sender has not learned of it. */
  ghost predicate Wounded(c: Config, st: System, m: nat)
    requires c.Valid()
  {
    && (st.s.phase.Fill? || st.s.phase.Wait?) && st.r.mode.Receiving?
    && Spared(st.s, 0) && st.r.expected <= m < st.s.next
    && OnlyData(st.toR) && Passing(st.toS)
    && forall f :: f in st.toR && f.seqno == m ==> !Clean(f)
  }

  predicate Empty(st: System) {
    st.toR == [] && st.toS == []
  }

  /** The sender is finding out where the receiver stands. */
  ghost predicate Recovering(c: Config, st: System)
    requires c.Valid()
  {
    && st.r.mode.Receiving? && st.s.recoveries == 0
    && (forall k :: k in st.s.attempts ==> st.s.attempts[k] <= 1)
    && st.s.resets == (if RecoversReset(st.s) then 1 else 0)
    && match st.s.phase
       case Guard(again) => !again && Empty(st)
       case ProbeWrite(i, _) => i == 0 && Empty(st)
       case ProbeRead(i, t, _) =>
         i == 0 && if st.toR == [] then |st.toS| == 1 && st.toS[0].Here? && st.toS[0].token == t
                   else st.toR == [Ayt(t)] && st.toS == []
       case ResetWrite(i, t, _) => i == 0 && Empty(st)
       case ResetRead(i, t, _) =>
         i == 0 && if st.toR == [] then st.toS == [ResetAck(t)] else st.toR == [Reset(t)] && st.toS == []
       case BarrierWrite(i, _, _) => i == 0 && OnlyData(st.toR) && Passing(st.toS)
       case BarrierRead(i, t, _) =>
         && i == 0
         && (if st.toR == [] then
               && st.toS != [] && st.toS[|st.toS| - 1] == Resume(t, st.r.expected)
               && Passing(st.toS[..|st.toS| - 1])
             else
               && st.toR[|st.toR| - 1] == Barrier(t) && OnlyData(st.toR[..|st.toR| - 1])
               && Passing(st.toS))
       case _ => false
  }

  // ---- how long it can still take -------------------------------------------------------------

  /** Steps of a transfer in which nothing goes wrong. */
  function Whole(c: Config): nat
    requires c.Valid()
  {
    4 * c.Blocks() + 3
  }

  function Load(st: System): nat {
    3 * |st.toR| + 2 * |st.toS|
  }

  function Remaining(s: Sender): nat {
    match s.phase
    case Guard(_) => 8
    case ProbeWrite(_, _) => 7
    case ProbeRead(_, _, _) => 3
    case ResetWrite(_, _, _) => 7
    case ResetRead(_, _, _) => 3
    case BarrierWrite(_, _, _) => 4
    case _ => 0
  }

  /** After the mishap, at most `n` steps from the end. */
  ghost predicate Mending(c: Config, st: System, n: nat)
    requires c.Valid()
  {
    || (Healthy(c, st, 1) && Progress(st) + n >= Whole(c))
    || (Recovering(c, st) && n >= Whole(c) + Remaining(st.s) + Load(st))
    || exists m :: Wounded(c, st, m) && WoundedFor(c, st, n)
  }

  predicate WoundedFor(c: Config, st: System, n: nat)
    requires c.Valid()
  {
    st.s.next <= c.Blocks()
    && n >= Whole(c) + 9 + 4 * (c.Blocks() - st.s.next) + Load(st) + if st.s.phase.Fill? then 1 else 0
  }

  // ---- the mishap ---------------------------------------------------------------------------------

  /** The longest that a run can take: nearly the whole file, the mishap, and the way to the end from there. */
  function Longest(c: Config): nat
    requires c.Valid()
  {
    8 * c.Blocks() + 21
  }

  lemma Exchanges(c: Config, st: System, i: nat)
    requires c.Valid() && Inv(c, st) && Healthy(c, st, 0) && i < |st.toR| && st.toR[i].Data?
    ensures (st.s.phase.Fill? || st.s.phase.Wait?) && Exchanging(c, st) && Spared(st.s, 0)
    ensures st.s.next <= c.Blocks() && st.s.next <= st.s.base + 2
  {
    InvHasSender(c, st);
    hide Inv, Exchanging, Spared, Crc;
  }

  /** One block fewer on the line. */
  lemma BlockGone(c: Config, st: System, i: nat, toS: seq<Reply>)
    requires c.Valid() && Exchanging(c, st) && Spared(st.s, 0) && (st.s.phase.Fill? || st.s.phase.Wait?)
    requires i < |st.toR| && Passing(toS)
    ensures Wounded(c, st.(toR := Without(st.toR, i), toS := toS), st.r.expected + i)
  {
    hide Carries, Clean, Spared;
    var q := Without(st.toR, i);
    forall k | 0 <= k < |q|
      ensures q[k].Data? && q[k].seqno != st.r.expected + i
    {
      assert q[k] == st.toR[if k < i then k else k + 1];
    }
  }

  /** One block that is dirty. */
  lemma BlockDirty(c: Config, st: System, i: nat, payload: bytes)
    requires c.Valid() && Exchanging(c, st) && Spared(st.s, 0) && (st.s.phase.Fill? || st.s.phase.Wait?)
    requires i < |st.toR| && st.toR[i].Data? && !Clean(st.toR[i].(payload := payload)) && Passing(st.toS)
    ensures Wounded(c, st.(toR := st.toR[i := st.toR[i].(payload := payload)]), st.r.expected + i)
  {
    hide Carries, Clean, Spared;
  }

  lemma StillTime(c: Config, st: System, st2: System)
    requires c.Valid() && Exchanging(c, st) && (st.s.phase.Fill? || st.s.phase.Wait?)
    requires st.s.next <= c.Blocks() && st.s.next <= st.s.base + 2 && st2.s == st.s
    requires |st2.toR| <= |st.toR| && |st2.toR| + |st2.toS| <= |st.toR| + |st.toS|
    ensures Progress(st) < Longest(c) && WoundedFor(c, st2, Longest(c) - 1 - Progress(st))
  {
    hide BlocksFrom, AcksFrom;
  }

  lemma MishapWounds(c: Config, st: System, step: Step)
    requires c.Valid() && Inv(c, st) && Healthy(c, st, 0) && Mishap(st, step) && Next(c, st, step).Some?
    ensures Progress(st) < Longest(c) && Mending(c, Next(c, st, step).value, Longest(c) - 1 - Progress(st))
  {
    hide Inv, Carries, Crc, Clean, HeaderFits, Healthy, Spared, Exchanging, Wounded, WoundedFor, Progress, Recovering,
      Longest, Passing, AcksFrom;
    var st2 := Next(c, st, step).value;
    var i := if step.PayloadTimesOut? then 0 else step.i;
    Exchanges(c, st, i);
    assert Passing(st.toS) by {
      ExchangingPasses(c, st);
    }
    StillTime(c, st, st2);
    var m := st.r.expected + i;
    match step {
      case LoseFrame(_) =>
        BlockGone(c, st, i, st.toS);
        assert st2 == st.(toR := Without(st.toR, i), toS := st.toS);
      case DamageFrame(_, payload) =>
        BlockDirty(c, st, i, payload);
      case PayloadTimesOut =>
        DropPasses(st.toS, st.r.expected);
        BlockGone(c, st, 0, st.toS + [Drop(st.r.expected)]);
        assert Without(st.toR, 0) == st.toR[1..];
    }
    assert Wounded(c, st2, m);
  }

  lemma ExchangingPasses(c: Config, st: System)
    requires c.Valid() && Exchanging(c, st)
    ensures Passing(st.toS)
  {
    hide BlocksFrom;
  }

  lemma DropPasses(q: seq<Reply>, n: nat)
    requires Passing(q)
    ensures Passing(q + [Drop(n)])
  {
  }

  // ---- a block is missing -------------------------------------------------------------------------

  /** What an orderly receiver makes of a block: one line that a barrier passes over, and no more than that block. */
  lemma BlockAnswered(c: Config, st: System)
    requires c.Valid() && Inv(c, st) && Orderly(st) && st.toR != [] && st.toR[0].Data? && st.r.mode.Receiving?
    ensures var (r2, ys) := Receive(c.Announced(), c.compression, st.r, st.toR[0]);
            && |ys| == 1 && (ys[0].Ack? || ys[0].Nak? || ys[0].Drop?) && r2.mode.Receiving?
            && (r2.expected == st.r.expected
                || (r2.expected == st.r.expected + 1 && st.toR[0].seqno == st.r.expected && Clean(st.toR[0])))
  {
    hide Crc, Inv, ReceiveData, ReceiverOk, Orderly, Plain, Clean, Sound;
    var f := st.toR[0];
    InvHasReceiver(c, st);
    HeadIsSound(c, st);
    DataHas(c, st.r, f);
    OrderlyDeliverData(c, st);
    DirtyIsRefused(c, st.r, f);
    NoneGivesUp(c, st, Next(c, st, Deliver).value);
  }

  lemma HeadIsSound(c: Config, st: System)
    requires c.Valid() && Inv(c, st) && st.toR != [] && st.toR[0].Data?
    ensures Sound(c, st.toR[0])
  {
    hide ReceiverOk, ReplyOk, SenderOk, Coupled, Sound;
    assert st.toR[0] in st.toR && FrameOk(c, st.s, st.toR[0]);
  }

  lemma DirtyIsRefused(c: Config, r: Receiver, f: Frame)
    requires c.Valid() && f.Data? && Sound(c, f)
    ensures !Clean(f) ==> ReceiveData(c.Announced(), c.compression, r, f) == (r, [Nak(r.expected)])
  {
    hide Crc, Plain, Clean;
  }

  lemma NoneGivesUp(c: Config, st: System, st2: System)
    requires Orderly(st) && Orderly(st2)
    ensures st.r.resets == st2.r.resets == 0 && !st2.r.mode.Failed?
    ensures forall y :: y in st2.toS ==> !y.SelfReset? && !y.Err?
  {
    hide Position, Credit, NoBlockBehindReset;
  }

  lemma WoundedDeliver(c: Config, st: System, m: nat)
    requires c.Valid() && Inv(c, st) && Orderly(st) && Wounded(c, st, m) && Next(c, st, Deliver).Some?
    ensures var st2 := Next(c, st, Deliver).value;
            Wounded(c, st2, m) && Load(st2) == Load(st) - 1 && st2.s == st.s
  {
    assert st.toR[0] in st.toR;
    hide Crc, Inv, Receive, Orderly, Clean, Spared, Wounded;
    BlockAnswered(c, st) by {
      WoundedHead(c, st, m);
    }
    var (r2, ys) := Receive(c.Announced(), c.compression, st.r, st.toR[0]);
    assert ys == [ys[0]];
    StillWounded(c, st, m, r2, ys[0]);
  }

  lemma WoundedHead(c: Config, st: System, m: nat)
    requires c.Valid() && Wounded(c, st, m) && st.toR != []
    ensures st.toR[0].Data? && st.r.mode.Receiving?
  {
    assert st.toR[0] in st.toR;
    hide Clean, Spared;
  }

  lemma StillWounded(c: Config, st: System, m: nat, r2: Receiver, y: Reply)
    requires c.Valid() && Wounded(c, st, m) && st.toR != [] && st.toR[0].Data?
    requires (y.Ack? || y.Nak? || y.Drop?) && r2.mode.Receiving?
    requires r2.expected == st.r.expected
             || (r2.expected == st.r.expected + 1 && st.toR[0].seqno == st.r.expected && Clean(st.toR[0]))
    ensures Wounded(c, System(st.s, r2, st.toR[1..], st.toS + [y]), m)
  {
    assert st.toR[0] in st.toR;
    hide Clean, Spared;
  }

  /** The sender fills the window, or reads acknowledgements from before the gap. */
  lemma WoundedSend(c: Config, st: System, m: nat, e: Event, n: nat)
    requires c.Valid() && Inv(c, st) && Orderly(st) && Wounded(c, st, m) && WoundedFor(c, st, n)
    requires SenderStep(c, st, e).Some? && Calm(st, SenderMoves(e))
    ensures n > 0 && Mending(c, SenderStep(c, st, e).value, n - 1)
  {
    WoundedBounds(c, st, m);
    var st2 := SenderStep(c, st, e).value;
    hide Inv, Orderly, Healthy, Mending, Wounded, WoundedFor;
    if st.s.phase.Fill? {
      WoundedFill(c, st, m, e, n);
    } else if e.Timeout? {
      WoundedTimeout(c, st, m, n);
    } else {
      WoundedRead(c, st, m, e, n);
    }
  }

  lemma WoundedBounds(c: Config, st: System, m: nat)
    requires c.Valid() && Inv(c, st) && Orderly(st) && Wounded(c, st, m)
    ensures st.s.base <= st.r.expected <= m < st.s.next <= c.Blocks()
    ensures forall y :: y in st.toS && y.Ack? ==> y.n < st.r.expected
    ensures forall f :: f in st.toR ==> f.Data?
    ensures st.s.phase.Fill? || st.s.phase.Wait?
  {
    InvHasSender(c, st);
    FlowsInSync(c, st);
    hide Inv, Orderly;
  }

  lemma WoundedFill(c: Config, st: System, m: nat, e: Event, n: nat)
    requires c.Valid() && Wounded(c, st, m) && WoundedFor(c, st, n) && st.s.phase.Fill? && SenderStep(c, st, e).Some?
    requires st.s.base <= st.r.expected <= m < st.s.next <= c.Blocks()
    ensures n > 0 && Mending(c, SenderStep(c, st, e).value, n - 1)
  {
    hide Crc, Clean, HeaderFits, Plain, Healthy, Recovering;
    var st2 := SenderStep(c, st, e).value;
    assert Wounded(c, st2, m);
    assert WoundedFor(c, st2, n - 1);
  }

  lemma WoundedTimeout(c: Config, st: System, m: nat, n: nat)
    requires c.Valid() && Wounded(c, st, m) && WoundedFor(c, st, n) && st.s.phase.Wait? && Empty(st)
    ensures n > 0 && Mending(c, SenderStep(c, st, Timeout).value, n - 1)
  {
    hide Crc, Clean, Healthy;
    assert Recovering(c, SenderStep(c, st, Timeout).value);
  }

  lemma WoundedRead(c: Config, st: System, m: nat, e: Event, n: nat)
    requires c.Valid() && Wounded(c, st, m) && WoundedFor(c, st, n) && st.s.phase.Wait?
    requires SenderStep(c, st, e).Some? && e.Rx? && !e.late
    requires st.s.base <= st.r.expected <= m < st.s.next <= c.Blocks()
    requires forall y :: y in st.toS && y.Ack? ==> y.n < st.r.expected
    ensures n > 0 && Mending(c, SenderStep(c, st, e).value, n - 1)
  {
    hide Crc, Clean, Healthy;
    var st2 := SenderStep(c, st, e).value;
    assert st.toS[0] in st.toS;
    if e.reply.Ack? {
      assert Wounded(c, st2, m);
      assert WoundedFor(c, st2, n - 1);
    } else {
      assert Recovering(c, st2);
    }
  }

  // ---- the sender asks --------------------------------------------------------------------------------

  lemma RecoveringDeliver(c: Config, st: System)
    requires c.Valid() && Inv(c, st) && Orderly(st) && Recovering(c, st) && Next(c, st, Deliver).Some?
    ensures var st2 := Next(c, st, Deliver).value;
            Recovering(c, st2) && Load(st2) == Load(st) - 1 && st2.s == st.s
  {
    hide Crc, Inv, Orderly, Clean, ReceiveData, Recovering;
    if st.toR[0].Data? {
      hide Receive;
      BlockAnswered(c, st) by {
        RecoveringReceives(c, st);
      }
      var (r2, ys) := Receive(c.Announced(), c.compression, st.r, st.toR[0]);
      assert ys == [ys[0]];
      BlockWhileRecovering(c, st, r2, ys[0]);
    } else {
      ControlWhileRecovering(c, st);
    }
  }

  lemma RecoveringReceives(c: Config, st: System)
    requires c.Valid() && Recovering(c, st)
    ensures st.r.mode.Receiving?
  {
  }

  lemma BlockWhileRecovering(c: Config, st: System, r2: Receiver, y: Reply)
    requires c.Valid() && Recovering(c, st) && st.toR != [] && st.toR[0].Data?
    requires (y.Ack? || y.Nak? || y.Drop?) && r2.mode.Receiving?
    ensures Recovering(c, System(st.s, r2, st.toR[1..], st.toS + [y]))
  {
    var n := |st.toR| - 1;
    if st.s.phase.BarrierRead? {
      assert st.toR[..n] == [st.toR[0]] + st.toR[1..][..n - 1];
    }
  }

  lemma ControlWhileRecovering(c: Config, st: System)
    requires c.Valid() && Recovering(c, st) && Next(c, st, Deliver).Some? && !st.toR[0].Data?
    ensures var st2 := Next(c, st, Deliver).value;
            Recovering(c, st2) && Load(st2) == Load(st) - 1 && st2.s == st.s
  {
    hide Crc;
    HeadIsData(st.toR);
    if st.s.phase.BarrierRead? {
      BarrierArrives(c, st);
    }
  }

  lemma BarrierArrives(c: Config, st: System)
    requires c.Valid() && Recovering(c, st) && st.s.phase.BarrierRead? && |st.toR| == 1
    ensures st.toR[0] == Barrier(st.s.phase.barrier)
    ensures var y := Resume(st.s.phase.barrier, st.r.expected);
            Recovering(c, st.(toR := st.toR[1..], toS := st.toS + [y]))
  {
    var toS := st.toS + [Resume(st.s.phase.barrier, st.r.expected)];
    assert toS[..|toS| - 1] == st.toS;
  }

  lemma HeadIsData(q: seq<Frame>)
    ensures |q| > 1 && OnlyData(q[..|q| - 1]) ==> q[0].Data?
  {
    if |q| > 1 {
      assert q[..|q| - 1][0] in q[..|q| - 1];
    }
  }

  lemma HeadPasses(q: seq<Reply>)
    ensures |q| > 1 && Passing(q[..|q| - 1]) ==> q[0].Ack? || q[0].Nak? || q[0].Drop?
  {
    if |q| > 1 {
      assert q[..|q| - 1][0] in q[..|q| - 1];
    }
  }

  lemma RecoveringAsks(c: Config, st: System, e: Event)
    requires c.Valid() && Recovering(c, st) && SenderStep(c, st, e).Some? && Calm(st, SenderMoves(e))
    requires st.s.phase.Guard? || st.s.phase.ProbeWrite? || st.s.phase.ResetWrite? || st.s.phase.BarrierWrite?
    ensures var st2 := SenderStep(c, st, e).value;
            Recovering(c, st2) && Remaining(st2.s) + Load(st2) < Remaining(st.s) + Load(st)
  {
    hide *;
    match st.s.phase
    case Guard(_) => GuardEnds(c, st, e);
    case BarrierWrite(_, _, _) => BarrierIsWritten(c, st, e);
    case _ => RequestIsWritten(c, st, e);
  }

  lemma GuardEnds(c: Config, st: System, e: Event)
    requires c.Valid() && Recovering(c, st) && SenderStep(c, st, e).Some? && Calm(st, SenderMoves(e))
    requires st.s.phase.Guard?
    ensures var st2 := SenderStep(c, st, e).value;
            Recovering(c, st2) && Remaining(st2.s) + Load(st2) < Remaining(st.s) + Load(st)
  {
    hide Crc;
  }

  lemma RequestIsWritten(c: Config, st: System, e: Event)
    requires c.Valid() && Recovering(c, st) && SenderStep(c, st, e).Some?
    requires st.s.phase.ProbeWrite? || st.s.phase.ResetWrite?
    ensures var st2 := SenderStep(c, st, e).value;
            Recovering(c, st2) && Remaining(st2.s) + Load(st2) < Remaining(st.s) + Load(st)
  {
    hide Crc;
  }

  lemma BarrierIsWritten(c: Config, st: System, e: Event)
    requires c.Valid() && Recovering(c, st) && SenderStep(c, st, e).Some? && st.s.phase.BarrierWrite?
    ensures var st2 := SenderStep(c, st, e).value;
            Recovering(c, st2) && Remaining(st2.s) + Load(st2) < Remaining(st.s) + Load(st)
  {
    hide Crc, Passing, OnlyData;
    var st2 := SenderStep(c, st, e).value;
    assert st2.toR[..|st2.toR| - 1] == st.toR;
  }

  lemma RecoveringHears(c: Config, st: System, e: Event)
    requires c.Valid() && Recovering(c, st) && SenderStep(c, st, e).Some? && Calm(st, SenderMoves(e))
    requires st.s.phase.ProbeRead? || st.s.phase.ResetRead?
    ensures var st2 := SenderStep(c, st, e).value;
            Recovering(c, st2) && Remaining(st2.s) + Load(st2) < Remaining(st.s) + Load(st)
  {
    hide Crc;
  }

  lemma RecoveringResumes(c: Config, st: System, e: Event)
    requires c.Valid() && c.maxRetries >= 1 && Inv(c, st) && Orderly(st)
    requires Recovering(c, st) && SenderStep(c, st, e).Some? && Calm(st, SenderMoves(e)) && st.s.phase.BarrierRead?
    ensures var st2 := SenderStep(c, st, e).value;
            || (Recovering(c, st2) && Remaining(st2.s) + Load(st2) < Remaining(st.s) + Load(st))
            || (Healthy(c, st2, 1) && Load(st) >= 1)
  {
    assert st.toS != [] && e.Rx? by {
      hide Inv, Orderly;
    }
    ResetTokens(c, st);
    if e.reply.Resume? && e.reply.token == st.s.phase.barrier {
      AnswerInRange(c, st);
      hide Inv, Orderly;
      RepairedAt(c, st, e.reply.n);
    } else {
      hide Inv, Orderly, Healthy;
      PassedWhileRecovering(c, st, e);
    }
  }

  lemma PassedWhileRecovering(c: Config, st: System, e: Event)
    requires c.Valid() && Recovering(c, st) && SenderStep(c, st, e).Some? && e.Rx? && !e.late && st.s.phase.BarrierRead?
    requires !(e.reply.Resume? && e.reply.token == st.s.phase.barrier)
    ensures var st2 := SenderStep(c, st, e).value;
            Recovering(c, st2) && st2.s == st.s && Load(st2) < Load(st)
  {
    var n := |st.toS| - 1;
    if st.toR == [] {
      assert n > 0 ==> st.toS[..n] == [st.toS[0]] + st.toS[1..][..n - 1];
      assert n > 0 ==> st.toS[..n][0] in st.toS[..n];
    } else {
      assert st.toS[0] in st.toS;
    }
  }

  /** The barrier is answered: nothing is left on the line, and sending goes on from where the receiver stands. */
  lemma RepairedAt(c: Config, st: System, k: nat)
    requires c.Valid() && c.maxRetries >= 1 && Recovering(c, st) && st.s.phase.BarrierRead? && st.toS != []
    requires st.toS[0] == Resume(st.s.phase.barrier, k)
    requires st.s.base <= st.s.next
    requires if st.s.phase.job.AfterReset? then k == 0 else st.s.base <= k <= st.s.next
    ensures var s2 := Recovered(c, st.s, st.s.phase.job, k); Healthy(c, LineRead(st).(s := s2), 1)
  {
    hide Crc;
    HeadPasses(st.toS);
    assert st.toS[0] in st.toS;
  }

  lemma RecoveringSend(c: Config, st: System, e: Event, n: nat)
    requires c.Valid() && c.maxRetries >= 1 && Inv(c, st) && Orderly(st)
    requires Recovering(c, st) && SenderStep(c, st, e).Some? && Calm(st, SenderMoves(e))
    requires n >= Whole(c) + Remaining(st.s) + Load(st)
    ensures n > 0 && Mending(c, SenderStep(c, st, e).value, n - 1)
  {
    assert st.s.phase.Guard? || st.s.phase.ProbeWrite? || st.s.phase.ResetWrite? || st.s.phase.BarrierWrite?
           || st.s.phase.ProbeRead? || st.s.phase.ResetRead? || st.s.phase.BarrierRead?;
    hide Inv, Orderly, Recovering, Healthy, SenderStep, Remaining, Load, Progress, Wounded, WoundedFor;
    if st.s.phase.BarrierRead? {
      RecoveringResumes(c, st, e);
    } else if st.s.phase.ProbeRead? || st.s.phase.ResetRead? {
      RecoveringHears(c, st, e);
    } else {
      RecoveringAsks(c, st, e);
    }
  }

  // ---- every step, every run ------------------------------------------------------------------------------

  /** A calm step brings the end nearer. */
  lemma MendingStep(c: Config, st: System, n: nat, step: Step)
    requires c.Valid() && c.maxRetries >= 1 && Inv(c, st) && Orderly(st)
    requires Mending(c, st, n) && Calm(st, step) && Next(c, st, step).Some?
    ensures n > 0 && Mending(c, Next(c, st, step).value, n - 1)
  {
    hide Inv, Orderly, Recovering, Healthy, SenderStep, Remaining, Load, Progress, Wounded, WoundedFor, Receive;
    if Healthy(c, st, 1) && Progress(st) + n >= Whole(c) {
      HealthyGoesOn(c, st, step);
      HealthyIsCalm(c, st, 1, step);
      StepHealthy(c, st, 1, step);
    } else if Recovering(c, st) && n >= Whole(c) + Remaining(st.s) + Load(st) {
      if step.Deliver? {
        RecoveringDeliver(c, st);
      } else {
        RecoveringSend(c, st, step.e, n);
      }
    } else {
      var m :| Wounded(c, st, m) && WoundedFor(c, st, n);
      if step.Deliver? {
        WoundedDeliver(c, st, m);
        WoundedForLess(c, st, Next(c, st, step).value, n);
      } else {
        WoundedSend(c, st, m, step.e, n);
      }
    }
  }

  lemma WoundedForLess(c: Config, st: System, st2: System, n: nat)
    requires c.Valid() && WoundedFor(c, st, n) && st2.s == st.s && Load(st2) == Load(st) - 1
    ensures n > 0 && WoundedFor(c, st2, n - 1)
  {
  }

  /** A transfer in which nothing is missing is over only at its end. */
  lemma HealthyGoesOn(c: Config, st: System, step: Step)
    requires c.Valid() && Inv(c, st) && Healthy(c, st, 1) && Calm(st, step) && Next(c, st, step).Some?
    ensures Progress(st) < Whole(c)
  {
    ProgressEnds(c, st, 1);
    hide Inv, Progress, Crc, Exchanging, Spared, Receive;
  }

  /** While nothing is missing, something is always on its way where the sender waits. */
  lemma HealthyIsCalm(c: Config, st: System, e: nat, step: Step)
    requires c.Valid() && Inv(c, st) && Healthy(c, st, e) && Calm(st, step) && Next(c, st, step).Some?
    ensures step.Deliver? || (step.SenderMoves? && !step.e.Timeout?)
  {
    hide Inv, Crc, Spared, Receive, BlocksFrom, AcksFrom;
  }

  // ---- there is always a next step ------------------------------------------------------------------------

  /** What can be done next: write what is due, read what has come, deliver what is on its way, and only then wait in
      vain. */
  function GoOn(c: Config, st: System): Step
    requires c.Valid()
  {
    match st.s.phase
    case Fill => Onward(c, st)
    case ProbeWrite(_, _) => SenderMoves(Tx(Ayt(st.s.lastToken + 1)))
    case ResetWrite(_, t, _) => SenderMoves(Tx(Reset(t)))
    case BarrierWrite(_, t, _) => SenderMoves(Tx(Barrier(t)))
    case _ =>
      if st.toS != [] then SenderMoves(Rx(st.toS[0], false))
      else if st.toR != [] then Deliver
      else SenderMoves(Timeout)
  }

  lemma HealthyOnward(c: Config, st: System, e: nat)
    requires c.Valid() && Healthy(c, st, e) && e <= c.maxRetries && !st.s.phase.Complete?
    ensures Calm(st, GoOn(c, st)) && Next(c, st, GoOn(c, st)).Some?
  {
    OnwardIsPossible(c, st, e);
    hide Crc, Spared, BlocksFrom, AcksFrom, Receive, FillNext;
  }

  lemma WoundedOnward(c: Config, st: System, m: nat)
    requires c.Valid() && Wounded(c, st, m) && st.s.base <= m && st.s.next <= c.Blocks()
    ensures Calm(st, GoOn(c, st)) && Next(c, st, GoOn(c, st)).Some?
  {
    if st.s.phase.Fill? && st.s.next < c.Blocks() {
      RawCarries(c, st.s.next);
    }
    hide Crc, Clean, HeaderFits, Plain, Receive, Handle;
  }

  lemma RecoveringOnward(c: Config, st: System)
    requires c.Valid() && Recovering(c, st)
    ensures Calm(st, GoOn(c, st)) && Next(c, st, GoOn(c, st)).Some?
  {
    hide Crc, Receive, Handle, Recovered, NextProbe;
  }

  lemma MendingOnward(c: Config, st: System, n: nat)
    requires c.Valid() && c.maxRetries >= 1 && Inv(c, st) && Orderly(st) && Mending(c, st, n) && !st.s.phase.Complete?
    ensures Calm(st, GoOn(c, st)) && Next(c, st, GoOn(c, st)).Some? && !st.s.phase.Abort?
  {
    hide Inv, Orderly, Recovering, Healthy, Wounded, WoundedFor, Next, Calm, GoOn;
    if Healthy(c, st, 1) {
      HealthyOnward(c, st, 1);
      NoAbort(c, st);
    } else if Recovering(c, st) {
      RecoveringOnward(c, st);
      NoAbort(c, st);
    } else {
      var m :| Wounded(c, st, m) && WoundedFor(c, st, n);
      WoundedBounds(c, st, m);
      WoundedOnward(c, st, m);
    }
  }

  lemma NoAbort(c: Config, st: System)
    requires c.Valid() && (Healthy(c, st, 1) || Recovering(c, st))
    ensures !st.s.phase.Abort?
  {
  }

  lemma {:induction false} SuffersOnce(c: Config, steps: seq<Step>, n: nat)
    requires c.Valid() && Suffers(c, steps, n)
    ensures BlocksOnce(c, steps)
    decreases |steps|
  {
    hide Exec;
    if steps != [] {
      var before, last := steps[..|steps| - 1], steps[|steps| - 1];
      SuffersOnce(c, before, if Mishap(Exec(c, before).value, last) then n - 1 else n);
    }
  }

  /** Where a run with at most one mishap stands. */
  lemma {:induction false} RunMends(c: Config, steps: seq<Step>, n: nat)
    requires c.Valid() && c.maxRetries >= 1 && Exec(c, steps).Some? && Suffers(c, steps, n) && n <= 1
    ensures var st := Exec(c, steps).value;
            && Inv(c, st) && Orderly(st)
            && (n == 0 ==> Healthy(c, st, 0) && Progress(st) == |steps|)
            && (n == 1 ==> |steps| <= Longest(c) && Mending(c, st, Longest(c) - |steps|))
    decreases |steps|
  {
    SuffersOnce(c, steps, n);
    OrderlyRun(c, steps);
    hide Inv, Orderly, Healthy, Mending, Next, Progress, Longest, Calm, Mishap;
    if steps == [] {
      StartsHealthy(c);
    } else {
      var before, last := steps[..|steps| - 1], steps[|steps| - 1];
      var st := Exec(c, before).value;
      if Mishap(st, last) {
        RunMends(c, before, 0);
        MishapWounds(c, st, last);
      } else {
        RunMends(c, before, n);
        CalmStep(c, st, |before|, n, last);
      }
    }
  }

  lemma CalmStep(c: Config, st: System, k: nat, n: nat, step: Step)
    requires c.Valid() && c.maxRetries >= 1 && Inv(c, st) && Orderly(st) && Calm(st, step) && Next(c, st, step).Some?
    requires n <= 1
    requires n == 0 ==> Healthy(c, st, 0) && Progress(st) == k
    requires n == 1 ==> k <= Longest(c) && Mending(c, st, Longest(c) - k)
    ensures var st2 := Next(c, st, step).value;
            && (n == 0 ==> Healthy(c, st2, 0) && Progress(st2) == k + 1)
            && (n == 1 ==> k + 1 <= Longest(c) && Mending(c, st2, Longest(c) - (k + 1)))
  {
    hide Inv, Orderly, Healthy, Mending, Next, Progress, Longest, Calm;
    if n == 0 {
      HealthyIsCalm(c, st, 0, step);
      StepHealthy(c, st, 0, step);
    } else {
      MendingStep(c, st, Longest(c) - k, step);
    }
  }

  /** One lost, damaged or cut block is always mended. As long as reads time out only when nothing is on its way, a run
      with at most one such mishap never gives up, has a next step until it is complete, comes to its end after at most
      8 * blocks + 21 steps, and then both sides know that the receiver's file is the data. */
  lemma OneMishapIsMended(c: Config, steps: seq<Step>, n: nat)
    requires c.Valid() && c.maxRetries >= 1 && Exec(c, steps).Some? && Suffers(c, steps, n) && n <= 1
    ensures var st := Exec(c, steps).value;
            && !st.s.phase.Abort? && |steps| <= 8 * c.Blocks() + 21
            && (!st.s.phase.Complete? ==> Suffers(c, steps + [GoOn(c, st)], n) && Exec(c, steps + [GoOn(c, st)]).Some?)
            && (st.s.phase.Complete? ==> st.s.phase.verified && st.r.mode == Finished(true) && st.r.file == c.data)
  {
    RunMends(c, steps, n);
    var st := Exec(c, steps).value;
    hide *;
    MendedAt(c, st, n, |steps|);
    if !st.s.phase.Complete? {
      GoesOn(c, steps, n, GoOn(c, st));
    }
  }

  lemma GoesOn(c: Config, steps: seq<Step>, n: nat, step: Step)
    requires c.Valid() && Exec(c, steps).Some? && Suffers(c, steps, n)
    requires Calm(Exec(c, steps).value, step) && Next(c, Exec(c, steps).value, step).Some?
    ensures Suffers(c, steps + [step], n) && Exec(c, steps + [step]).Some?
  {
    assert (steps + [step])[..|steps|] == steps;
    hide Next;
  }

  lemma MendedAt(c: Config, st: System, n: nat, k: nat)
    requires c.Valid() && c.maxRetries >= 1 && Inv(c, st) && Orderly(st) && n <= 1
    requires n == 0 ==> Healthy(c, st, 0) && Progress(st) == k
    requires n == 1 ==> k <= Longest(c) && Mending(c, st, Longest(c) - k)
    ensures !st.s.phase.Abort? && k <= 8 * c.Blocks() + 21
    ensures !st.s.phase.Complete? ==> Calm(st, GoOn(c, st)) && Next(c, st, GoOn(c, st)).Some?
    ensures st.s.phase.Complete? ==> st.s.phase.verified && st.r.mode == Finished(true) && st.r.file == c.data
  {
    hide Inv, Orderly, Mending, Next, Progress, Calm, GoOn, Healthy;
    if n == 0 {
      ProgressEnds(c, st, 0);
      if st.s.phase.Complete? {
        FileIsData(c, st, 0);
      } else {
        HealthyOnward(c, st, 0);
      }
    } else if st.s.phase.Complete? {
      CompleteIsHealthy(c, st, Longest(c) - k);
      ProgressEnds(c, st, 1);
      FileIsData(c, st, 1);
    } else {
      MendingOnward(c, st, Longest(c) - k);
    }
  }

  lemma CompleteIsHealthy(c: Config, st: System, n: nat)
    requires c.Valid() && Mending(c, st, n) && st.s.phase.Complete?
    ensures Healthy(c, st, 1)
  {
    hide Healthy;
  }

  /** So it can always be continued to a verified end. */
  lemma {:induction false} MishapEndsWell(c: Config, steps: seq<Step>, n: nat) returns (more: seq<Step>)
    requires c.Valid() && c.maxRetries >= 1 && Exec(c, steps).Some? && Suffers(c, steps, n) && n <= 1
    ensures Suffers(c, steps + more, n) && Exec(c, steps + more).Some?
    ensures Exec(c, steps + more).value.s.phase == Complete(true) && Exec(c, steps + more).value.r.file == c.data
    decreases 8 * c.Blocks() + 21 - |steps|
  {
    hide *;
    OneMishapIsMended(c, steps, n);
    var st := Exec(c, steps).value;
    if st.s.phase.Complete? {
      more := [];
      assert steps + more == steps;
    } else {
      var step := GoOn(c, st);
      OneMishapIsMended(c, steps + [step], n);
      var rest := MishapEndsWell(c, steps + [step], n);
      more := [step] + rest;
      assert steps + more == steps + [step] + rest;
    }
  }
}
