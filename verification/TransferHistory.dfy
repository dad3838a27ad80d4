/**
  What an acknowledgement is worth: every position that an ACK or an answered barrier gives to the sender is one that
  the receiver had reached, with the file committed up to it.
*/
module TransferHistory {
  import opened Crc32
  import opened Transfer
  import opened TransferQueues
  import opened TransferSafety

  /** At some moment of the run the receiver had committed exactly the first `n` blocks. */
  ghost predicate CommittedBefore(c: Config, steps: seq<Step>, n: nat)
    requires c.Valid()
  {
    exists k :: 0 <= k <= |steps| && CommittedAt(c, steps[..k], n)
  }

  ghost predicate CommittedAt(c: Config, steps: seq<Step>, n: nat)
    requires c.Valid()
  {
    && Exec(c, steps).Some?
    && Exec(c, steps).value.r.expected == n && Exec(c, steps).value.r.file == c.Prefix(n)
  }

  lemma CommittedNow(c: Config, steps: seq<Step>)
    requires c.Valid() && Exec(c, steps).Some?
    ensures CommittedBefore(c, steps, Exec(c, steps).value.r.expected)
  {
    ReceiverNeverMisled(c, steps);
    hide Exec;
    assert steps[..|steps|] == steps;
    assert CommittedAt(c, steps[..|steps|], Exec(c, steps).value.r.expected);
  }

  lemma CommittedEarlier(c: Config, steps: seq<Step>, n: nat)
    requires c.Valid() && steps != [] && CommittedBefore(c, steps[..|steps| - 1], n)
    ensures CommittedBefore(c, steps, n)
  {
    hide CommittedAt;
    var before := steps[..|steps| - 1];
    var k :| 0 <= k <= |before| && CommittedAt(c, before[..k], n);
    assert before[..k] == steps[..k];
  }

  lemma AckStatesPosition(c: Config, r: Receiver, f: Frame, n: nat)
    requires c.Valid() && r.mode.Receiving? && Ack(n) in Receive(c.Announced(), c.compression, r, f).1
    ensures Receive(c.Announced(), c.compression, r, f).0.expected == n + 1
  {
    hide Crc, Clean, Plain;
    var ys := Receive(c.Announced(), c.compression, r, f).1;
    var i :| 0 <= i < |ys| && ys[i] == Ack(n);
  }

  /** A new acknowledgement states where the receiver stands. */
  lemma NewAckStatesPosition(c: Config, st: System, step: Step, n: nat)
    requires c.Valid() && Next(c, st, step).Some? && Ack(n) in Next(c, st, step).value.toS && Ack(n) !in st.toS
    ensures Next(c, st, step).value.r.expected == n + 1
  {
    hide Crc, Receive, Send;
    match step
    case SenderMoves(e) => assert forall y :: y in Next(c, st, step).value.toS ==> y in st.toS;
    case Deliver => AckStatesPosition(c, st.r, st.toR[0], n);
    case PayloadTimesOut =>
    case LoseFrame(i) =>
    case LoseReply(i) => WithoutIsCalmer(st.toS, i);
    case RepeatFrame(i) =>
    case RepeatReply(i) => TwiceIsCalmer(st.toS, i);
    case DamageFrame(i, payload) =>
  }

  lemma {:induction false} AckWasCommitted(c: Config, steps: seq<Step>, n: nat)
    requires c.Valid() && Exec(c, steps).Some? && Ack(n) in Exec(c, steps).value.toS
    ensures CommittedBefore(c, steps, n + 1)
    decreases |steps|
  {
    hide Next, CommittedBefore;
    if steps != [] {
      var before, last := steps[..|steps| - 1], steps[|steps| - 1];
      if Ack(n) in Exec(c, before).value.toS {
        AckWasCommitted(c, before, n);
        CommittedEarlier(c, steps, n + 1);
      } else {
        NewAckStatesPosition(c, Exec(c, before).value, last, n);
        CommittedNow(c, steps);
      }
    }
  }

  /** The sender moves `base` by an ACK or by an answered barrier. */
  lemma BaseMoves(c: Config, s: Sender, e: Event)
    requires c.Valid() && Send(c, s, e).Some? && Send(c, s, e).value.base != s.base
    ensures e.Rx?
    ensures (e.reply.Ack? && Send(c, s, e).value.base == e.reply.n + 1)
            || (s.phase.BarrierRead? && Send(c, s, e).value.phase.Fill?)
  {
    hide Crc, Carries, KeepFrom, Attempts;
  }

  /** Every position that the sender takes as acknowledged, the receiver had reached. */
  lemma {:induction false} BaseWasCommitted(c: Config, steps: seq<Step>)
    requires c.Valid() && Exec(c, steps).Some?
    ensures CommittedBefore(c, steps, Exec(c, steps).value.s.base)
    decreases |steps|
  {
    hide CommittedBefore;
    if steps == [] {
      CommittedNow(c, steps);
    } else {
      var before, last := steps[..|steps| - 1], steps[|steps| - 1];
      var st, base := Exec(c, before).value, Exec(c, steps).value.s.base;
      if base == st.s.base {
        hide Next;
        BaseWasCommitted(c, before);
        CommittedEarlier(c, steps, base);
      } else {
        assert last.SenderMoves?;
        hide Send;
        BaseMoves(c, st.s, last.e);
        if last.e.reply.Ack? && base == last.e.reply.n + 1 {
          AckWasCommitted(c, before, last.e.reply.n);
          CommittedEarlier(c, steps, base);
        } else {
          BarrierQuiescence(c, before, last.e);
          CommittedNow(c, steps);
        }
      }
    }
  }

  /** ACK soundness: every block acknowledged had been committed by the receiver, together with all before it; and while
      blocks are being sent they are still in its file, unless the receiver has reset itself, in which case it stands at
      zero and the sender is short of the end. */
  lemma AcknowledgedIsHeld(c: Config, steps: seq<Step>)
    requires c.Valid() && Exec(c, steps).Some?
    ensures var st := Exec(c, steps).value;
            && CommittedBefore(c, steps, st.s.base)
            && (forall n: nat :: Ack(n) in st.toS ==> CommittedBefore(c, steps, n + 1))
            && (Flows(st.s) ==>
                  || (c.Prefix(st.s.base) <= st.r.file && st.r.expected <= st.s.next)
                  || (st.r.file == [] && st.r.resets >= 1 && st.s.base < c.Blocks()))
  {
    hide CommittedBefore, Exec;
    BaseWasCommitted(c, steps);
    var st := Exec(c, steps).value;
    forall n: nat | Ack(n) in st.toS
      ensures CommittedBefore(c, steps, n + 1)
    {
      AckWasCommitted(c, steps, n);
    }
    if Flows(st.s) {
      HeldOrReset(c, steps);
    }
  }
}
