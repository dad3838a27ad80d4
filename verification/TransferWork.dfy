/**
  How much work the sender can be made to do. Whatever lines come back, and in whatever order reads time out, the
  sender writes at most (MAX_RESETS + 1) * blocks * (maxRetries + 1) data frames.
*/
module TransferWork {
  import opened Basics
  import opened Crc32
  import opened Transfer

  /** The sender after a history of events, if it could take part in all of them. */
  function Run(c: Config, log: seq<Event>): Option<Sender>
    requires c.Valid()
  {
    if log == [] then Some(Start(c))
    else
      match Run(c, log[..|log| - 1])
      case None => None
      case Some(s) => Send(c, s, log[|log| - 1])
  }

  predicate IsBlock(e: Event) {
    e.Tx? && e.frame.Data?
  }

  function DataSent(log: seq<Event>): nat {
    if log == [] then 0
    else DataSent(log[..|log| - 1]) + if IsBlock(log[|log| - 1]) then 1 else 0
  }

  /** Bytes of data headers and payloads written. */
  function WireBytes(log: seq<Event>): nat {
    if log == [] then 0
    else WireBytes(log[..|log| - 1]) + if IsBlock(log[|log| - 1]) then WireSize(log[|log| - 1].frame) else 0
  }

  // ---- attempts ---------------------------------------------------------------------

  /** Attempts spent on blocks `lo` up to `hi`. */
  function Spent(attempts: map<nat, nat>, lo: nat, hi: nat): nat
    requires lo <= hi
    decreases hi - lo
  {
    if lo == hi then 0 else (if lo in attempts then attempts[lo] else 0) + Spent(attempts, lo + 1, hi)
  }

  /** `n` blocks at `each` attempts. */
  function Budget(n: nat, each: nat): nat {
    n * each
  }

  lemma {:induction false} SpentAgrees(a: map<nat, nat>, b: map<nat, nat>, lo: nat, hi: nat)
    requires lo <= hi
    requires forall k :: lo <= k < hi ==> (k in a <==> k in b) && (k in a ==> a[k] == b[k])
    ensures Spent(a, lo, hi) == Spent(b, lo, hi)
    decreases hi - lo
  {
    if lo < hi {
      SpentAgrees(a, b, lo + 1, hi);
    }
  }

  lemma {:induction false} SpentOnce(a: map<nat, nat>, lo: nat, k: nat, hi: nat)
    requires lo <= k < hi
    ensures var count := if k in a then a[k] else 0;
            Spent(a[k := count + 1], lo, hi) == Spent(a, lo, hi) + 1
    decreases hi - lo
  {
    var b := a[k := (if k in a then a[k] else 0) + 1];
    if lo == k {
      SpentAgrees(b, a, lo + 1, hi);
    } else {
      SpentOnce(a, lo + 1, k, hi);
    }
  }

  lemma BudgetStep(n: nat, each: nat)
    ensures Budget(n + 1, each) == Budget(n, each) + each
  {
    assert (n + 1) * each == n * each + each;
  }

  /** Leaving blocks `lo` up to `mid` behind costs at most their whole budget. */
  lemma {:induction false} SpentWithin(a: map<nat, nat>, lo: nat, mid: nat, hi: nat, each: nat)
    requires lo <= mid <= hi
    requires forall k :: k in a ==> a[k] <= each
    ensures Budget(lo, each) + Spent(a, lo, hi) <= Budget(mid, each) + Spent(KeepFrom(a, mid), mid, hi)
    decreases mid - lo
  {
    hide Budget;
    if lo == mid {
      SpentAgrees(a, KeepFrom(a, mid), mid, hi);
    } else {
      BudgetStep(lo, each);
      SpentWithin(a, lo + 1, mid, hi, each);
    }
  }

  lemma {:induction false} SpentAll(a: map<nat, nat>, lo: nat, hi: nat, each: nat)
    requires lo <= hi
    requires forall k :: k in a ==> a[k] <= each
    ensures Budget(lo, each) + Spent(a, lo, hi) <= Budget(hi, each)
    decreases hi - lo
  {
    hide Budget;
    if lo < hi {
      BudgetStep(lo, each);
      SpentAll(a, lo + 1, hi, each);
    }
  }

  // ---- the budget of one transfer -----------------------------------------------------

  predicate Restarting(s: Sender) {
    (s.phase.BarrierWrite? || s.phase.BarrierRead?) && s.phase.job.AfterReset?
  }

  /** What the sender may have written by now: all of its budget for each pass of the file that a reset ended, and in
      this pass all of it for acknowledged blocks and the attempts made on the others. */
  function Allowance(c: Config, s: Sender): nat
    requires c.Valid() && s.base <= c.Blocks()
  {
    var each := c.maxRetries + 1;
    if s.phase.Abort? then Budget(s.resets + 1, Budget(c.Blocks(), each))
    else if Restarting(s) && s.resets >= 1 then
      Budget(s.resets - 1, Budget(c.Blocks(), each)) + Budget(s.base, each) + Spent(s.attempts, s.base, c.Blocks())
    else Budget(s.resets, Budget(c.Blocks(), each)) + Budget(s.base, each) + Spent(s.attempts, s.base, c.Blocks())
  }

  predicate Sane(c: Config, s: Sender)
    requires c.Valid()
  {
    && s.base <= s.next <= c.Blocks() && s.resets <= MAX_RESETS && s.recoveries <= c.maxRetries
    && (Restarting(s) ==> s.resets >= 1)
    && forall k :: k in s.attempts ==> s.attempts[k] <= c.maxRetries + 1
  }

  /** Every pass fits in the allowance, with room for the current one. */
  lemma AllowanceFits(c: Config, s: Sender)
    requires c.Valid() && Sane(c, s)
    ensures Allowance(c, s) <= Budget(s.resets + 1, Budget(c.Blocks(), c.maxRetries + 1))
    ensures !s.phase.Abort? && !Restarting(s) ==>
              Allowance(c, s) <= Allowance(c, s.(phase := Abort(LinkLost)))
  {
    hide Budget;
    var each := c.maxRetries + 1;
    SpentAll(s.attempts, s.base, c.Blocks(), each);
    BudgetStep(s.resets, Budget(c.Blocks(), each));
    if s.resets >= 1 {
      BudgetStep(s.resets - 1, Budget(c.Blocks(), each));
    }
  }

  /** One step keeps within the allowance, and never takes `base` back except to restart after a reset. */
  ghost predicate Works(c: Config, s: Sender, e: Event, s2: Sender)
    requires c.Valid() && Sane(c, s)
  {
    && Sane(c, s2)
    && Allowance(c, s) + (if IsBlock(e) then 1 else 0) <= Allowance(c, s2)
    && s.resets <= s2.resets <= s.resets + 1
    && (s2.base < s.base ==> Restarting(s) && s2.base == 0)
    && (Restarting(s2) ==> Restarting(s) || s2.resets == s.resets + 1)
  }

  /** Nothing is sent and nothing is left behind; the sender may give up, or start over in recovery. */
  lemma IdleWorks(c: Config, s: Sender, e: Event, s2: Sender)
    requires c.Valid() && Sane(c, s) && !IsBlock(e) && !s.phase.Abort?
    requires s2.base == s.base && s2.next == s.next && s2.attempts == s.attempts && s2.recoveries == s.recoveries
    requires if s2.phase.Abort? then s2.resets == s.resets
             else if Restarting(s2) && !Restarting(s) then s2.resets == s.resets + 1 <= MAX_RESETS
             else s2.resets == s.resets && (Restarting(s2) <==> Restarting(s))
    ensures Works(c, s, e, s2)
  {
    hide Budget;
    AllowanceFits(c, s);
  }

  lemma AckWorks(c: Config, s: Sender, e: Event, base: nat, s2: Sender)
    requires c.Valid() && Sane(c, s) && !IsBlock(e) && !s.phase.Abort? && !Restarting(s)
    requires s.base <= base <= s.next && s2.base == base && s2.next <= s.next && base <= s2.next
    requires s2.attempts == KeepFrom(s.attempts, base) && s2.recoveries <= c.maxRetries && s2.resets == s.resets
    requires !s2.phase.Abort? && !Restarting(s2)
    ensures Works(c, s, e, s2)
  {
    hide Budget;
    SpentWithin(s.attempts, s.base, base, c.Blocks(), c.maxRetries + 1);
  }

  lemma HandleWorks(c: Config, s: Sender, reply: Reply, late: bool, again: bool, e: Event)
    requires c.Valid() && Sane(c, s) && !IsBlock(e) && !s.phase.Abort? && !Restarting(s)
    ensures Works(c, s, e, Handle(c, s, reply, late, again))
  {
    hide Works, Sane;
    var s2 := Handle(c, s, reply, late, again);
    if reply.Ack? && s.base <= reply.n < s.next {
      AckWorks(c, s, e, reply.n + 1, s2) by {
        HandleAcks(c, s, reply, late, again);
      }
    } else {
      IdleWorks(c, s, e, s2) by {
        HandleIdles(c, s, reply, late, again);
      }
    }
  }

  lemma HandleAcks(c: Config, s: Sender, reply: Reply, late: bool, again: bool)
    requires c.Valid() && Sane(c, s) && reply.Ack? && s.base <= reply.n < s.next
    ensures var s2 := Handle(c, s, reply, late, again);
            && s2.base == reply.n + 1 && s2.next == s.next && s2.attempts == KeepFrom(s.attempts, reply.n + 1)
            && s2.recoveries == 0 && s2.resets == s.resets && s2.phase.Fill?
  {
  }

  lemma HandleIdles(c: Config, s: Sender, reply: Reply, late: bool, again: bool)
    requires c.Valid() && Sane(c, s) && !(reply.Ack? && s.base <= reply.n < s.next) && !Restarting(s)
    ensures var s2 := Handle(c, s, reply, late, again);
            && s2.base == s.base && s2.next == s.next && s2.attempts == s.attempts && s2.recoveries == s.recoveries
            && if s2.phase.Abort? then s2.resets == s.resets
               else if Restarting(s2) then s2.resets == s.resets + 1 <= MAX_RESETS
               else s2.resets == s.resets
  {
  }

  lemma RecoveredWorks(c: Config, s: Sender, e: Event, n: nat)
    requires c.Valid() && Sane(c, s) && !IsBlock(e) && s.phase.BarrierRead?
    requires (if s.phase.job.AfterReset? then 0 else s.base) <= n <= s.next
    ensures Works(c, s, e, Recovered(c, s, s.phase.job, n))
  {
    hide Budget;
    var s2 := Recovered(c, s, s.phase.job, n);
    if s2.phase.Abort? {
      IdleWorks(c, s, e, s2);
    } else if s.phase.job.AfterReset? {
      AllowanceFits(c, s);
      var each := c.maxRetries + 1;
      SpentAll(s.attempts, s.base, c.Blocks(), each);
      BudgetStep(s.resets - 1, Budget(c.Blocks(), each));
    } else {
      AckWorks(c, s, e, n, s2);
    }
  }

  lemma WindowWorks(c: Config, s: Sender, e: Event)
    requires c.Valid() && Sane(c, s) && Send(c, s, e).Some?
    requires s.phase.Wait? || s.phase.Guard? || s.phase.ProbeRead?
    ensures Works(c, s, e, Send(c, s, e).value)
  {
    hide Works, Sane, Handle;
    var s2 := Send(c, s, e).value;
    match s.phase
    case Wait =>
      if e.Rx? {
        HandleWorks(c, s, e.reply, e.late, false, e);
      } else {
        IdleWorks(c, s, e, s2);
      }
    case Guard(again) =>
      if e.Rx? && e.reply != Blank(true) {
        HandleWorks(c, s, e.reply, true, again, e);
      } else {
        IdleWorks(c, s, e, s2);
      }
    case ProbeRead(i, probe, again) =>
      if e.Rx? && e.reply.Here? && e.reply.token == probe {
        HandleWorks(c, s, Drop(e.reply.n), true, again, e);
      } else if e.Rx? && (IsAck(e.reply) || IsNakOrDrop(e.reply) || IsRst(e.reply) || IsErr(e.reply)) {
        HandleWorks(c, s, e.reply, true, again, e);
      } else {
        IdleWorks(c, s, e, s2);
      }
  }

  /** The sender may still be handed a reset confirmation, under the token it asked for. */
  lemma ResetWorks(c: Config, s: Sender, e: Event)
    requires c.Valid() && Sane(c, s) && Send(c, s, e).Some? && s.phase.ResetRead?
    ensures Works(c, s, e, Send(c, s, e).value)
  {
    var s2 := Send(c, s, e).value;
    if e.Rx? && e.reply == ResetAck(s.phase.reset) {
      HandleWorks(c, s.(resetToken := Some(s.phase.reset)), SelfReset, true, s.phase.again, e);
    } else {
      hide Works;
      IdleWorks(c, s, e, s2);
    }
  }

  lemma BarrierWorks(c: Config, s: Sender, e: Event)
    requires c.Valid() && Sane(c, s) && Send(c, s, e).Some? && s.phase.BarrierRead?
    ensures Works(c, s, e, Send(c, s, e).value)
  {
    hide Works, Recovered;
    var s2 := Send(c, s, e).value;
    if e.Rx? && e.reply.Resume? && e.reply.token == s.phase.barrier
       && (if s.phase.job.AfterReset? then 0 else s.base) <= e.reply.n <= s.next {
      RecoveredWorks(c, s, e, e.reply.n);
    } else {
      IdleWorks(c, s, e, s2);
    }
  }

  lemma FillWorks(c: Config, s: Sender, e: Event)
    requires c.Valid() && Sane(c, s) && Send(c, s, e).Some? && s.phase.Fill?
    ensures Works(c, s, e, Send(c, s, e).value)
  {
    hide Budget, HeaderFits, Plain, Crc;
    var s2 := Send(c, s, e).value;
    if IsBlock(e) {
      SpentOnce(s.attempts, s.base, s.next, c.Blocks());
    } else {
      IdleWorks(c, s, e, s2);
    }
  }

  lemma SendWorks(c: Config, s: Sender, e: Event)
    requires c.Valid() && Sane(c, s) && Send(c, s, e).Some?
    ensures Works(c, s, e, Send(c, s, e).value)
  {
    hide Works, FillNext, Handle, GuardNext, ProbeNext, ResetNext, BarrierNext, Crc;
    match s.phase
    case Fill => FillWorks(c, s, e);
    case Wait => WindowWorks(c, s, e);
    case Guard(_) => WindowWorks(c, s, e);
    case ProbeRead(_, _, _) => WindowWorks(c, s, e);
    case ResetRead(_, _, _) => ResetWorks(c, s, e);
    case BarrierRead(_, _, _) => BarrierWorks(c, s, e);
    case ProbeWrite(_, _) => IdleWorks(c, s, e, Send(c, s, e).value);
    case ResetWrite(_, _, _) => IdleWorks(c, s, e, Send(c, s, e).value);
    case BarrierWrite(_, _, _) => IdleWorks(c, s, e, Send(c, s, e).value);
    case AwaitOk => IdleWorks(c, s, e, Send(c, s, e).value);
  }

  lemma {:induction false} RunWorks(c: Config, log: seq<Event>)
    requires c.Valid() && Run(c, log).Some?
    ensures var s := Run(c, log).value; Sane(c, s) && DataSent(log) <= Allowance(c, s)
    decreases |log|
  {
    hide Allowance, Send, IsBlock;
    if log != [] {
      var before, e := log[..|log| - 1], log[|log| - 1];
      RunWorks(c, before);
      SendWorks(c, Run(c, before).value, e);
    }
  }

  /** The work bound, for any replies and any timeouts. */
  lemma DataIsBounded(c: Config, log: seq<Event>)
    requires c.Valid() && Run(c, log).Some?
    ensures DataSent(log) <= (MAX_RESETS + 1) * c.Blocks() * (c.maxRetries + 1)
  {
    BudgetMeans(MAX_RESETS + 1, c.Blocks(), c.maxRetries + 1);
    hide Budget, Allowance, Run;
    RunWorks(c, log);
    var s, each := Run(c, log).value, c.maxRetries + 1;
    AllowanceFits(c, s);
    BudgetGrows(s.resets + 1, MAX_RESETS + 1, Budget(c.Blocks(), each));
  }

  lemma BudgetMeans(passes: nat, blocks: nat, each: nat)
    ensures Budget(passes, Budget(blocks, each)) == passes * blocks * each
  {
    assert passes * (blocks * each) == passes * blocks * each;
  }

  lemma {:induction false} BudgetGrows(m: nat, n: nat, each: nat)
    requires m <= n
    ensures Budget(m, each) <= Budget(n, each)
  {
    hide Budget;
    if m < n {
      BudgetStep(n - 1, each);
      BudgetGrows(m, n - 1, each);
    }
  }

  /** Between resets `base` only grows: it falls only where a reset is being carried out, and each reset is counted. */
  lemma {:induction false} BaseAdvances(c: Config, log: seq<Event>, k: nat)
    requires c.Valid() && Run(c, log).Some? && k <= |log|
    ensures Run(c, log[..k]).Some?
    ensures var a, b := Run(c, log[..k]).value, Run(c, log).value;
            && a.resets <= b.resets <= MAX_RESETS
            && (b.base < a.base || Restarting(b) ==> a.resets < b.resets || Restarting(a))
    decreases |log|
  {
    hide Allowance, Send, IsBlock, Restarting;
    RunWorks(c, log);
    if k == |log| {
      assert log[..k] == log;
    } else {
      var before, e := log[..|log| - 1], log[|log| - 1];
      assert before[..k] == log[..k];
      BaseAdvances(c, before, k);
      RunWorks(c, before);
      SendWorks(c, Run(c, before).value, e);
    }
  }

  // ---- the congestion window -----------------------------------------------------------------

  function AcksRead(log: seq<Event>): nat {
    if log == [] then 0
    else
      var e := log[|log| - 1];
      AcksRead(log[..|log| - 1]) + if e.Rx? && e.reply.Ack? then 1 else 0
  }

  /** The window is open exactly while enough acknowledgements have come in without a disturbance. */
  predicate Grown(c: Config, s: Sender) {
    s.cwnd == if s.clean >= FLOW_GROW_ACKS then c.window else 1
  }

  lemma HandleGrown(c: Config, s: Sender, reply: Reply, late: bool, again: bool)
    requires Grown(c, s)
    ensures var s2 := Handle(c, s, reply, late, again);
            Grown(c, s2) && s2.clean <= s.clean + (if reply.Ack? then 1 else 0)
  {
  }

  lemma SendGrown(c: Config, s: Sender, e: Event)
    requires c.Valid() && Grown(c, s) && Send(c, s, e).Some?
    ensures var s2 := Send(c, s, e).value;
            Grown(c, s2) && s2.clean <= s.clean + (if e.Rx? && e.reply.Ack? then 1 else 0)
  {
    hide Handle, Crc, Carries, IsHere, IsNakOrDrop, OldResume;
    if e.Rx? {
      forall s1: Sender, reply, late, again | Grown(c, s1)
        ensures Grown(c, Handle(c, s1, reply, late, again))
        ensures Handle(c, s1, reply, late, again).clean <= s1.clean + (if reply.Ack? then 1 else 0)
      {
        HandleGrown(c, s1, reply, late, again);
      }
    }
  }

  /** Whatever the replies, the congestion window is the negotiated one exactly while the count of clean
      acknowledgements stands at FLOW_GROW_ACKS or more, and that many acknowledgements have then been read. */
  lemma {:induction false} WindowGrowsAfterCleanAcks(c: Config, log: seq<Event>)
    requires c.Valid() && Run(c, log).Some?
    ensures var s := Run(c, log).value;
            && Grown(c, s) && s.clean <= AcksRead(log)
            && (s.cwnd > 1 ==> AcksRead(log) >= FLOW_GROW_ACKS)
    decreases |log|
  {
    hide Send;
    if log != [] {
      var before := log[..|log| - 1];
      WindowGrowsAfterCleanAcks(c, before);
      SendGrown(c, Run(c, before).value, log[|log| - 1]);
    }
  }

  // ---- the sender in a whole system -----------------------------------------------------------

  /** The sender's part of a run of the two ends. */
  function Moves(steps: seq<Step>): seq<Event> {
    if steps == [] then []
    else
      var last := steps[|steps| - 1];
      Moves(steps[..|steps| - 1]) + if last.SenderMoves? then [last.e] else []
  }

  /** Seen from the sender, a run of the two ends is one of its own histories: the work bound holds in it too. */
  lemma {:induction false} SenderHistory(c: Config, steps: seq<Step>)
    requires c.Valid() && Exec(c, steps).Some?
    ensures Run(c, Moves(steps)) == Some(Exec(c, steps).value.s)
    ensures DataSent(Moves(steps)) <= (MAX_RESETS + 1) * c.Blocks() * (c.maxRetries + 1)
    decreases |steps|
  {
    hide Send, Receive, DataSent;
    if steps != [] {
      var before, last := steps[..|steps| - 1], steps[|steps| - 1];
      SenderHistory(c, before);
      if last.SenderMoves? {
        var log := Moves(before);
        assert (log + [last.e])[..|log|] == log;
      } else {
        assert Moves(steps) == Moves(before);
      }
    }
    DataIsBounded(c, Moves(steps));
  }
}
