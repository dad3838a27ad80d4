/**
  How patient the sender is. Everything it counts (recoveries, attempts, resets, repeated requests, clean
  acknowledgements) is read off its history of lines written and read, and with these counts every way of giving up is
  characterised, for any replies and any timeouts.
*/
module TransferPatience {
  import opened Basics
  import opened Crc32
  import opened Transfer
  import opened TransferWork

  // ---- what an event is ------------------------------------------------------------------

  /** The barrier that is waited for is answered, with a position that may be gone on from. */
  predicate Resumes(s: Sender, e: Event) {
    && s.phase.BarrierRead? && e.Rx? && e.reply.Resume? && e.reply.token == s.phase.barrier
    && (if s.phase.job.AfterReset? then 0 else s.base) <= e.reply.n <= s.next
  }

  /** A reset is carried out: the barrier behind it is answered from zero. */
  predicate Restarts(s: Sender, e: Event) {
    Resumes(s, e) && s.phase.job.AfterReset? && e.reply.n == 0
  }

  /** A line on which the waiting loop of the window acts, directly or out of a probe. */
  predicate Acts(s: Sender, e: Event) {
    e.Rx? && (s.phase.Wait? || s.phase.Guard? || s.phase.ProbeRead?)
  }

  predicate HearsReset(s: Sender, e: Event) {
    || (Acts(s, e) && e.reply.SelfReset?)
    || (s.phase.ResetRead? && e.Rx? && e.reply == ResetAck(s.phase.reset))
  }

  /** The deadline has passed, whether or not a line came in with it. */
  predicate OutOfTime(e: Event) {
    e.Timeout? || (e.Rx? && e.late)
  }

  /** A line that answers neither a barrier nor a reset request and does not forbid to wait on. */
  predicate PassedOver(s: Sender, y: Reply) {
    || IsAck(y) || IsNakOrDrop(y) || IsHere(y)
    || (IsResume(y) && !((y.Resume? || y.ResumeUnreadable?) && s.phase.BarrierRead? && y.token == s.phase.barrier))
    || (s.phase.BarrierRead? && y.ResetAck? && s.resetToken == Some(y.token))
  }

  /** A wait for an answer comes to its end without one. */
  predicate Expires(s: Sender, e: Event) {
    OutOfTime(e) && (e.Rx? ==> PassedOver(s, e.reply))
  }

  // ---- what a history adds up to ------------------------------------------------------------

  /** Answered recoveries that have not moved `base`, since it last rose or a reset was carried out. */
  function Stalls(c: Config, log: seq<Event>): nat
    requires c.Valid() && Run(c, log).Some?
  {
    if log == [] then 0
    else
      var before, e := log[..|log| - 1], log[|log| - 1];
      var s := Run(c, before).value;
      if Restarts(s, e) || Run(c, log).value.base > s.base then 0
      else Stalls(c, before) + if Resumes(s, e) && s.phase.job.AfterNak? then 1 else 0
  }

  /** How often block `k` has been written since a reset was last carried out. */
  function Tries(c: Config, log: seq<Event>, k: nat): nat
    requires c.Valid() && Run(c, log).Some?
  {
    if log == [] then 0
    else
      var before, e := log[..|log| - 1], log[|log| - 1];
      if Restarts(Run(c, before).value, e) then 0
      else Tries(c, before, k) + if IsBlock(e) && e.frame.seqno == k then 1 else 0
  }

  /** Blocks written that had been written before. */
  function Rewritten(c: Config, log: seq<Event>): nat
    requires c.Valid() && Run(c, log).Some?
  {
    if log == [] then 0
    else
      var before, e := log[..|log| - 1], log[|log| - 1];
      Rewritten(c, before) + if IsBlock(e) && Tries(c, before, e.frame.seqno) > 0 then 1 else 0
  }

  function ResetsHeard(c: Config, log: seq<Event>): nat
    requires c.Valid() && Run(c, log).Some?
  {
    if log == [] then 0
    else
      var before, e := log[..|log| - 1], log[|log| - 1];
      ResetsHeard(c, before) + if HearsReset(Run(c, before).value, e) then 1 else 0
  }

  /** How often this frame has been written. */
  function Copies(log: seq<Event>, f: Frame): nat {
    if log == [] then 0 else Copies(log[..|log| - 1], f) + if log[|log| - 1] == Tx(f) then 1 else 0
  }

  /** Acknowledgements that moved `base`, since the last timeout, recovery or restart. */
  function CleanAcks(c: Config, log: seq<Event>): nat
    requires c.Valid() && Run(c, log).Some?
  {
    if log == [] then 0
    else
      var before, e := log[..|log| - 1], log[|log| - 1];
      var s, s2 := Run(c, before).value, Run(c, log).value;
      if (s.phase.Wait? && e.Timeout?) || Restarts(s, e) || (Acts(s, e) && StartsRecovery(s2)) then 0
      else CleanAcks(c, before) + if Acts(s, e) && s2.base > s.base then 1 else 0
  }

  predicate StartsRecovery(s: Sender) {
    s.phase.BarrierWrite? && s.phase.i == 0 && s.phase.job.AfterNak?
  }

  // ---- one event -------------------------------------------------------------------------------

  /** How a phase that asks for something is come by: with a token just drawn, by writing the request, by an expired
      wait, or by waiting on. */
  predicate Asks(c: Config, s: Sender, e: Event, s2: Sender) {
    var drawn := s2.lastToken == s.lastToken + 1;
    var kept := s2.lastToken == s.lastToken;
    match s2.phase
    case BarrierWrite(i, t, job) =>
      !e.Tx? && if i == 0 then drawn && t == s2.lastToken
                else kept && s.phase == BarrierRead(i - 1, t, job) && Expires(s, e) && i <= c.maxRetries
    case BarrierRead(i, t, job) =>
      kept && if e.Tx? then e == Tx(Barrier(t)) && s.phase == BarrierWrite(i, t, job) else s.phase == s2.phase
    case ResetWrite(i, t, again) =>
      && !e.Tx?
      && (if i == 0 then
            drawn && t == s2.lastToken
            && (c.probeRetries == 0 || (s.phase.ProbeRead? && s.phase.i == c.probeRetries - 1 && OutOfTime(e)))
          else kept && s.phase == ResetRead(i - 1, t, again) && Expires(s, e) && i < 3)
    case ResetRead(i, t, again) =>
      kept && if e.Tx? then e == Tx(Reset(t)) && s.phase == ResetWrite(i, t, again) else s.phase == s2.phase
    case ProbeWrite(i, again) =>
      !e.Tx? && kept && i < c.probeRetries && (i > 0 ==> s.phase.ProbeRead? && s.phase.i == i - 1 && OutOfTime(e))
    case ProbeRead(i, t, again) =>
      if e.Tx? then drawn && t == s2.lastToken && e == Tx(Ayt(t)) && s.phase == ProbeWrite(i, again)
      else kept && s.phase == s2.phase
    case _ => s.lastToken <= s2.lastToken && (e.Tx? ==> !e.frame.Ayt? && !e.frame.Barrier? && !e.frame.Reset?)
  }

  /** What becomes of the counters, unless the sender gives up. */
  predicate Counts(s: Sender, e: Event, s2: Sender) {
    && (!Restarts(s, e) ==> s.base <= s2.base)
    && s2.recoveries == (if Restarts(s, e) || s2.base > s.base then 0
                         else s.recoveries + if Resumes(s, e) && s.phase.job.AfterNak? then 1 else 0)
    && s2.resets == s.resets + (if HearsReset(s, e) then 1 else 0)
    && s2.clean == (if (s.phase.Wait? && e.Timeout?) || Restarts(s, e) || (Acts(s, e) && StartsRecovery(s2)) then 0
                    else s.clean + if Acts(s, e) && s2.base > s.base then 1 else 0)
  }

  /** And of the attempts. */
  predicate Tallies(s: Sender, e: Event, s2: Sender) {
    if Restarts(s, e) then s2.attempts == map[]
    else if IsBlock(e) then
      e.frame.seqno == s.next && s2.attempts == s.attempts[s.next := Attempts(s, s.next) + 1]
    else s2.attempts == s.attempts || s2.attempts == KeepFrom(s.attempts, s2.base)
  }

  predicate Moved(c: Config, s: Sender, e: Event, s2: Sender) {
    && Asks(c, s, e, s2)
    && (!s2.phase.Abort? ==> Counts(s, e, s2) && Tallies(s, e, s2))
    && s2.retransmits == s.retransmits + (if IsBlock(e) && Attempts(s, e.frame.seqno) > 0 then 1 else 0)
  }

  lemma HandleMoved(c: Config, s: Sender, reply: Reply, late: bool, again: bool, e: Event)
    requires e.Rx? && (Acts(s, e) || HearsReset(s, e)) && (HearsReset(s, e) <==> reply.SelfReset?)
    ensures Moved(c, s, e, Handle(c, s, reply, late, again))
  {
    hide KeepFrom, Attempts;
  }

  lemma WindowMoved(c: Config, s: Sender, e: Event)
    requires c.Valid() && Send(c, s, e).Some? && (s.phase.Wait? || s.phase.Guard? || s.phase.ProbeRead?)
    requires s.phase.ProbeRead? ==> s.phase.i < c.probeRetries
    ensures Moved(c, s, e, Send(c, s, e).value)
  {
    hide Handle, KeepFrom, Attempts;
    if e.Rx? {
      hide Moved;
      match s.phase
      case Wait => HandleMoved(c, s, e.reply, e.late, false, e);
      case Guard(again) =>
        if e.reply == Blank(true) {
          NextProbeMoved(c, s, e, 0, again);
        } else {
          HandleMoved(c, s, e.reply, true, again, e);
        }
      case ProbeRead(i, probe, again) =>
        if e.reply.Here? && e.reply.token == probe {
          HandleMoved(c, s, Drop(e.reply.n), true, again, e);
        } else if IsAck(e.reply) || IsNakOrDrop(e.reply) || IsRst(e.reply) || IsErr(e.reply) {
          HandleMoved(c, s, e.reply, true, again, e);
        } else if e.late {
          NextProbeMoved(c, s, e, i + 1, again);
        } else {
          StaysMoved(c, s, e);
        }
    }
  }

  lemma NextProbeMoved(c: Config, s: Sender, e: Event, i: nat, again: bool)
    requires !e.Tx? && !HearsReset(s, e) && (s.phase.Guard? || s.phase.ProbeRead?)
    requires i > 0 ==> s.phase.ProbeRead? && s.phase.i == i - 1 < c.probeRetries && OutOfTime(e)
    requires i == 0 ==> s.phase.Guard?
    ensures Moved(c, s, e, NextProbe(c, s, i, again))
  {
    hide KeepFrom, Attempts;
  }

  lemma StaysMoved(c: Config, s: Sender, e: Event)
    requires !e.Tx? && !HearsReset(s, e) && s.phase.ProbeRead? && s.phase.i < c.probeRetries
    ensures Moved(c, s, e, s)
  {
    hide KeepFrom, Attempts;
  }

  lemma ResetMoved(c: Config, s: Sender, e: Event)
    requires c.Valid() && Send(c, s, e).Some? && s.phase.ResetRead?
    ensures Moved(c, s, e, Send(c, s, e).value)
  {
    hide Handle, KeepFrom, Attempts;
    if e.Rx? && e.reply == ResetAck(s.phase.reset) {
      hide Moved;
      var s1 := s.(resetToken := Some(s.phase.reset));
      HandleMoved(c, s1, SelfReset, true, s.phase.again, e);
      MovedAnyway(c, s, e, s.phase.reset, Send(c, s, e).value);
    }
  }

  lemma MovedAnyway(c: Config, s: Sender, e: Event, t: nat, s2: Sender)
    requires Moved(c, s.(resetToken := Some(t)), e, s2) && s.phase.ResetRead?
    ensures Moved(c, s, e, s2)
  {
    hide KeepFrom;
  }

  lemma BarrierMoved(c: Config, s: Sender, e: Event)
    requires c.Valid() && Send(c, s, e).Some? && s.phase.BarrierRead?
    ensures Moved(c, s, e, Send(c, s, e).value)
  {
    hide KeepFrom, Attempts;
  }

  lemma OthersMoved(c: Config, s: Sender, e: Event)
    requires c.Valid() && Send(c, s, e).Some?
    requires s.phase.Fill? || s.phase.ProbeWrite? || s.phase.ResetWrite? || s.phase.BarrierWrite? || s.phase.AwaitOk?
    ensures Moved(c, s, e, Send(c, s, e).value)
  {
    hide Crc, HeaderFits, Plain, KeepFrom, Attempts;
  }

  lemma SendMoved(c: Config, s: Sender, e: Event)
    requires c.Valid() && Send(c, s, e).Some?
    requires s.phase.ProbeRead? ==> s.phase.i < c.probeRetries
    ensures Moved(c, s, e, Send(c, s, e).value)
  {
    hide Moved, FillNext, Handle, GuardNext, ProbeNext, ResetNext, BarrierNext, AwaitNext;
    match s.phase
    case Wait => WindowMoved(c, s, e);
    case Guard(_) => WindowMoved(c, s, e);
    case ProbeRead(_, _, _) => WindowMoved(c, s, e);
    case ResetRead(_, _, _) => ResetMoved(c, s, e);
    case BarrierRead(_, _, _) => BarrierMoved(c, s, e);
    case _ => OthersMoved(c, s, e);
  }

  // ---- requests -----------------------------------------------------------------------------------

  ghost predicate Unused(log: seq<Event>, t: nat) {
    Copies(log, Ayt(t)) == 0 && Copies(log, Barrier(t)) == 0 && Copies(log, Reset(t)) == 0
  }

  /** No request is made more often than it may be. */
  ghost predicate Capped(c: Config, log: seq<Event>, t: nat) {
    Copies(log, Ayt(t)) <= 1 && Copies(log, Barrier(t)) <= c.maxRetries + 1 && Copies(log, Reset(t)) <= 3
  }

  /** The `n` tokens up to `last` have each been used for one probe. */
  ghost predicate Probed(log: seq<Event>, last: int, n: nat) {
    n <= last && forall t: nat :: last - n < t <= last ==> Copies(log, Ayt(t)) == 1
  }

  /** Requests under the token last drawn: as many copies as the phase says, and none of a later token. */
  ghost predicate Asked(c: Config, log: seq<Event>, s: Sender) {
    && (forall t: nat :: t > s.lastToken ==> Unused(log, t))
    && (forall t: nat :: Capped(c, log, t))
    && match s.phase
       case BarrierWrite(i, t, _) => t == s.lastToken && Copies(log, Barrier(t)) == i <= c.maxRetries
       case BarrierRead(i, t, _) => t == s.lastToken && Copies(log, Barrier(t)) == i + 1 <= c.maxRetries + 1
       case ResetWrite(i, t, _) =>
         t == s.lastToken && Copies(log, Reset(t)) == i < 3 && Probed(log, s.lastToken - 1, c.probeRetries)
       case ResetRead(i, t, _) =>
         t == s.lastToken && Copies(log, Reset(t)) == i + 1 <= 3 && Probed(log, s.lastToken - 1, c.probeRetries)
       case ProbeWrite(i, _) => i < c.probeRetries && Probed(log, s.lastToken, i)
       case ProbeRead(i, t, _) => t == s.lastToken && i < c.probeRetries && Probed(log, s.lastToken, i + 1)
       case _ => true
  }

  lemma CopiesStep(log: seq<Event>, e: Event, f: Frame)
    ensures Copies(log + [e], f) == Copies(log, f) + if e == Tx(f) then 1 else 0
  {
    assert (log + [e])[..|log|] == log;
  }

  lemma AskedStep(c: Config, log: seq<Event>, s: Sender, e: Event, s2: Sender)
    requires Asked(c, log, s) && Asks(c, s, e, s2)
    ensures Asked(c, log + [e], s2)
  {
    hide Copies;
    forall f
      ensures Copies(log + [e], f) == Copies(log, f) + if e == Tx(f) then 1 else 0
    {
      CopiesStep(log, e, f);
    }
    assert Unused(log, s.lastToken + 1);
    forall t: nat | t > s2.lastToken
      ensures Unused(log + [e], t)
    {
      assert Unused(log, t);
    }
    forall t: nat
      ensures Capped(c, log + [e], t)
    {
      assert Capped(c, log, t);
      assert t > s.lastToken ==> Unused(log, t);
    }
  }

  // ---- every history ----------------------------------------------------------------------------------

  /** The machine's counters are what the history adds up to. */
  ghost predicate Tallied(c: Config, log: seq<Event>)
    requires c.Valid() && Run(c, log).Some?
  {
    var s := Run(c, log).value;
    && Sane(c, s) && Asked(c, log, s) && s.retransmits == Rewritten(c, log)
    && (!s.phase.Abort? ==>
          && s.recoveries == Stalls(c, log) && s.resets == ResetsHeard(c, log) && s.clean == CleanAcks(c, log)
          && forall k: nat :: k >= s.base ==> Attempts(s, k) == Tries(c, log, k))
  }

  lemma OneMore(c: Config, log: seq<Event>, e: Event)
    requires c.Valid() && Run(c, log).Some? && Run(c, log + [e]).Some?
    ensures var s, s2 := Run(c, log).value, Run(c, log + [e]).value;
            && Stalls(c, log + [e]) ==
               (if Restarts(s, e) || s2.base > s.base then 0
                else Stalls(c, log) + if Resumes(s, e) && s.phase.job.AfterNak? then 1 else 0)
            && ResetsHeard(c, log + [e]) == ResetsHeard(c, log) + (if HearsReset(s, e) then 1 else 0)
            && CleanAcks(c, log + [e]) ==
               (if (s.phase.Wait? && e.Timeout?) || Restarts(s, e) || (Acts(s, e) && StartsRecovery(s2)) then 0
                else CleanAcks(c, log) + if Acts(s, e) && s2.base > s.base then 1 else 0)
  {
    hide Run, Resumes, Restarts, HearsReset, Acts, StartsRecovery;
    assert (log + [e])[..|log|] == log;
  }

  lemma OneMoreTry(c: Config, log: seq<Event>, e: Event, k: nat)
    requires c.Valid() && Run(c, log).Some? && Run(c, log + [e]).Some?
    ensures Tries(c, log + [e], k) ==
            if Restarts(Run(c, log).value, e) then 0
            else Tries(c, log, k) + if IsBlock(e) && e.frame.seqno == k then 1 else 0
    ensures Rewritten(c, log + [e]) ==
            Rewritten(c, log) + if IsBlock(e) && Tries(c, log, e.frame.seqno) > 0 then 1 else 0
  {
    hide Run, Restarts;
    assert (log + [e])[..|log|] == log;
  }

  lemma TriesMatch(c: Config, log: seq<Event>, e: Event, k: nat)
    requires c.Valid() && Run(c, log).Some? && Run(c, log + [e]).Some?
    requires var s, s2 := Run(c, log).value, Run(c, log + [e]).value;
             && (!Restarts(s, e) ==> s.base <= s2.base) && Tallies(s, e, s2) && k >= s2.base
             && (k >= s.base ==> Attempts(s, k) == Tries(c, log, k))
    ensures Attempts(Run(c, log + [e]).value, k) == Tries(c, log + [e], k)
  {
    hide Run, Restarts;
    OneMoreTry(c, log, e, k);
  }

  lemma TalliedStep(c: Config, log: seq<Event>, e: Event)
    requires c.Valid() && Run(c, log).Some? && Tallied(c, log) && Send(c, Run(c, log).value, e).Some?
    requires Run(c, log + [e]) == Send(c, Run(c, log).value, e)
    ensures Tallied(c, log + [e])
  {
    var s := Run(c, log).value;
    var s2 := Send(c, s, e).value;
    SendWorks(c, s, e);
    SendMoved(c, s, e);
    NoneAfterAbort(c, s, e);
    if IsBlock(e) {
      BlockIsDue(c, s, e);
      OneMoreTry(c, log, e, s.next);
    } else {
      OneMoreTry(c, log, e, 0);
    }
    AskedStep(c, log, s, e, s2);
    OneMore(c, log, e);
    hide Asked, Asks, Send, HearsReset, Restarts, Resumes, Acts, Run, Stalls, ResetsHeard, CleanAcks, Tries, Rewritten,
      Attempts, Tallies, Works, Sane;
    forall k: nat | !s2.phase.Abort? && k >= s2.base
      ensures Attempts(s2, k) == Tries(c, log + [e], k)
    {
      TriesMatch(c, log, e, k);
    }
  }

  lemma NoneAfterAbort(c: Config, s: Sender, e: Event)
    requires c.Valid() && Send(c, s, e).Some?
    ensures !s.phase.Abort?
  {
  }

  lemma BlockIsDue(c: Config, s: Sender, e: Event)
    requires c.Valid() && Sane(c, s) && Send(c, s, e).Some? && IsBlock(e)
    ensures s.phase.Fill? && s.base <= e.frame.seqno == s.next
  {
    hide Crc, HeaderFits, Plain;
  }
  lemma {:induction false} RunTallied(c: Config, log: seq<Event>)
    requires c.Valid() && Run(c, log).Some?
    ensures Tallied(c, log)
    decreases |log|
  {
    hide Send, Tallied;
    if log == [] {
      NothingTallied(c);
    } else {
      var before, e := log[..|log| - 1], log[|log| - 1];
      assert before + [e] == log;
      RunTallied(c, before);
      TalliedStep(c, before, e);
    }
  }

  lemma NothingTallied(c: Config)
    requires c.Valid()
    ensures Tallied(c, [])
  {
  }

  // ---- giving up -----------------------------------------------------------------------------------------

  /** A block is due and there is room for it. */
  predicate Due(c: Config, s: Sender)
    requires c.Valid()
  {
    s.phase.Fill? && s.base < c.Blocks() && s.next < Min(c.Blocks(), s.base + s.cwnd)
  }

  /** When retries are exhausted: on the answer to a barrier that leaves `base` where it is, for the (max_retries +
      1)th time since `base` last rose or a reset was carried out; or when the block that is due has been written
      max_retries + 1 times since a reset was last carried out. Never sooner, never later, whatever the replies. */
  lemma RetriesExhaustedIff(c: Config, log: seq<Event>, e: Event)
    requires c.Valid() && Run(c, log).Some? && Send(c, Run(c, log).value, e).Some?
    ensures var s := Run(c, log).value;
            Send(c, s, e).value.phase == Abort(RetriesExhausted) <==>
              || (Resumes(s, e) && s.phase.job.AfterNak? && e.reply.n == s.base && Stalls(c, log) == c.maxRetries)
              || (Due(c, s) && Tries(c, log, s.next) == c.maxRetries + 1)
  {
    hide *;
    RunTallied(c, log);
    ExhaustedAt(c, log, e);
  }

  lemma ExhaustedAt(c: Config, log: seq<Event>, e: Event)
    requires c.Valid() && Run(c, log).Some? && Send(c, Run(c, log).value, e).Some? && Tallied(c, log)
    ensures var s := Run(c, log).value;
            Send(c, s, e).value.phase == Abort(RetriesExhausted) <==>
              || (Resumes(s, e) && s.phase.job.AfterNak? && e.reply.n == s.base && Stalls(c, log) == c.maxRetries)
              || (Due(c, s) && Tries(c, log, s.next) == c.maxRetries + 1)
  {
    var s := Run(c, log).value;
    NoneAfterAbort(c, s, e);
    ExhaustedSend(c, s, e);
    assert Attempts(s, s.next) == Tries(c, log, s.next);
    hide Send, Attempts, Asked, Stalls, Tries, Run, Rewritten, CleanAcks, ResetsHeard, Resumes, Due;
  }

  lemma ExhaustedSend(c: Config, s: Sender, e: Event)
    requires c.Valid() && Sane(c, s) && Send(c, s, e).Some?
    ensures Send(c, s, e).value.phase == Abort(RetriesExhausted) <==>
              || (Resumes(s, e) && s.phase.job.AfterNak? && e.reply.n == s.base && s.recoveries == c.maxRetries)
              || (Due(c, s) && Attempts(s, s.next) == c.maxRetries + 1)
  {
    hide Crc, HeaderFits, Plain, KeepFrom;
  }

  /** A run that has ended with its retries exhausted has had them: max_retries + 1 answered recoveries in vain since
      `base` last rose or a reset was carried out, or as many writes of the block that is due since the last reset. */
  ghost predicate Earned(c: Config, log: seq<Event>)
    requires c.Valid() && Run(c, log).Some?
  {
    Stalls(c, log) == c.maxRetries + 1 || Tries(c, log, Run(c, log).value.next) == c.maxRetries + 1
  }

  lemma ExhaustionIsEarned(c: Config, log: seq<Event>)
    requires c.Valid() && Run(c, log).Some? && Run(c, log).value.phase == Abort(RetriesExhausted)
    ensures Earned(c, log)
  {
    hide *;
    if log == [] {
      StartIsNoAbort(c);
    } else {
      var before, e := log[..|log| - 1], log[|log| - 1];
      assert before + [e] == log;
      RunBefore(c, log);
      LastSend(c, before, e);
      RetriesExhaustedIff(c, before, e);
      ExhaustedStands(c, before, e);
    }
  }

  lemma StartIsNoAbort(c: Config)
    requires c.Valid()
    ensures Run(c, []).Some? && !Run(c, []).value.phase.Abort?
  {
  }

  lemma LastSend(c: Config, log: seq<Event>, e: Event)
    requires c.Valid() && Run(c, log + [e]).Some? && Run(c, log).Some?
    ensures Send(c, Run(c, log).value, e) == Run(c, log + [e])
  {
    assert (log + [e])[..|log|] == log;
    hide Send;
  }

  lemma ExhaustedStands(c: Config, log: seq<Event>, e: Event)
    requires c.Valid() && Run(c, log).Some? && Run(c, log + [e]).Some?
    requires Send(c, Run(c, log).value, e) == Run(c, log + [e])
    requires Run(c, log + [e]).value.phase == Abort(RetriesExhausted)
    requires var s := Run(c, log).value;
             || (Resumes(s, e) && s.phase.job.AfterNak? && e.reply.n == s.base && Stalls(c, log) == c.maxRetries)
             || (Due(c, s) && Tries(c, log, s.next) == c.maxRetries + 1)
    ensures Earned(c, log + [e])
  {
    var s := Run(c, log).value;
    ExhaustedStays(c, s, e);
    OneMore(c, log, e);
    OneMoreTry(c, log, e, s.next);
    hide Run, Send, Stalls, Tries, ResetsHeard, CleanAcks, Rewritten;
  }

  lemma ExhaustedStays(c: Config, s: Sender, e: Event)
    requires c.Valid() && Send(c, s, e).Some? && Send(c, s, e).value.phase == Abort(RetriesExhausted)
    ensures Send(c, s, e).value.base == s.base && Send(c, s, e).value.next == s.next
    ensures !Restarts(s, e) && (Due(c, s) ==> !IsBlock(e))
  {
    hide Crc, HeaderFits, Plain, KeepFrom, Attempts;
  }

  /** The other limits. The link is given up when the third reset request under one token has had its time, after
      `probe_retries` probes, each under its own token, had theirs; recovery, when the (max_retries + 1)th copy of one
      barrier has had its time; the file, at the third reset; and the confirmation, when its time is over. Until then an
      expired wait is followed by the same request again. */
  lemma LimitsAreKept(c: Config, log: seq<Event>, e: Event)
    requires c.Valid() && Run(c, log).Some? && Send(c, Run(c, log).value, e).Some?
    ensures var s := Run(c, log).value;
            var phase := Send(c, s, e).value.phase;
            && (phase == Abort(LinkLost) <==>
                  s.phase.ResetRead? && Expires(s, e) && Copies(log, Reset(s.phase.reset)) == 3)
            && (phase == Abort(BarrierTimeout) <==>
                  s.phase.BarrierRead? && Expires(s, e) && Copies(log, Barrier(s.phase.barrier)) == c.maxRetries + 1)
            && (phase == Abort(ResetsExhausted) <==> HearsReset(s, e) && ResetsHeard(c, log) == 2)
            && (phase == Abort(LinkLost) ==> Probed(log, s.phase.reset - 1, c.probeRetries))
    ensures forall t: nat :: Capped(c, log, t)
  {
    hide *;
    RunTallied(c, log);
    LimitsAt(c, log, e);
  }

  lemma LimitsAt(c: Config, log: seq<Event>, e: Event)
    requires c.Valid() && Run(c, log).Some? && Send(c, Run(c, log).value, e).Some? && Tallied(c, log)
    ensures var s := Run(c, log).value;
            var phase := Send(c, s, e).value.phase;
            && (phase == Abort(LinkLost) <==>
                  s.phase.ResetRead? && Expires(s, e) && Copies(log, Reset(s.phase.reset)) == 3)
            && (phase == Abort(BarrierTimeout) <==>
                  s.phase.BarrierRead? && Expires(s, e) && Copies(log, Barrier(s.phase.barrier)) == c.maxRetries + 1)
            && (phase == Abort(ResetsExhausted) <==> HearsReset(s, e) && ResetsHeard(c, log) == 2)
            && (phase == Abort(LinkLost) ==> Probed(log, s.phase.reset - 1, c.probeRetries))
    ensures forall t: nat :: Capped(c, log, t)
  {
    hide Crc, HeaderFits, Plain, KeepFrom, Attempts, Stalls, Tries, Run, Rewritten, CleanAcks, ResetsHeard, Copies;
    var s := Run(c, log).value;
    NoneAfterAbort(c, s, e);
  }

  /** What the sender refuses at once, whatever else has happened: an acknowledgement of a block not sent; after the
      deadline, one that acknowledges nothing new; an answer to a barrier from outside the range, or after a reset from
      another place than zero; and the end of the time for the confirmation. */
  lemma RefusedIff(c: Config, s: Sender, e: Event)
    requires c.Valid() && Send(c, s, e).Some?
    ensures var phase := Send(c, s, e).value.phase;
            && (phase == Abort(UnsentAck) <==> Acts(s, e) && e.reply.Ack? && e.reply.n >= s.next)
            && (phase == Abort(OnlyDuplicateAcks) <==>
                  Acts(s, e) && e.reply.Ack? && e.reply.n < s.base && e.reply.n < s.next && (s.phase.Wait? ==> e.late))
            && (phase == Abort(BadRecoverySequence) <==>
                  s.phase.BarrierRead? && e.Rx? && !Resumes(s, e)
                  && (e.reply.Resume? || e.reply.ResumeUnreadable?) && e.reply.token == s.phase.barrier)
            && (phase == Abort(NotZero) <==> Resumes(s, e) && s.phase.job.AfterReset? && e.reply.n != 0)
            && (phase == Abort(NoConfirmation) <==>
                  s.phase.AwaitOk? && OutOfTime(e)
                  && (e.Rx? ==> (e.reply.Ack? && e.reply.n < c.Blocks()) || OldResume(s, e.reply)))
  {
    match s.phase {
      case Wait =>
        if e.Rx? {
          HandleRefuses(c, s, e.reply, e.late, false);
        }
      case Guard(again) =>
        if e.Rx? {
          HandleRefuses(c, s, e.reply, true, again);
        }
      case ProbeRead(_, _, again) =>
        if e.Rx? {
          HandleRefuses(c, s, e.reply, true, again);
          if e.reply.Here? {
            HandleRefuses(c, s, Drop(e.reply.n), true, again);
          }
        }
      case ResetRead(_, t, again) => HandleRefuses(c, s.(resetToken := Some(t)), SelfReset, true, again);
      case _ =>
    }
    hide Crc, HeaderFits, Plain, KeepFrom, Attempts, Handle;
  }

  lemma HandleRefuses(c: Config, s: Sender, y: Reply, late: bool, again: bool)
    ensures var phase := Handle(c, s, y, late, again).phase;
            && (phase == Abort(UnsentAck) <==> y.Ack? && y.n >= s.next)
            && (phase == Abort(OnlyDuplicateAcks) <==> y.Ack? && y.n < s.base && y.n < s.next && late)
            && (phase.Abort? ==>
                  phase.why != BadRecoverySequence && phase.why != NotZero && phase.why != NoConfirmation)
            && !phase.Complete? && !phase.AwaitOk?
  {
    hide KeepFrom;
  }

  /** A reply that the waiting loop of the window cannot use where it meets it. */
  predicate Unusable(s: Sender, e: Event) {
    && Acts(s, e) && !e.reply.Ack? && !e.reply.SelfReset? && !e.reply.Blank? && !IsNakOrDrop(e.reply)
    && match s.phase
       case Wait => !IsHere(e.reply) && (OldResume(s, e.reply) ==> e.late)
       case Guard(again) => IsHere(e.reply) ==> again
       case _ => IsAck(e.reply) || IsRst(e.reply) || IsErr(e.reply)
  }

  /** A reply that shows where the receiver waits, or that something is wrong there. */
  predicate CallsForRecovery(s: Sender, e: Event) {
    && Acts(s, e)
    && (|| IsNakOrDrop(e.reply)
        || (e.reply.Blank? && (s.phase.Wait? || (s.phase.Guard? && !e.reply.empty)))
        || (s.phase.ProbeRead? && e.reply.Here? && e.reply.token == s.phase.probe))
  }

  lemma HandleJudges(c: Config, s: Sender, y: Reply, late: bool, again: bool)
    ensures var s2 := Handle(c, s, y, late, again);
            && (s2.phase == Abort(UnexpectedReply) <==>
                  && !y.Ack? && !y.SelfReset? && !y.Blank? && !IsNakOrDrop(y)
                  && (IsHere(y) ==> again) && (OldResume(s, y) ==> late))
            && (StartsRecovery(s2) <==> y.Blank? || IsNakOrDrop(y))
            && (s2.phase.Abort? ==> s2.phase.why != UnexpectedResetReply && s2.phase.why != UnexpectedRecoveryReply)
  {
    hide KeepFrom;
  }

  /** What any reply leads to: an abort over an unexpected one exactly if it is of no use where it is met, and a
      recovery exactly if it calls for one. */
  lemma JudgedIff(c: Config, s: Sender, e: Event)
    requires c.Valid() && Send(c, s, e).Some?
    ensures var phase := Send(c, s, e).value.phase;
            && (phase == Abort(UnexpectedReply) <==> Unusable(s, e))
            && (phase == Abort(UnexpectedResetReply) <==>
                  s.phase.ResetRead? && e.Rx? && e.reply != ResetAck(s.phase.reset) && !PassedOver(s, e.reply))
            && (phase == Abort(UnexpectedRecoveryReply) <==>
                  s.phase.BarrierRead? && e.Rx? && !PassedOver(s, e.reply)
                  && !((e.reply.Resume? || e.reply.ResumeUnreadable?) && e.reply.token == s.phase.barrier))
    ensures StartsRecovery(Send(c, s, e).value) <==> CallsForRecovery(s, e)
  {
    match s.phase {
      case Wait =>
        if e.Rx? {
          HandleJudges(c, s, e.reply, e.late, false);
        }
      case Guard(again) =>
        if e.Rx? {
          HandleJudges(c, s, e.reply, true, again);
        }
      case ProbeRead(_, _, again) =>
        if e.Rx? {
          HandleJudges(c, s, e.reply, true, again);
          if e.reply.Here? {
            HandleJudges(c, s, Drop(e.reply.n), true, again);
          }
        }
      case ResetRead(_, t, again) => HandleJudges(c, s.(resetToken := Some(t)), SelfReset, true, again);
      case _ =>
    }
    hide Crc, HeaderFits, Plain, KeepFrom, Attempts, Handle;
  }

  /** A request is made again only when the wait for its answer has just expired. */
  lemma RepeatsAreEarned(c: Config, log: seq<Event>, f: Frame)
    requires c.Valid() && Run(c, log).Some? && Send(c, Run(c, log).value, Tx(f)).Some?
    requires (f.Barrier? || f.Reset?) && Copies(log, f) >= 1
    ensures log != [] && OutOfTime(log[|log| - 1])
  {
    hide *;
    RunTallied(c, log);
    var s := Run(c, log).value;
    assert Asked(c, log, s) by {
      TalliedAsked(c, log);
    }
    RequestPhase(c, s, f);
    if log == [] {
      NoCopies(f);
    } else {
      var before, e := log[..|log| - 1], log[|log| - 1];
      RunBefore(c, log);
      RunTallied(c, before);
      LastAsks(c, before, e, log);
      EarnedAt(c, log, Run(c, before).value, e, s, f);
    }
  }

  lemma TalliedAsked(c: Config, log: seq<Event>)
    requires c.Valid() && Run(c, log).Some? && Tallied(c, log)
    ensures Asked(c, log, Run(c, log).value)
  {
  }

  lemma NoCopies(f: Frame)
    ensures Copies([], f) == 0
  {
  }

  lemma RunBefore(c: Config, log: seq<Event>)
    requires c.Valid() && Run(c, log).Some? && log != []
    ensures Run(c, log[..|log| - 1]).Some?
  {
  }

  lemma EarnedAt(c: Config, log: seq<Event>, s: Sender, e: Event, s2: Sender, f: Frame)
    requires Asked(c, log, s2) && Asks(c, s, e, s2) && Copies(log, f) >= 1
    requires (s2.phase.BarrierWrite? && f == Barrier(s2.phase.barrier))
             || (s2.phase.ResetWrite? && f == Reset(s2.phase.reset))
    ensures OutOfTime(e)
  {
    hide Copies, PassedOver;
  }

  lemma RequestPhase(c: Config, s: Sender, f: Frame)
    requires c.Valid() && Send(c, s, Tx(f)).Some? && (f.Barrier? || f.Reset?)
    ensures (s.phase.BarrierWrite? && f == Barrier(s.phase.barrier))
            || (s.phase.ResetWrite? && f == Reset(s.phase.reset))
  {
    hide HeaderFits, Plain, Crc;
  }

  lemma LastAsks(c: Config, before: seq<Event>, e: Event, log: seq<Event>)
    requires c.Valid() && log == before + [e] && Run(c, log).Some? && Run(c, before).Some? && Tallied(c, before)
    ensures Asks(c, Run(c, before).value, e, Run(c, log).value)
  {
    assert log[..|before|] == before && log[|before|] == e;
    SendMoved(c, Run(c, before).value, e);
    hide Send, Asks, Counts, Tallies;
  }

  /** The congestion window is the negotiated one exactly while eight or more acknowledgements have moved `base` since
      the last timeout, recovery or restart; otherwise it is one. And what is reported as retransmitted are the blocks
      that had been written before. */
  lemma WindowFollowsAcks(c: Config, log: seq<Event>)
    requires c.Valid() && Run(c, log).Some?
    ensures var s := Run(c, log).value;
            && (!s.phase.Abort? ==> s.cwnd == if CleanAcks(c, log) >= 8 then c.window else 1)
            && s.retransmits == Rewritten(c, log)
  {
    RunTallied(c, log);
    WindowGrowsAfterCleanAcks(c, log);
    hide Run, CleanAcks, Rewritten, Asked;
  }
}
