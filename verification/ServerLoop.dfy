/**
  The sender of src/pcutp/server.py as it runs: nested loops over a line that brings any replies at any times. Every
  read and write it makes is a step of the sender machine of module Transfer, which this class follows in ghost state.
*/
module ServerLoop {
  import opened Basics
  import opened Crc32
  import opened Lz4Format
  import opened Transfer
  import opened TransferWork
  import Lz4Codec
  import TransferPatience
  import TransferSafety

  /** What one read meets: a line after some ticks, or nothing until some ticks past the deadline. */
  datatype Arrival = Line(reply: Reply, gap: nat) | Silence(gap: nat)

  datatype Answer<+T> = Got(value: T) | Lost(why: Reason)

  datatype Verdict = KeepWaiting | Progress | Raise(why: Reason)

  function Heard(line: Option<Reply>, late: bool): Event {
    if line.Some? then Rx(line.value, late) else Timeout
  }

  /** Every frame carries the block it is kept for. */
  ghost predicate AllCarry(c: Config, frames: map<nat, Frame>)
    requires c.Valid()
  {
    forall k :: k in frames ==> Carries(c, frames[k]) && frames[k].seqno == k
  }

  /** `{seq: frame for seq, frame in frames.items() if seq >= base}` */
  function KeepFrames(ghost c: Config, frames: map<nat, Frame>, base: nat): (kept: map<nat, Frame>)
    ensures c.Valid() && AllCarry(c, frames) ==> AllCarry(c, kept)
  {
    map k | k in frames && k >= base :: frames[k]
  }

  /** What `Handle` makes of an acknowledgement that moves the window. */
  ghost function Acknowledged(c: Config, s: Sender, n: nat): Sender {
    s.(base := n + 1, clean := s.clean + 1, cwnd := if s.clean + 1 >= FLOW_GROW_ACKS then c.window else s.cwnd,
       attempts := KeepFrom(s.attempts, n + 1), recoveries := 0, phase := Fill)
  }

  predicate Listens(s: Sender) {
    s.phase.Wait? || s.phase.Guard? || s.phase.ProbeRead? || s.phase.ResetRead? || s.phase.BarrierRead?
    || s.phase.AwaitOk?
  }

  lemma RunStep(c: Config, log: seq<Event>, e: Event)
    requires c.Valid() && Run(c, log).Some?
    ensures Run(c, log + [e]) == Send(c, Run(c, log).value, e)
    ensures WireBytes(log + [e]) == WireBytes(log) + if IsBlock(e) then WireSize(e.frame) else 0
  {
    assert (log + [e])[..|log|] == log;
    hide Send, WireSize;
  }

  /** How long the sender waits: for an acknowledgement, in the guard time, and for the answer to a probe. */
  datatype Limits = Limits(ack: nat, guard: nat, probe: nat)

  function Patience(l: Limits, phase: Phase): nat {
    match phase
    case Guard(_) => l.guard
    case ProbeRead(_, _, _) => l.probe
    case ResetRead(_, _, _) => l.probe
    case _ => l.ack
  }

  /** A wait begins with a line written, with the window full, or with the guard time. */
  predicate BeginsWait(e: Event, s2: Sender) {
    e.Tx? || e.Tau? || s2.phase.Guard?
  }

  /** When the wait in which this history ends began. */
  function Began(c: Config, log: seq<Event>, times: seq<nat>): nat
    requires c.Valid() && Run(c, log).Some? && |times| == |log|
  {
    if log == [] then 0
    else
      var n := |log| - 1;
      if BeginsWait(log[n], Run(c, log).value) then times[n] else Began(c, log[..n], times[..n])
  }

  /** Every read is called timed out or late exactly when the time of its wait is over. */
  ghost predicate Punctual(c: Config, l: Limits, log: seq<Event>, times: seq<nat>)
    requires c.Valid() && Run(c, log).Some?
  {
    && |times| == |log|
    && (log == []
        || var n := |log| - 1;
           && Punctual(c, l, log[..n], times[..n])
           && (log[n].Timeout? || log[n].Rx? ==>
                 (TransferPatience.OutOfTime(log[n]) <==>
                    times[n] >= Began(c, log[..n], times[..n]) + Patience(l, Run(c, log[..n]).value.phase))))
  }

  /** The lines read, in order. */
  function LinesHeard(log: seq<Event>): seq<Reply> {
    if log == [] then []
    else
      var e := log[|log| - 1];
      LinesHeard(log[..|log| - 1]) + if e.Rx? then [e.reply] else []
  }

  /** The lines among these arrivals. */
  function LinesIn(incoming: nat -> Arrival, from: nat, till: nat): seq<Reply>
    decreases till
  {
    if from >= till then []
    else LinesIn(incoming, from, till - 1) + if incoming(till - 1).Line? then [incoming(till - 1).reply] else []
  }

  lemma OneMoreTime(c: Config, l: Limits, log: seq<Event>, times: seq<nat>, e: Event, now: nat)
    requires c.Valid() && Run(c, log).Some? && Run(c, log + [e]).Some? && Punctual(c, l, log, times)
    requires e.Timeout? || e.Rx? ==>
               (TransferPatience.OutOfTime(e) <==> now >= Began(c, log, times) + Patience(l, Run(c, log).value.phase))
    ensures Punctual(c, l, log + [e], times + [now])
    ensures Began(c, log + [e], times + [now]) ==
            if BeginsWait(e, Run(c, log + [e]).value) then now else Began(c, log, times)
    ensures LinesHeard(log + [e]) == LinesHeard(log) + if e.Rx? then [e.reply] else []
  {
    assert (log + [e])[..|log|] == log && (times + [now])[..|log|] == times;
    hide Run;
  }

  class Server {
    // Settings of the session.
    const blockSize: nat
    const windowSize: nat
    const maxRetries: nat
    const probeRetries: nat
    const useCompression: bool
    const ackTimeout: nat
    const probeGuard: nat
    const probeTimeout: nat
    const baud: nat

    // The line: what it will bring, how much of that has been read, and the clock.
    const incoming: nat -> Arrival
    var position: nat
    var now: nat

    // Fields of the source's class.
    var barrierId: nat
    var resetToken: Option<nat>
    var compressedBlocks: nat
    var dataWireBytes: nat

    // Local variables of `_send_window`.
    var base: nat
    var next: nat
    var cwnd: nat
    var clean: nat
    var attempts: map<nat, nat>
    var frames: map<nat, Frame>
    var recoveries: nat
    var resets: nat
    var retransmits: nat

    // The transfer in hand, the machine followed, and the events so far.
    ghost var cfg: Config
    ghost var abs: Sender
    ghost var log: seq<Event>

    // When each of them happened, and where reading began.
    ghost var times: seq<nat>
    ghost var origin: nat

    constructor (blockSize: nat, windowSize: nat, maxRetries: nat, probeRetries: nat, useCompression: bool,
                 ackTimeout: nat, probeGuard: nat, probeTimeout: nat, baud: nat, incoming: nat -> Arrival)
      ensures this.blockSize == blockSize && this.windowSize == windowSize && this.maxRetries == maxRetries
      ensures this.probeRetries == probeRetries && this.useCompression == useCompression && this.baud == baud
      ensures this.ackTimeout == ackTimeout && this.probeGuard == probeGuard && this.probeTimeout == probeTimeout
      ensures this.incoming == incoming && barrierId == 0 && resetToken == None
    {
      this.blockSize, this.windowSize, this.maxRetries := blockSize, windowSize, maxRetries;
      this.probeRetries, this.useCompression, this.baud := probeRetries, useCompression, baud;
      this.ackTimeout, this.probeGuard, this.probeTimeout := ackTimeout, probeGuard, probeTimeout;
      this.incoming, position, now := incoming, 0, 0;
      barrierId, resetToken, compressedBlocks, dataWireBytes := 0, None, 0, 0;
    }

    /** The history is one the sender machine can make, with what came in and when the waits were over. */
    ghost predicate Tracks()
      reads this`cfg, this`abs, this`log, this`dataWireBytes, this`times, this`origin, this`position
    {
      TracksTo(position)
    }

    ghost predicate TracksTo(read: nat)
      reads this`cfg, this`abs, this`log, this`dataWireBytes, this`times, this`origin
    {
      && cfg.Valid() && baud > 0
      && cfg.blockSize == blockSize && cfg.window == windowSize && cfg.maxRetries == maxRetries
      && cfg.probeRetries == probeRetries && cfg.compression == useCompression
      && Run(cfg, log) == Some(abs) && dataWireBytes == WireBytes(log)
      && |times| == |log| && Punctual(cfg, Times(), log, times)
      && origin <= read && LinesHeard(log) == LinesIn(incoming, origin, read)
    }

    function Times(): Limits {
      Limits(ackTimeout, probeGuard, probeTimeout)
    }

    ghost function WaitBegan(): nat
      reads this`cfg, this`log, this`times
    {
      if cfg.Valid() && Run(cfg, log).Some? && |times| == |log| then Began(cfg, log, times) else 0
    }

    /** The time of the wait in hand is over at `deadline`. */
    ghost predicate EndsAt(deadline: nat)
      reads this`cfg, this`log, this`times, this`abs
    {
      deadline == WaitBegan() + Patience(Times(), abs.phase)
    }

    /** The last event has just happened. */
    ghost predicate JustNow()
      reads this`times, this`now
    {
      times != [] && times[|times| - 1] == now
    }

    ghost predicate Tokens()
      reads this`abs, this`barrierId, this`resetToken
    {
      abs.lastToken == barrierId && abs.resetToken == resetToken
    }

    /** The machine's state as this object's variables give it. */
    ghost function Local(phase: Phase): Sender
      reads this
    {
      Sender(base, next, cwnd, clean, attempts, recoveries, resets, retransmits, barrierId, resetToken, phase)
    }

    /** What acting on one reply leads to, and what it brings closer. */
    ghost predicate Outcome(data: bytes, blocks: nat, verdict: Verdict, oldResets: nat, oldBase: nat,
                            oldRecoveries: nat, late: bool)
      reads this
    {
      match verdict
      case KeepWaiting =>
        InRange(data, blocks) && Cached() && abs == Local(Wait) && !late && base < blocks
        && resets == oldResets && base == oldBase && recoveries == oldRecoveries
      case Progress =>
        && InRange(data, blocks) && Cached() && abs == Local(Fill)
        && (|| resets == oldResets + 1
            || (resets == oldResets && base > oldBase)
            || (resets == oldResets && base == oldBase && recoveries == oldRecoveries + 1))
      case Raise(why) => abs.phase == Abort(why)
    }

    // ---- the line ---------------------------------------------------------------

    ghost method Advance(e: Event)
      requires Tracks() && Send(cfg, abs, e).Some? && !IsBlock(e) && !e.Rx?
      requires e.Timeout? ==> now >= WaitBegan() + Patience(Times(), abs.phase)
      modifies this`abs, this`log, this`times
      ensures Tracks() && abs == Send(cfg, old(abs), e).value && log == old(log) + [e]
      ensures WaitBegan() == (if BeginsWait(e, abs) then now else old(WaitBegan())) && JustNow()
    {
      hide Send, Punctual, Began, Patience;
      RunStep(cfg, log, e);
      OneMoreTime(cfg, Times(), log, times, e, now);
      abs := Send(cfg, abs, e).value;
      log, times := log + [e], times + [now];
    }

    method Write(f: Frame)
      requires Tracks() && Send(cfg, abs, Tx(f)).Some? && !f.Data?
      modifies this`now, this`abs, this`log, this`times
      ensures Tracks() && abs == Send(cfg, old(abs), Tx(f)).value && log == old(log) + [Tx(f)] && now > old(now)
      ensures WaitBegan() == now && JustNow()
    {
      hide Send;
      now := now + 1;
      Advance(Tx(f));
    }

    method RecvLine(deadline: nat) returns (line: Option<Reply>)
      requires Tracks() && Listens(abs) && EndsAt(deadline)
      modifies this`position, this`now, this`abs, this`log, this`times
      ensures now > old(now) && position == old(position) + 1 && (line.None? ==> now >= deadline)
      ensures line == match incoming(old(position)) case Line(y, _) => Some(y) case Silence(_) => None
      ensures Tracks() && log == old(log) + [Heard(line, now >= deadline)]
      ensures Send(cfg, old(abs), Heard(line, now >= deadline)) == Some(abs)
      ensures WaitBegan() == (if abs.phase.Guard? then now else old(WaitBegan())) && JustNow()
    {
      hide TracksTo, Send, Patience, Began, BeginsWait;
      match incoming(position) {
        case Line(y, gap) =>
          line := Some(y);
          now := now + 1 + gap;
        case Silence(gap) =>
          line := None;
          now := Max(now, deadline) + 1 + gap;
      }
      Hear(line, now >= deadline, deadline);
      position := position + 1;
    }

    /** What a read has brought is taken down. */
    ghost method Hear(line: Option<Reply>, late: bool, deadline: nat)
      requires Tracks() && Listens(abs) && EndsAt(deadline) && (late <==> now >= deadline) && (line.None? ==> late)
      requires line == match incoming(position) case Line(y, _) => Some(y) case Silence(_) => None
      modifies this`abs, this`log, this`times
      ensures log == old(log) + [Heard(line, late)]
      ensures TracksTo(position + 1) && Send(cfg, old(abs), Heard(line, late)) == Some(abs)
      ensures WaitBegan() == (if abs.phase.Guard? then now else old(WaitBegan())) && JustNow()
    {
      ghost var e := Heard(line, late);
      assert Send(cfg, abs, e).Some? by {
        ListenerHears(cfg, abs, e);
      }
      hide Send, Punctual, Began, Patience, LinesHeard;
      RunStep(cfg, log, e);
      OneMoreTime(cfg, Times(), log, times, e, now);
      abs := Send(cfg, abs, e).value;
      log, times := log + [e], times + [now];
    }

    // ---- _probe_receiver ------------------------------------------------------------

    /** Reads until the answer to this probe, another reply that settles the matter, or the end of the wait. */
    method AwaitHere(ghost i: nat, probe: nat, ghost again: bool) returns (answer: Option<Reply>)
      requires Tracks() && abs.phase == ProbeRead(i, probe, again) && WaitBegan() == now
      modifies this`position, this`now, this`abs, this`log, this`times
      ensures Tracks() && now >= old(now) && JustNow()
      ensures answer.Some? ==> abs == Handle(cfg, old(abs), answer.value, true, again)
      ensures answer.None? ==> abs == NextProbe(cfg, old(abs), i + 1, again)
    {
      hide Handle, NextProbe, Run, Punctual, LinesHeard, LinesIn, Began;
      var deadline := now + probeTimeout;
      ghost var settled := false;
      while now < deadline
        invariant Tracks()
        invariant now >= old(now)
        invariant if settled then abs == NextProbe(cfg, old(abs), i + 1, again) && now >= deadline && JustNow()
                  else abs == old(abs) && EndsAt(deadline)
        decreases deadline - now
      {
        var line := RecvLine(deadline);
        if line.None? {
          settled := true;
          break;
        }
        var y := line.value;
        if y.Here? && y.token == probe {
          return Some(Drop(y.n));
        }
        if IsAck(y) || IsNakOrDrop(y) || IsRst(y) || IsErr(y) {
          return Some(y);
        }
        settled := now >= deadline;
      }
      if !settled {
        Advance(Timeout);
      }
      return None;
    }

    /** One probe under a fresh token. */
    method Ask(ghost i: nat, ghost again: bool) returns (answer: Option<Reply>)
      requires Tracks() && abs.phase == ProbeWrite(i, again) && abs.lastToken == barrierId
      modifies this`position, this`now, this`barrierId, this`abs, this`log, this`times
      ensures Tracks() && now >= old(now) && barrierId == old(barrierId) + 1 && JustNow()
      ensures answer.Some? ==> abs == Handle(cfg, old(abs).(lastToken := barrierId), answer.value, true, again)
      ensures answer.None? ==> abs == NextProbe(cfg, old(abs).(lastToken := barrierId), i + 1, again)
    {
      hide Handle, NextProbe, Run, Punctual, LinesHeard, LinesIn, Began;
      barrierId := barrierId + 1;
      Write(Ayt(barrierId));
      ghost var asked := abs;
      answer := AwaitHere(i, barrierId, again);
      ProbeForgetsPhase(cfg, old(abs).(lastToken := barrierId), asked.phase, i + 1, again);
      if answer.Some? {
        HandleForgetsPhase(cfg, old(abs).(lastToken := barrierId), asked.phase, answer.value, again);
      }
    }

    /** Reads until this reset is confirmed, a reply forbids it, or the wait ends. */
    method AwaitResetAck(ghost i: nat, token: nat, ghost again: bool) returns (answer: Option<Answer<Reply>>)
      requires Tracks() && abs.phase == ResetRead(i, token, again) && WaitBegan() == now
      modifies this`position, this`now, this`resetToken, this`abs, this`log, this`times
      ensures Tracks() && now >= old(now) && JustNow()
      ensures match answer
              case Some(Got(y)) =>
                && y == SelfReset && resetToken == Some(token)
                && abs == Handle(cfg, old(abs).(resetToken := Some(token)), SelfReset, true, again)
              case Some(Lost(why)) => abs.phase == Abort(why) && resetToken == old(resetToken)
              case None => abs == RetryReset(old(abs), i, token, again) && resetToken == old(resetToken)
    {
      hide Handle, RetryReset, Run, Punctual, LinesHeard, LinesIn, Began;
      var deadline := now + probeTimeout;
      ghost var settled := false;
      while now < deadline
        invariant Tracks() && resetToken == old(resetToken)
        invariant now >= old(now)
        invariant if settled then abs == RetryReset(old(abs), i, token, again) && now >= deadline && JustNow()
                  else abs == old(abs) && EndsAt(deadline)
        decreases deadline - now
      {
        var line := RecvLine(deadline);
        if line.None? {
          settled := true;
          break;
        }
        var y := line.value;
        if y == ResetAck(token) {
          resetToken := Some(token);
          return Some(Got(SelfReset));
        }
        if !(IsAck(y) || IsNakOrDrop(y) || IsHere(y) || IsResume(y)) {
          return Some(Lost(UnexpectedResetReply));
        }
        settled := now >= deadline;
      }
      if !settled {
        Advance(Timeout);
      }
      return None;
    }

    /** Asks for a reset until it is confirmed. */
    method RequestReset(ghost again: bool) returns (answer: Answer<Reply>)
      requires Tracks() && abs.phase == ResetWrite(0, barrierId + 1, again) && abs.lastToken == barrierId + 1
      requires abs.resetToken == resetToken
      modifies this`position, this`now, this`barrierId, this`resetToken, this`abs, this`log, this`times
      ensures Tracks() && now >= old(now) && barrierId == old(barrierId) + 1
      ensures answer.Got? ==> JustNow()
      ensures answer.Got? ==>
                && answer.value == SelfReset && resetToken == Some(barrierId)
                && abs == Handle(cfg, old(abs).(resetToken := resetToken), SelfReset, true, again)
      ensures answer.Lost? ==> abs.phase == Abort(answer.why)
    {
      hide Handle, Run, Punctual, LinesHeard, LinesIn, Began;
      barrierId := barrierId + 1;
      var token := barrierId;
      var i := 0;
      while i < RST_RETRIES
        invariant Tracks() && now >= old(now) && 0 <= i <= RST_RETRIES && token == barrierId == old(barrierId) + 1
        invariant if i < RST_RETRIES then abs == old(abs).(phase := ResetWrite(i, token, again))
                  else abs == Stop(old(abs), LinkLost)
      {
        Write(Reset(token));
        ghost var asked := abs;
        var outcome := AwaitResetAck(i, token, again);
        if outcome.Some? {
          HandleForgetsPhase(cfg, old(abs).(resetToken := resetToken), asked.phase, SelfReset, again);
          return outcome.value;
        }
        i := i + 1;
      }
      return Lost(LinkLost);
    }

    /** Brings back the reply that the window should act on. */
    method ProbeReceiver(ghost again: bool) returns (answer: Answer<Reply>)
      requires Tracks() && Tokens() && abs.phase == Guard(again) && WaitBegan() == now
      modifies this`position, this`now, this`barrierId, this`resetToken, this`abs, this`log, this`times
      ensures Tracks() && now >= old(now) && (answer.Got? ==> JustNow())
      ensures answer.Got? ==>
                abs == Handle(cfg, old(abs).(lastToken := barrierId, resetToken := resetToken), answer.value, true,
                              again)
      ensures answer.Lost? ==> abs.phase == Abort(answer.why)
    {
      hide Handle, Run, Punctual, LinesHeard, LinesIn, Began;
      var late := RecvLine(now + probeGuard);
      if late.Some? && late.value != Blank(true) {
        return Got(late.value);
      }
      var i := 0;
      while i < probeRetries
        invariant Tracks() && now >= old(now) && i <= probeRetries && resetToken == old(resetToken)
        invariant abs == NextProbe(cfg, old(abs).(lastToken := barrierId), i, again)
      {
        var reply := Ask(i, again);
        if reply.Some? {
          HandleForgetsPhase(cfg, old(abs).(lastToken := barrierId), ProbeWrite(i, again), reply.value, again);
          return Got(reply.value);
        }
        ProbeForgetsPhase(cfg, old(abs).(lastToken := barrierId), ProbeWrite(i, again), i + 1, again);
        i := i + 1;
      }
      answer := RequestReset(again);
      HandleForgetsPhase(cfg, old(abs).(lastToken := barrierId, resetToken := resetToken),
                         ResetWrite(0, barrierId, again), SelfReset, again);
    }

    // ---- _recover_window ------------------------------------------------------------

    /** Reads until this barrier is answered, a reply forbids recovery, or the wait ends. */
    method AwaitResume(ghost i: nat, token: nat, from: nat, sent: nat, ghost job: Job)
      returns (answer: Option<Answer<nat>>)
      requires Tracks() && abs.phase == BarrierRead(i, token, job) && abs.resetToken == resetToken && WaitBegan() == now
      requires sent == abs.next && from == if job.AfterReset? then 0 else abs.base
      modifies this`position, this`now, this`abs, this`log, this`times
      ensures Tracks()
      ensures match answer
              case Some(Got(n)) => from <= n <= sent && abs == Recovered(cfg, old(abs), job, n)
              case Some(Lost(why)) => abs.phase == Abort(why)
              case None => abs == RetryBarrier(cfg, old(abs), i, token, job)
    {
      hide Handle, RetryBarrier, Recovered, Run, Punctual, LinesHeard, LinesIn, Began;
      var deadline := now + ackTimeout;
      ghost var settled := false;
      while now < deadline
        invariant Tracks()
        invariant if settled then abs == RetryBarrier(cfg, old(abs), i, token, job) && now >= deadline
                  else abs == old(abs) && EndsAt(deadline)
        decreases deadline - now
      {
        var line := RecvLine(deadline);
        if line.None? {
          settled := true;
          break;
        }
        var y := line.value;
        if (y.Resume? || y.ResumeUnreadable?) && y.token == token {
          if y.ResumeUnreadable? || !(from <= y.n <= sent) {
            return Some(Lost(BadRecoverySequence));
          }
          return Some(Got(y.n));
        }
        if !((y.ResetAck? && resetToken == Some(y.token))
             || IsAck(y) || IsNakOrDrop(y) || IsResume(y) || IsHere(y)) {
          return Some(Lost(UnexpectedRecoveryReply));
        }
        settled := now >= deadline;
      }
      if !settled {
        Advance(Timeout);
      }
      return None;
    }

    /** Sends the barrier until its answer comes back with a position between `from` and `sent`. */
    method RecoverWindow(from: nat, sent: nat, ghost job: Job) returns (answer: Answer<nat>)
      requires Tracks() && abs.phase == BarrierWrite(0, barrierId + 1, job) && abs.lastToken == barrierId + 1
      requires abs.resetToken == resetToken && sent == abs.next && from == if job.AfterReset? then 0 else abs.base
      modifies this`position, this`now, this`barrierId, this`abs, this`log, this`times
      ensures Tracks() && barrierId == old(barrierId) + 1
      ensures answer.Got? ==> from <= answer.value <= sent && abs == Recovered(cfg, old(abs), job, answer.value)
      ensures answer.Lost? ==> abs.phase == Abort(answer.why)
    {
      hide Handle, Run, Recovered, Punctual, LinesHeard, LinesIn, Began;
      barrierId := barrierId + 1;
      var token := barrierId;
      var i := 0;
      while i < maxRetries + 1
        invariant Tracks() && 0 <= i <= maxRetries + 1 && token == barrierId == old(barrierId) + 1
        invariant if i < maxRetries + 1 then abs == old(abs).(phase := BarrierWrite(i, token, job))
                  else abs == Stop(old(abs), BarrierTimeout)
      {
        Write(Barrier(token));
        ghost var asked := abs;
        var outcome := AwaitResume(i, token, from, sent, job);
        if outcome.Some? {
          if outcome.value.Got? {
            RecoveredForgetsPhase(cfg, old(abs), asked.phase, job, outcome.value.value);
          }
          return outcome.value;
        }
        i := i + 1;
      }
      return Lost(BarrierTimeout);
    }

    // ---- _send_window -----------------------------------------------------------------

    /** The variables of the window are in their ranges. */
    ghost predicate InRange(data: bytes, blocks: nat)
      reads this`cfg, this`base, this`next, this`resets, this`recoveries
    {
      && cfg.Valid() && cfg.data == data && blocks == cfg.Blocks()
      && base <= next <= blocks && resets <= MAX_RESETS && recoveries <= maxRetries
    }

    /** The cached frames carry the blocks they are cached for. */
    ghost predicate Cached()
      reads this`cfg, this`frames
    {
      cfg.Valid() && AllCarry(cfg, frames)
    }

    method BuildFrame(data: bytes, k: nat) returns (f: Frame)
      requires Tracks() && cfg.data == data && k < cfg.Blocks()
      modifies this`compressedBlocks
      ensures Carries(cfg, f) && f.seqno == k
      ensures var b := cfg.Block(k);
              f.packed <==> useCompression && |b| >= 64
                            && Lz4Codec.Pays(|b|, |Lz4Codec.Packed(b)|, |Lz4Codec.Matches(b, 0, 0, [])|, baud)
      ensures compressedBlocks == old(compressedBlocks) + if f.packed then 1 else 0
    {
      assert cfg.Valid() && cfg.blockSize == blockSize && cfg.compression == useCompression && baud > 0;
      hide TracksTo, Tracks, Crc, Decode, Carries;
      var chunk := data[Min(k * blockSize, |data|)..Min((k + 1) * blockSize, |data|)];
      ChunkIsBlock(cfg, k);
      var packed := None;
      if useCompression {
        packed := Lz4Codec.Worthwhile(chunk, baud);
      }
      if packed.Some? {
        f := Data(k, true, |chunk|, Crc(0, chunk), packed.value);
        TransferSafety.PackedCarries(cfg, k, f);
        compressedBlocks := compressedBlocks + 1;
      } else {
        f := Data(k, false, |chunk|, Crc(0, chunk), chunk);
        TransferSafety.RawCarries(cfg, k);
      }
    }

    method WriteBlock(f: Frame)
      requires Tracks() && Send(cfg, abs, Tx(f)).Some? && f.Data?
      modifies this`now, this`dataWireBytes, this`abs, this`log, this`times
      ensures Tracks() && abs == Send(cfg, old(abs), Tx(f)).value && log == old(log) + [Tx(f)]
    {
      hide Send, WireSize, Punctual, Began, Patience;
      now := now + 1;
      dataWireBytes := dataWireBytes + WireSize(f);
      RunStep(cfg, log, Tx(f));
      OneMoreTime(cfg, Times(), log, times, Tx(f), now);
      abs := Send(cfg, abs, Tx(f)).value;
      log, times := log + [Tx(f)], times + [now];
    }

    method CachedFrame(data: bytes, k: nat) returns (f: Frame)
      requires Tracks() && Cached() && cfg.data == data && k < cfg.Blocks()
      modifies this`compressedBlocks, this`frames
      ensures Cached() && Carries(cfg, f) && f.seqno == k
    {
      hide TracksTo, Tracks, Carries;
      if k !in frames {
        f := BuildFrame(data, k);
        frames := frames[k := f];
      }
      return frames[k];
    }

    method CountAndWrite(f: Frame, count: nat)
      requires Tracks() && abs == Local(Fill) && f.Data?
      requires Send(cfg, abs, Tx(f)) == Some(Local(Fill).(attempts := attempts[next := count + 1], next := next + 1,
                                                          retransmits := retransmits + if count > 0 then 1 else 0))
      modifies this`now, this`dataWireBytes, this`next, this`attempts, this`retransmits, this`abs, this`log, this`times
      ensures Tracks() && abs == Local(Fill) && next == old(next) + 1
    {
      hide Send, Tracks;
      WriteBlock(f);
      attempts := attempts[next := count + 1];
      retransmits := retransmits + if count > 0 then 1 else 0;
      next := next + 1;
    }

    /** Writes the next block, for which there must be an attempt left. */
    method SendNext(data: bytes, blocks: nat)
      requires Tracks() && InRange(data, blocks) && Cached() && abs == Local(Fill)
      requires base < blocks && next < Min(blocks, base + cwnd)
      requires (if next in attempts then attempts[next] else 0) <= maxRetries
      modifies this`now, this`compressedBlocks, this`dataWireBytes, this`next, this`attempts, this`frames,
               this`retransmits, this`abs, this`log, this`times
      ensures Tracks() && InRange(data, blocks) && Cached() && abs == Local(Fill) && next == old(next) + 1
    {
      hide Carries, Crc, Send, Cached;
      var count := if next in attempts then attempts[next] else 0;
      var f := CachedFrame(data, next);
      BlockIsNext(cfg, abs, f, count);
      CountAndWrite(f, count);
    }

    /** Writes blocks until the congestion window is full, unless one of them has been tried too often. */
    method FillWindow(data: bytes, blocks: nat) returns (failed: bool)
      requires Tracks() && InRange(data, blocks) && Cached() && abs == Local(Fill) && base < blocks
      modifies this`now, this`compressedBlocks, this`dataWireBytes, this`next, this`attempts, this`frames,
               this`retransmits, this`abs, this`log, this`times
      ensures Tracks()
      ensures failed ==> abs.phase == Abort(RetriesExhausted)
      ensures !failed ==> InRange(data, blocks) && Cached() && abs == Local(Wait) && WaitBegan() == now
    {
      hide Run, Carries, Crc, Cached, Punctual, LinesHeard, LinesIn, Began;
      while next < Min(blocks, base + cwnd)
        invariant Tracks() && InRange(data, blocks) && Cached() && abs == Local(Fill)
        decreases blocks - next
      {
        if (if next in attempts then attempts[next] else 0) > maxRetries {
          Advance(Tau);
          return true;
        }
        SendNext(data, blocks);
      }
      Advance(Tau);
      return false;
    }

    /** An acknowledgement for block `n`. */
    method OnAck(data: bytes, blocks: nat, n: nat, late: bool, ghost phase: Phase, ghost again: bool)
      returns (verdict: Verdict)
      requires Tracks() && InRange(data, blocks) && Cached() && base < blocks
      requires abs == Handle(cfg, Local(phase), Ack(n), late, again)
      modifies this`base, this`cwnd, this`clean, this`attempts, this`frames, this`recoveries
      ensures Outcome(data, blocks, verdict, old(resets), old(base), old(recoveries), late)
      ensures verdict.KeepWaiting? ==> clean == old(clean) && cwnd == old(cwnd)
    {
      hide TracksTo, Tracks, AllCarry, KeepFrom;
      if n >= next {
        return Raise(UnsentAck);
      }
      if n < base {
        return if late then Raise(OnlyDuplicateAcks) else KeepWaiting;
      }
      Acknowledge(data, blocks, n, phase);
      return Progress;
    }

    method Acknowledge(data: bytes, blocks: nat, n: nat, ghost phase: Phase)
      requires Tracks() && InRange(data, blocks) && Cached() && base <= n < next
      requires abs == Acknowledged(cfg, Local(phase), n)
      modifies this`base, this`cwnd, this`clean, this`attempts, this`frames, this`recoveries
      ensures InRange(data, blocks) && Cached() && abs == Local(Fill) && base > old(base)
    {
      assert cfg.window == windowSize;
      hide TracksTo, Tracks, AllCarry, KeepFrom, KeepFrames;
      base := n + 1;
      clean := clean + 1;
      if clean >= FLOW_GROW_ACKS {
        cwnd := windowSize;
      }
      attempts := KeepFrom(attempts, base);
      frames := KeepFrames(cfg, frames, base);
      recoveries := 0;
    }

    /** The receiver starts over: drain the line, then start over too. */
    method OnReset(data: bytes, blocks: nat, late: bool, ghost phase: Phase, ghost again: bool)
      returns (verdict: Verdict)
      requires Tracks() && InRange(data, blocks) && Cached() && base < blocks
      requires abs == Handle(cfg, Local(phase), SelfReset, late, again)
      modifies this`position, this`now, this`barrierId, this`base, this`next, this`cwnd, this`clean, this`attempts,
               this`recoveries, this`resets, this`abs, this`log, this`times
      ensures !verdict.KeepWaiting?
      ensures Tracks() && Outcome(data, blocks, verdict, old(resets), old(base), old(recoveries), late)
    {
      hide TracksTo, Tracks, Carries, Recovered, Cached;
      if resets + 1 > MAX_RESETS {
        return Raise(ResetsExhausted);
      }
      resets := resets + 1;
      var place := RecoverWindow(0, next, AfterReset);
      if place.Lost? {
        return Raise(place.why);
      }
      RecoveredForgetsPhase(cfg, Local(phase), BarrierWrite(0, barrierId, AfterReset), AfterReset, place.value);
      verdict := Restart(data, blocks, place.value, phase);
    }

    method Restart(data: bytes, blocks: nat, n: nat, ghost phase: Phase) returns (verdict: Verdict)
      requires InRange(data, blocks) && Cached() && abs == Recovered(cfg, Local(phase), AfterReset, n)
      modifies this`base, this`next, this`cwnd, this`clean, this`attempts, this`recoveries
      ensures match verdict
              case Progress => InRange(data, blocks) && Cached() && abs == Local(Fill)
              case Raise(why) => abs.phase == Abort(why)
              case KeepWaiting => false
    {
      hide Carries;
      if n != 0 {
        return Raise(NotZero);
      }
      base, next, cwnd, clean, attempts, recoveries := 0, 0, 1, 0, map[], 0;
      return Progress;
    }

    /** A NAK, a DROP or a blank line: find out where the receiver stands and go on from there. */
    method OnNak(data: bytes, blocks: nat, reply: Reply, late: bool, ghost phase: Phase, ghost again: bool)
      returns (verdict: Verdict)
      requires Tracks() && InRange(data, blocks) && Cached() && base < blocks
      requires reply.Blank? || IsNakOrDrop(reply)
      requires abs == Handle(cfg, Local(phase), reply, late, again)
      modifies this`position, this`now, this`barrierId, this`base, this`next, this`cwnd, this`clean, this`attempts,
               this`frames, this`recoveries, this`abs, this`log, this`times
      ensures !verdict.KeepWaiting?
      ensures Tracks() && Outcome(data, blocks, verdict, old(resets), old(base), old(recoveries), late)
    {
      hide TracksTo, Tracks, Carries, Recovered, Cached;
      cwnd, clean := 1, 0;
      var place := RecoverWindow(base, next, AfterNak);
      if place.Lost? {
        return Raise(place.why);
      }
      RecoveredForgetsPhase(cfg, Local(phase), BarrierWrite(0, barrierId, AfterNak), AfterNak, place.value);
      verdict := ResumeAt(data, blocks, place.value, phase);
    }

    method ResumeAt(data: bytes, blocks: nat, n: nat, ghost phase: Phase) returns (verdict: Verdict)
      requires Tracks() && InRange(data, blocks) && Cached() && base <= n <= next
      requires abs == Recovered(cfg, Local(phase), AfterNak, n)
      modifies this`base, this`next, this`attempts, this`frames, this`recoveries
      ensures match verdict
              case Progress =>
                && InRange(data, blocks) && Cached() && abs == Local(Fill)
                && (base > old(base) || (base == old(base) && recoveries == old(recoveries) + 1))
              case Raise(why) => abs.phase == Abort(why)
              case KeepWaiting => false
    {
      assert cfg.maxRetries == maxRetries;
      hide TracksTo, Tracks, AllCarry, KeepFrom, KeepFrames;
      var oldBase := base;
      base := n;
      recoveries := if base > oldBase then 0 else recoveries + 1;
      if recoveries > maxRetries {
        return Raise(RetriesExhausted);
      }
      attempts := KeepFrom(attempts, base);
      frames := KeepFrames(cfg, frames, base);
      next := base;
      return Progress;
    }

    /** Acts on one reply. A HERE that came before the deadline is not brought here. */
    method Act(data: bytes, blocks: nat, reply: Reply, late: bool, ghost phase: Phase, ghost again: bool)
      returns (verdict: Verdict)
      requires Tracks() && InRange(data, blocks) && Cached() && base < blocks
      requires IsHere(reply) ==> again
      requires abs == Handle(cfg, Local(phase), reply, late, again)
      modifies this`position, this`now, this`barrierId, this`base, this`next, this`cwnd, this`clean, this`attempts,
               this`frames, this`recoveries, this`resets, this`abs, this`log, this`times
      ensures Tracks() && Outcome(data, blocks, verdict, old(resets), old(base), old(recoveries), late)
      ensures verdict.KeepWaiting? ==> now == old(now) && WaitBegan() == old(WaitBegan())
    {
      hide TracksTo, Tracks, Cached, InRange;
      if reply.Ack? {
        verdict := OnAck(data, blocks, reply.n, late, phase, again);
      } else if reply.SelfReset? {
        verdict := OnReset(data, blocks, late, phase, again);
      } else if reply.Blank? || IsNakOrDrop(reply) {
        verdict := OnNak(data, blocks, reply, late, phase, again);
      } else if reply.Resume? && 0 < reply.token <= barrierId && !late {
        verdict := KeepWaiting;
      } else {
        verdict := Raise(UnexpectedReply);
      }
    }

    /** The wait is over without a line: the guard time begins, and the receiver is probed. */
    method ProbeSilence() returns (answer: Answer<Reply>)
      requires Tracks() && abs == Local(Guard(false)) && cwnd == 1 && clean == 0 && JustNow()
      modifies this`position, this`now, this`barrierId, this`resetToken, this`abs, this`log, this`times
      ensures Tracks() && now >= old(now) && (answer.Got? ==> JustNow())
      ensures answer.Lost? ==> abs.phase == Abort(answer.why)
      ensures answer.Got? ==> abs == Handle(cfg, Local(Wait), answer.value, true, false)
    {
      hide Handle, TracksTo, Tracks;
      GuardHasBegun();
      answer := ProbeReceiver(false);
      if answer.Got? {
        HandleForgetsPhase(cfg, Local(Wait), Guard(false), answer.value, false);
      }
    }

    /** A HERE that came too late: the receiver is probed once more. */
    method ProbeAgain() returns (answer: Answer<Reply>)
      requires Tracks() && abs == Local(Guard(true)) && JustNow()
      modifies this`position, this`now, this`barrierId, this`resetToken, this`abs, this`log, this`times
      ensures Tracks() && now >= old(now)
      ensures answer.Lost? ==> abs.phase == Abort(answer.why)
      ensures answer.Got? ==> abs == Handle(cfg, Local(Wait), answer.value, true, true)
    {
      hide Handle, TracksTo, Tracks;
      GuardHasBegun();
      answer := ProbeReceiver(true);
      if answer.Got? {
        HandleForgetsPhase(cfg, Local(Wait), Guard(true), answer.value, true);
      }
    }

    /** One reply for the window to act on, through a probe of the receiver if the wait is over. */
    method NextReply(deadline: nat) returns (answer: Answer<Reply>, ghost again: bool)
      requires Tracks() && abs == Local(Wait) && EndsAt(deadline)
      modifies this`position, this`now, this`barrierId, this`resetToken, this`cwnd, this`clean, this`abs, this`log,
               this`times
      ensures Tracks() && now > old(now) && (again ==> now >= deadline)
      ensures answer.Got? && now < deadline ==> WaitBegan() == old(WaitBegan())
      ensures answer.Lost? ==> abs.phase == Abort(answer.why)
      ensures answer.Got? && (!IsHere(answer.value) || again) ==>
                abs == Handle(cfg, Local(Wait), answer.value, now >= deadline, again)
      ensures answer.Got? && IsHere(answer.value) && !again ==>
                now < deadline && abs == Local(Wait) && clean == old(clean) && cwnd == old(cwnd)
    {
      hide Handle, TracksTo, Tracks, WaitBegan, JustNow;
      again := false;
      var line := RecvLine(deadline);
      if line.Some? {
        answer := Got(line.value);
        if IsHere(answer.value) {
          HereIsNoAnswer(cfg, Local(Wait), answer.value, now >= deadline);
        }
        WaitNotGuard(cfg, Local(Wait), answer.value, now >= deadline);
      } else {
        cwnd, clean := 1, 0;
        answer := ProbeSilence();
        if answer.Lost? {
          return;
        }
        if IsHere(answer.value) {
          HereIsNoAnswer(cfg, Local(Wait), answer.value, true);
        }
      }
      if IsHere(answer.value) && now >= deadline {
        answer := ProbeAgain();
        again := true;
      }
    }

    /** Waits until the window can move on, or has to give up. */
    method AwaitProgress(data: bytes, blocks: nat) returns (verdict: Verdict)
      requires Tracks() && InRange(data, blocks) && Cached() && base < blocks && abs == Local(Wait)
      requires WaitBegan() == now
      modifies this`position, this`now, this`barrierId, this`resetToken, this`base, this`next, this`cwnd, this`clean,
               this`attempts, this`frames, this`recoveries, this`resets, this`abs, this`log, this`times
      ensures Tracks() && !verdict.KeepWaiting?
      ensures Outcome(data, blocks, verdict, old(resets), old(base), old(recoveries), true)
    {
      hide TracksTo, Tracks, Cached, Handle;
      var deadline := now + ackTimeout;
      while true
        invariant Tracks() && InRange(data, blocks) && Cached() && base < blocks && abs == Local(Wait)
        invariant resets == old(resets) && base == old(base) && recoveries == old(recoveries) && EndsAt(deadline)
        decreases deadline - now
      {
        ghost var started := now;
        var answer, again := NextReply(deadline);
        if answer.Lost? {
          return Raise(answer.why);
        }
        if IsHere(answer.value) && now < deadline {
          continue;
        }
        verdict := Act(data, blocks, answer.value, now >= deadline, Wait, again);
        if !verdict.KeepWaiting? {
          return;
        }
      }
    }

    method ClearWindow(data: bytes, blocks: nat)
      requires Tracks() && cfg.data == data && blocks == cfg.Blocks()
      requires abs == Start(cfg) && barrierId == cfg.priorToken && resetToken == cfg.priorReset
      modifies this`base, this`next, this`cwnd, this`clean, this`attempts, this`frames, this`recoveries, this`resets,
               this`retransmits
      ensures InRange(data, blocks) && Cached() && abs == Local(Fill)
    {
      assert cfg.Valid();
      hide Run, Crc, TracksTo;
      base, next, retransmits, recoveries, resets := 0, 0, 0, 0, 0;
      cwnd, clean, attempts, frames := 1, 0, map[], map[];
    }

    /** Sends the whole file. The loop ends because every pass of it counts a reset, acknowledges a block, or counts a
        recovery. */
    method SendWindow(data: bytes, blocks: nat) returns (result: Answer<nat>)
      requires Tracks() && cfg.data == data && blocks == cfg.Blocks()
      requires abs == Start(cfg) && barrierId == cfg.priorToken && resetToken == cfg.priorReset
      modifies this`position, this`now, this`barrierId, this`resetToken, this`compressedBlocks, this`dataWireBytes,
               this`base, this`next, this`cwnd, this`clean, this`attempts, this`frames, this`recoveries, this`resets,
               this`retransmits, this`abs, this`log, this`times
      ensures Tracks()
      ensures result.Got? ==> abs == Local(Fill) && base == blocks && result.value == abs.retransmits
      ensures result.Lost? ==> abs.phase == Abort(result.why)
    {
      hide TracksTo, Tracks, Cached;
      ClearWindow(data, blocks);
      while base < blocks
        invariant Tracks() && InRange(data, blocks) && Cached() && abs == Local(Fill)
        decreases MAX_RESETS - resets, blocks - base, maxRetries - recoveries
      {
        var exhausted := FillWindow(data, blocks);
        if exhausted {
          return Lost(RetriesExhausted);
        }
        var verdict := AwaitProgress(data, blocks);
        if verdict.Raise? {
          return Lost(verdict.why);
        }
      }
      return Got(retransmits);
    }

    // ---- send_file ------------------------------------------------------------------------

    /** Everything after READY: the window, DONE, and the wait for the receiver's verdict. The history is one the
        sender machine can make, so the sender safety and work theorems speak about it; it holds the lines that came
        in, in order; and a read counts as timed out or late exactly when the time of its wait is over. */
    method SendFile(data: bytes) returns (verified: Answer<bool>)
      requires 1 <= blockSize <= MAX_BLOCK_SIZE && 1 <= windowSize <= MAX_WINDOW && |data| <= MAX_FILE_SIZE && baud > 0
      modifies this
      ensures Tracks() && cfg == Config(data, blockSize, windowSize, maxRetries, probeRetries, useCompression,
                                        old(barrierId), old(resetToken))
      ensures match verified
              case Got(v) => abs.phase == Complete(v)
              case Lost(why) => abs.phase == Abort(why)
      ensures dataWireBytes == WireBytes(log)
      ensures DataSent(log) <= (MAX_RESETS + 1) * cfg.Blocks() * (maxRetries + 1)
      ensures verified == Lost(RetriesExhausted) ==> TransferPatience.Earned(cfg, log)
      ensures LinesHeard(log) == LinesIn(incoming, old(position), position)
      ensures Punctual(cfg, Limits(ackTimeout, probeGuard, probeTimeout), log, times)
    {
      hide Punctual, TracksTo, Tracks, DataSent, WireBytes, TransferPatience.Earned;
      Begin(data);
      var blocks := Max(1, (|data| + blockSize - 1) / blockSize);
      var sent := SendWindow(data, blocks);
      if sent.Lost? {
        Account();
        return Lost(sent.why);
      }
      verified := AwaitConfirmation(data, blocks);
      Account();
    }

    lemma GuardHasBegun()
      requires Tracks() && abs.phase.Guard? && JustNow()
      ensures WaitBegan() == now
    {
      hide Run, Punctual;
    }

    method Begin(data: bytes)
      requires 1 <= blockSize <= MAX_BLOCK_SIZE && 1 <= windowSize <= MAX_WINDOW && |data| <= MAX_FILE_SIZE && baud > 0
      modifies this`compressedBlocks, this`dataWireBytes, this`cfg, this`abs, this`log, this`times, this`origin
      ensures Tracks() && abs == Start(cfg) && origin == old(position)
      ensures cfg == Config(data, blockSize, windowSize, maxRetries, probeRetries, useCompression, barrierId,
                            resetToken)
    {
      hide Send;
      cfg := Config(data, blockSize, windowSize, maxRetries, probeRetries, useCompression, barrierId, resetToken);
      compressedBlocks, dataWireBytes := 0, 0;
      abs, log, times, origin := Start(cfg), [], [], position;
    }

    lemma Account()
      requires Tracks()
      ensures cfg.Valid() && dataWireBytes == WireBytes(log)
      ensures DataSent(log) <= (MAX_RESETS + 1) * cfg.Blocks() * (cfg.maxRetries + 1)
      ensures cfg.maxRetries == maxRetries
      ensures Run(cfg, log).Some?
      ensures abs.phase == Abort(RetriesExhausted) ==> TransferPatience.Earned(cfg, log)
      ensures LinesHeard(log) == LinesIn(incoming, origin, position)
      ensures Punctual(cfg, Limits(ackTimeout, probeGuard, probeTimeout), log, times)
    {
      hide Punctual, LinesIn, LinesHeard, DataSent, Run, TransferPatience.Earned;
      DataIsBounded(cfg, log);
      if abs.phase == Abort(RetriesExhausted) {
        TransferPatience.ExhaustionIsEarned(cfg, log);
      }
    }

    /** DONE, and then the first line that is not a late ACK or RESUME. */
    method AwaitConfirmation(data: bytes, blocks: nat) returns (verified: Answer<bool>)
      requires Tracks() && cfg.data == data && blocks == cfg.Blocks() && abs.phase.Fill? && abs.base == blocks
      requires abs.lastToken == barrierId
      modifies this`position, this`now, this`abs, this`log, this`times
      ensures Tracks()
      ensures match verified
              case Got(v) => abs.phase == Complete(v)
              case Lost(why) => abs.phase == Abort(why)
    {
      hide Run, Carries, Crc, Punctual, LinesHeard, LinesIn, Began;
      var crc := Crc(0, data);
      Write(Done(crc));
      var deadline := now + ackTimeout;
      while true
        invariant Tracks() && abs.phase.AwaitOk? && abs.lastToken == barrierId && EndsAt(deadline)
        decreases deadline - now
      {
        var line := RecvLine(deadline);
        if line.None? {
          return Lost(NoConfirmation);
        }
        var y := line.value;
        if (y.Ack? && y.n < blocks) || (y.Resume? && 0 < y.token <= barrierId) {
          if now >= deadline {
            return Lost(NoConfirmation);
          }
        } else {
          return Got(y == Ok(crc));
        }
      }
    }
  }

  lemma ListenerHears(c: Config, s: Sender, e: Event)
    requires c.Valid() && Listens(s) && (e.Rx? || e.Timeout?)
    ensures Send(c, s, e).Some?
  {
    hide Handle, NextProbe, Recovered, Crc;
  }

  lemma HandleForgetsPhase(c: Config, s: Sender, phase: Phase, reply: Reply, again: bool)
    ensures Handle(c, s.(phase := phase), reply, true, again) == Handle(c, s, reply, true, again)
  {
  }

  lemma ProbeForgetsPhase(c: Config, s: Sender, phase: Phase, i: nat, again: bool)
    ensures NextProbe(c, s.(phase := phase), i, again) == NextProbe(c, s, i, again)
  {
  }

  lemma RecoveredForgetsPhase(c: Config, s: Sender, phase: Phase, job: Job, n: nat)
    ensures Recovered(c, s.(phase := phase), job, n) == Recovered(c, s, job, n)
  {
  }

  lemma ChunkIsBlock(c: Config, k: nat)
    requires c.Valid()
    ensures c.data[Min(k * c.blockSize, |c.data|)..Min((k + 1) * c.blockSize, |c.data|)] == c.Block(k)
    ensures |c.Block(k)| <= c.blockSize
  {
    assert (k + 1) * c.blockSize == k * c.blockSize + c.blockSize;
  }

  /** A block of the right number is the sender's to write. */
  lemma BlockIsNext(c: Config, s: Sender, f: Frame, count: nat)
    requires c.Valid() && s.phase.Fill? && s.base < c.Blocks() && s.next < Min(c.Blocks(), s.base + s.cwnd)
    requires Attempts(s, s.next) == count <= c.maxRetries && Carries(c, f) && f.seqno == s.next
    ensures f.Data?
    ensures Send(c, s, Tx(f)) == Some(s.(attempts := s.attempts[s.next := count + 1], next := s.next + 1,
                                         retransmits := s.retransmits + if count > 0 then 1 else 0))
  {
    hide HeaderFits, Plain, Crc;
  }

  lemma WaitNotGuard(c: Config, s: Sender, reply: Reply, late: bool)
    ensures Handle(c, s, reply, late, false).phase.Guard? ==> IsHere(reply) && late
  {
  }

  lemma HereIsNoAnswer(c: Config, s: Sender, reply: Reply, late: bool)
    requires IsHere(reply)
    ensures Handle(c, s, reply, late, false) == s.(phase := if late then Guard(true) else Wait)
  {
  }
}
