/**
  The FLOW=1 transfer: the sender of src/pcutp/server.py and the receiver of src/pcutp/client.py as two machines,
  and the line between them as two queues. A DATA or ZDATA header and its payload are one frame.

  The sender machine moves on four kinds of event: a frame it writes, a line it reads (with a flag telling whether
  the deadline of that read has passed by then), a read that times out, and a step without input or output.
*/
module Transfer {
  import opened Basics
  import opened Lz4Format
  import opened Crc32
  import opened Text

  const MAX_DROPS := 3
  const MAX_RESETS := 2
  const RST_RETRIES := 3
  const FLOW_GROW_ACKS := 8
  const MAX_BLOCK_SIZE := 4096
  const MAX_FILE_SIZE := 16 * 1024 * 1024
  const MAX_WINDOW := 2
  const FRAME_OVERHEAD := 64

  // ---- what crosses the line ------------------------------------------------

  /** A line toward the receiver. For ZDATA `packed` holds and `rawLen` is the length after decompression; DATA has no
      such field, and its `rawLen` means nothing. */
  datatype Frame =
    | Data(seqno: nat, packed: bool, rawLen: nat, want: bv32, payload: bytes)
    | Ayt(token: nat)
    | Reset(token: nat)
    | Barrier(token: nat)
    | Done(crc: bv32)
    | Close
    | ErrLine
    | Junk

  /** The first word of a line whose remaining words do not have the expected form. */
  datatype Keyword = AckWord | RstWord | ErrWord | HereWord | ResumeWord | OtherWord

  /** A line toward the sender. `Resume` without a decimal position is `ResumeUnreadable`; `Blank` has no words, and may
      or may not hold spaces. */
  datatype Reply =
    | Ack(n: nat)
    | Nak(n: nat)
    | Drop(n: nat)
    | SelfReset
    | ResetAck(token: nat)
    | Here(token: nat, n: nat)
    | Resume(token: nat, n: nat)
    | ResumeUnreadable(token: nat)
    | Ok(crc: bv32)
    | Fail(crc: bv32)
    | Err
    | Bye
    | Blank(empty: bool)
    | Malformed(word: Keyword)

  /** The control line in front of a payload. */
  function Header(f: Frame): string
    requires f.Data?
  {
    if f.packed then
      "ZDATA " + Decimal(f.seqno) + " " + Decimal(|f.payload|) + " " + Decimal(f.rawLen) + " " + Hex8(f.want)
    else "DATA " + Decimal(f.seqno) + " " + Decimal(|f.payload|) + " " + Hex8(f.want)
  }

  /** Header, line feed and payload. */
  function WireSize(f: Frame): nat
    requires f.Data?
  {
    |Header(f)| + 1 + |f.payload|
  }

  // ---- the file and its blocks ----------------------------------------------

  /** `priorToken` and `priorReset` are the barrier counter and the reset token that earlier transfers of the session
      left behind. */
  datatype Config = Config(data: bytes, blockSize: nat, window: nat, maxRetries: nat, probeRetries: nat,
                           compression: bool, priorToken: nat, priorReset: Option<nat>)
  {
    predicate Valid() {
      && 1 <= blockSize <= MAX_BLOCK_SIZE
      && 1 <= window <= MAX_WINDOW
      && |data| <= MAX_FILE_SIZE
    }

    /** ceil(size / blockSize), and one block for an empty file. */
    function Blocks(): nat
      requires blockSize >= 1
    {
      Max(1, (|data| + blockSize - 1) / blockSize)
    }

    /** The first `k` blocks. */
    function Prefix(k: nat): bytes {
      data[..Min(k * blockSize, |data|)]
    }

    function Block(k: nat): bytes {
      var lo := Min(k * blockSize, |data|);
      data[lo..Min(lo + blockSize, |data|)]
    }

    function Announced(): Meta
      requires blockSize >= 1
    {
      Meta(|data|, blockSize, Blocks(), Crc(0, data))
    }
  }

  datatype Meta = Meta(size: nat, blockSize: nat, blocks: nat, crc: bv32)

  /** What the receiver makes of a payload before it looks at the checksum. */
  function Plain(f: Frame): Option<bytes>
    requires f.Data?
  {
    if f.packed then OfSize(Decode(f.payload), f.rawLen) else Some(f.payload)
  }

  /** The payload decodes and its checksum is the announced one. */
  predicate Clean(f: Frame)
    requires f.Data?
  {
    Plain(f).Some? && Crc(0, Plain(f).value) == f.want
  }

  /** The header checks of the receiver that come before the payload is read. */
  predicate HeaderFits(m: Meta, f: Frame)
    requires f.Data?
  {
    |f.payload| <= m.blockSize && f.seqno < m.blocks && (f.packed ==> f.rawLen <= m.blockSize)
  }

  /** A frame as the sender builds it for block `f.seqno`. */
  predicate Carries(c: Config, f: Frame)
    requires c.Valid()
  {
    && f.Data? && HeaderFits(c.Announced(), f)
    && (f.packed ==> c.compression)
    && Plain(f) == Some(c.Block(f.seqno))
    && f.want == Crc(0, c.Block(f.seqno))
  }

  // ---- the receiver -----------------------------------------------------------

  datatype Failure = PeerError | EarlyDone | NotData | BadHeader | TooManyResets | WrongLength

  datatype Mode = Receiving | Finished(ok: bool) | Failed(why: Failure)

  datatype Receiver = Receiver(expected: nat, received: nat, file: bytes, running: bv32, drops: nat, resets: nat,
                               peerClosing: bool, mode: Mode)

  const FRESH := Receiver(0, 0, [], 0, 0, 0, false, Receiving)

  /** A DATA or ZDATA frame whose payload is already known to be clean. */
  function ReceiveClean(m: Meta, r: Receiver, seqno: nat, plain: bytes): (Receiver, seq<Reply>) {
    if seqno < r.expected then (r, [Ack(r.expected - 1)])
    else if seqno != r.expected then
      if r.drops + 1 >= MAX_DROPS then
        if r.resets + 1 > MAX_RESETS then
          (r.(drops := r.drops + 1, resets := r.resets + 1, mode := Failed(TooManyResets)), [Err])
        else
          (r.(expected := 0, received := 0, file := [], running := 0, drops := 0, resets := r.resets + 1),
           [SelfReset])
      else (r.(drops := r.drops + 1), [Drop(r.expected)])
    else if |plain| != Min(m.blockSize, m.size - r.received) then (r.(mode := Failed(WrongLength)), [Err])
    else
      (r.(file := r.file + plain, running := Crc(r.running, plain), received := r.received + |plain|,
          expected := r.expected + 1, drops := 0),
       [Ack(seqno)])
  }

  function ReceiveData(m: Meta, compression: bool, r: Receiver, f: Frame): (Receiver, seq<Reply>)
    requires f.Data?
  {
    if f.packed && !compression then (r.(mode := Failed(NotData)), [])
    else if |f.payload| > m.blockSize || f.seqno >= m.blocks then (r.(mode := Failed(BadHeader)), [Err])
    else if f.packed && f.rawLen > m.blockSize then (r.(mode := Failed(BadHeader)), [])
    else if !Clean(f) then (r, [Nak(r.expected)])
    else ReceiveClean(m, r, f.seqno, Plain(f).value)
  }

  function ReceiveDone(m: Meta, r: Receiver, crc: bv32): (Receiver, seq<Reply>) {
    if r.expected != m.blocks then (r.(mode := Failed(EarlyDone)), [])
    else if r.running == crc && r.running == m.crc && r.received == m.size
    then (r.(mode := Finished(true)), [Ok(r.running)])
    else (r.(mode := Finished(false)), [Fail(r.running)])
  }

  /** One pass of the loop of `_receive`. */
  function Receive(m: Meta, compression: bool, r: Receiver, f: Frame): (Receiver, seq<Reply>)
    requires r.mode.Receiving?
  {
    match f
    case ErrLine => (r.(mode := Failed(PeerError)), [])
    case Ayt(t) => (r, [Here(t, r.expected)])
    case Reset(t) =>
      (r.(expected := 0, received := 0, file := [], running := 0, drops := 0, resets := 0), [ResetAck(t)])
    case Done(crc) => ReceiveDone(m, r, crc)
    case Barrier(t) => (r, [Resume(t, r.expected)])
    case Close => (r.(peerClosing := true), [Bye])
    case Junk => (r.(mode := Failed(NotData)), [])
    case Data(_, _, _, _, _) => ReceiveData(m, compression, r, f)
  }

  // ---- the sender ---------------------------------------------------------------

  datatype Job = AfterNak | AfterReset

  datatype Reason =
    | RetriesExhausted | UnsentAck | OnlyDuplicateAcks | UnexpectedReply | ResetsExhausted
    | LinkLost | UnexpectedResetReply
    | BadRecoverySequence | UnexpectedRecoveryReply | BarrierTimeout | NotZero
    | NoConfirmation

  /** Where the sender stands in `_send_window`, `_probe_receiver`, `_recover_window` and the end of `send_file`.
      `again` marks the second probe of one wait, whose HERE is no longer understood. */
  datatype Phase =
    | Fill
    | Wait
    | Guard(again: bool)
    | ProbeWrite(i: nat, again: bool)
    | ProbeRead(i: nat, probe: nat, again: bool)
    | ResetWrite(i: nat, reset: nat, again: bool)
    | ResetRead(i: nat, reset: nat, again: bool)
    | BarrierWrite(i: nat, barrier: nat, job: Job)
    | BarrierRead(i: nat, barrier: nat, job: Job)
    | AwaitOk
    | Complete(verified: bool)
    | Abort(why: Reason)

  datatype Sender = Sender(base: nat, next: nat, cwnd: nat, clean: nat, attempts: map<nat, nat>, recoveries: nat,
                           resets: nat, retransmits: nat, lastToken: nat, resetToken: Option<nat>, phase: Phase)

  function Start(c: Config): Sender {
    Sender(0, 0, 1, 0, map[], 0, 0, 0, c.priorToken, c.priorReset, Fill)
  }

  datatype Event = Tx(frame: Frame) | Rx(reply: Reply, late: bool) | Timeout | Tau

  function Attempts(s: Sender, k: nat): nat {
    if k in s.attempts then s.attempts[k] else 0
  }

  /** `{seq: n for seq, n in attempts.items() if seq >= base}` */
  function KeepFrom(attempts: map<nat, nat>, base: nat): map<nat, nat> {
    map k | k in attempts && k >= base :: attempts[k]
  }

  function Stop(s: Sender, why: Reason): Sender {
    s.(phase := Abort(why))
  }

  /** The next probe, or after the last one the first reset request. Both draw a fresh token. */
  function NextProbe(c: Config, s: Sender, i: nat, again: bool): Sender {
    if i < c.probeRetries then s.(phase := ProbeWrite(i, again))
    else s.(lastToken := s.lastToken + 1, phase := ResetWrite(0, s.lastToken + 1, again))
  }

  function StartBarrier(s: Sender, job: Job): Sender {
    s.(lastToken := s.lastToken + 1, phase := BarrierWrite(0, s.lastToken + 1, job))
  }

  predicate IsHere(reply: Reply) {
    reply.Here? || reply == Malformed(HereWord)
  }

  predicate IsAck(reply: Reply) {
    reply.Ack? || reply == Malformed(AckWord)
  }

  predicate IsRst(reply: Reply) {
    reply.SelfReset? || reply == Malformed(RstWord)
  }

  predicate IsErr(reply: Reply) {
    reply.Err? || reply == Malformed(ErrWord)
  }

  predicate IsResume(reply: Reply) {
    reply.Resume? || reply.ResumeUnreadable? || reply == Malformed(ResumeWord)
  }

  predicate IsNakOrDrop(reply: Reply) {
    reply.Nak? || reply.Drop?
  }

  predicate OldResume(s: Sender, reply: Reply) {
    reply.Resume? && 0 < reply.token <= s.lastToken
  }

  /** The body of the waiting loop of `_send_window`, for a line read directly or brought back by a probe. */
  function Handle(c: Config, s: Sender, reply: Reply, late: bool, again: bool): Sender {
    if IsHere(reply) && !again then
      if late then s.(phase := Guard(true)) else s.(phase := Wait)
    else if reply.Ack? then
      if reply.n >= s.next then Stop(s, UnsentAck)
      else if reply.n < s.base then
        if late then Stop(s, OnlyDuplicateAcks) else s.(phase := Wait)
      else
        var base := reply.n + 1;
        s.(base := base, clean := s.clean + 1,
           cwnd := if s.clean + 1 >= FLOW_GROW_ACKS then c.window else s.cwnd,
           attempts := KeepFrom(s.attempts, base), recoveries := 0, phase := Fill)
    else if reply.SelfReset? then
      if s.resets + 1 > MAX_RESETS then Stop(s, ResetsExhausted)
      else StartBarrier(s.(resets := s.resets + 1), AfterReset)
    else if reply.Blank? || IsNakOrDrop(reply) then StartBarrier(s.(cwnd := 1, clean := 0), AfterNak)
    else if OldResume(s, reply) && !late then s.(phase := Wait)
    else Stop(s, UnexpectedReply)
  }

  /** `_recover_window` came back with position `n`. */
  function Recovered(c: Config, s: Sender, job: Job, n: nat): Sender {
    if job.AfterReset? then
      if n != 0 then Stop(s, NotZero)
      else s.(base := 0, next := 0, cwnd := 1, clean := 0, attempts := map[], recoveries := 0, phase := Fill)
    else
      var recoveries := if n > s.base then 0 else s.recoveries + 1;
      if recoveries > c.maxRetries then Stop(s, RetriesExhausted)
      else s.(base := n, next := n, recoveries := recoveries, attempts := KeepFrom(s.attempts, n), phase := Fill)
  }

  /** One reading in the guard time before the first probe; an empty line is passed over. */
  function GuardNext(c: Config, s: Sender, e: Event): Option<Sender>
    requires s.phase.Guard?
  {
    match e
    case Rx(reply, _) =>
      Some(if reply == Blank(true) then NextProbe(c, s, 0, s.phase.again) else Handle(c, s, reply, true, s.phase.again))
    case Timeout => Some(NextProbe(c, s, 0, s.phase.again))
    case _ => None
  }

  function ProbeNext(c: Config, s: Sender, e: Event): Option<Sender>
    requires s.phase.ProbeRead?
  {
    var ProbeRead(i, probe, again) := s.phase;
    match e
    case Timeout => Some(NextProbe(c, s, i + 1, again))
    case Rx(reply, late) =>
      if reply.Here? && reply.token == probe then Some(Handle(c, s, Drop(reply.n), true, again))
      else if IsAck(reply) || IsNakOrDrop(reply) || IsRst(reply) || IsErr(reply)
      then Some(Handle(c, s, reply, true, again))
      else if late then Some(NextProbe(c, s, i + 1, again))
      else Some(s)
    case _ => None
  }

  function RetryReset(s: Sender, i: nat, reset: nat, again: bool): Sender {
    if i + 1 < RST_RETRIES then s.(phase := ResetWrite(i + 1, reset, again)) else Stop(s, LinkLost)
  }

  function ResetNext(c: Config, s: Sender, e: Event): Option<Sender>
    requires s.phase.ResetRead?
  {
    var ResetRead(i, reset, again) := s.phase;
    match e
    case Timeout => Some(RetryReset(s, i, reset, again))
    case Rx(reply, late) =>
      if reply == ResetAck(reset) then Some(Handle(c, s.(resetToken := Some(reset)), SelfReset, true, again))
      else if IsAck(reply) || IsNakOrDrop(reply) || IsHere(reply) || IsResume(reply)
      then Some(if late then RetryReset(s, i, reset, again) else s)
      else Some(Stop(s, UnexpectedResetReply))
    case _ => None
  }

  function RetryBarrier(c: Config, s: Sender, i: nat, barrier: nat, job: Job): Sender {
    if i < c.maxRetries then s.(phase := BarrierWrite(i + 1, barrier, job)) else Stop(s, BarrierTimeout)
  }

  function BarrierNext(c: Config, s: Sender, e: Event): Option<Sender>
    requires s.phase.BarrierRead?
  {
    var BarrierRead(i, barrier, job) := s.phase;
    match e
    case Timeout => Some(RetryBarrier(c, s, i, barrier, job))
    case Rx(reply, late) =>
      if (reply.Resume? || reply.ResumeUnreadable?) && reply.token == barrier then
        if reply.Resume? && (if job.AfterReset? then 0 else s.base) <= reply.n <= s.next
        then Some(Recovered(c, s, job, reply.n))
        else Some(Stop(s, BadRecoverySequence))
      else if (reply.ResetAck? && s.resetToken == Some(reply.token))
              || IsAck(reply) || IsNakOrDrop(reply) || IsResume(reply) || IsHere(reply)
      then Some(if late then RetryBarrier(c, s, i, barrier, job) else s)
      else Some(Stop(s, UnexpectedRecoveryReply))
    case _ => None
  }

  function FillNext(c: Config, s: Sender, e: Event): Option<Sender>
    requires c.Valid()
  {
    if s.base >= c.Blocks() then
      if e == Tx(Done(Crc(0, c.data))) then Some(s.(phase := AwaitOk)) else None
    else if s.next < Min(c.Blocks(), s.base + s.cwnd) then
      var count := Attempts(s, s.next);
      if count > c.maxRetries then if e.Tau? then Some(Stop(s, RetriesExhausted)) else None
      else if e.Tx? && Carries(c, e.frame) && e.frame.seqno == s.next then
        Some(s.(attempts := s.attempts[s.next := count + 1], next := s.next + 1,
                retransmits := s.retransmits + if count > 0 then 1 else 0))
      else None
    else if e.Tau? then Some(s.(phase := Wait)) else None
  }

  function AwaitNext(c: Config, s: Sender, e: Event): Option<Sender>
    requires c.Valid()
  {
    match e
    case Timeout => Some(Stop(s, NoConfirmation))
    case Rx(reply, late) =>
      if (reply.Ack? && reply.n < c.Blocks()) || OldResume(s, reply)
      then Some(if late then Stop(s, NoConfirmation) else s)
      else Some(s.(phase := Complete(reply == Ok(Crc(0, c.data)))))
    case _ => None
  }

  /** The sender's state after one event, or `None` when the event is not the sender's to make in this state. */
  function Send(c: Config, s: Sender, e: Event): Option<Sender>
    requires c.Valid()
  {
    match s.phase
    case Fill => FillNext(c, s, e)
    case Wait =>
      (match e
       case Rx(reply, late) => Some(Handle(c, s, reply, late, false))
       case Timeout => Some(s.(cwnd := 1, clean := 0, phase := Guard(false)))
       case _ => None)
    case Guard(_) => GuardNext(c, s, e)
    case ProbeWrite(i, again) =>
      if e == Tx(Ayt(s.lastToken + 1))
      then Some(s.(lastToken := s.lastToken + 1, phase := ProbeRead(i, s.lastToken + 1, again)))
      else None
    case ProbeRead(_, _, _) => ProbeNext(c, s, e)
    case ResetWrite(i, reset, again) =>
      if e == Tx(Reset(reset)) then Some(s.(phase := ResetRead(i, reset, again))) else None
    case ResetRead(_, _, _) => ResetNext(c, s, e)
    case BarrierWrite(i, barrier, job) =>
      if e == Tx(Barrier(barrier)) then Some(s.(phase := BarrierRead(i, barrier, job))) else None
    case BarrierRead(_, _, _) => BarrierNext(c, s, e)
    case AwaitOk => AwaitNext(c, s, e)
    case Complete(_) => None
    case Abort(_) => None
  }

  // ---- the line between them -----------------------------------------------------

  datatype System = System(s: Sender, r: Receiver, toR: seq<Frame>, toS: seq<Reply>)

  function Initial(c: Config): System {
    System(Start(c), FRESH, [], [])
  }

  /** What can happen next. Either end moves; a header can be followed by too few bytes, and the receiver times out
      on the payload; the line can lose or repeat a line, or damage a payload. */
  datatype Step =
    | SenderMoves(e: Event)
    | Deliver
    | PayloadTimesOut
    | LoseFrame(i: nat)
    | LoseReply(i: nat)
    | RepeatFrame(i: nat)
    | RepeatReply(i: nat)
    | DamageFrame(i: nat, payload: bytes)

  function Without<T>(q: seq<T>, i: nat): seq<T>
    requires i < |q|
  {
    q[..i] + q[i + 1..]
  }

  function Twice<T>(q: seq<T>, i: nat): seq<T>
    requires i < |q|
  {
    q[..i + 1] + q[i..]
  }

  function SenderStep(c: Config, st: System, e: Event): Option<System>
    requires c.Valid()
  {
    if e.Rx? && (st.toS == [] || st.toS[0] != e.reply) then None
    else
      match Send(c, st.s, e)
      case None => None
      case Some(s) =>
        Some(System(s, st.r, if e.Tx? then st.toR + [e.frame] else st.toR, if e.Rx? then st.toS[1..] else st.toS))
  }

  function Next(c: Config, st: System, step: Step): Option<System>
    requires c.Valid()
  {
    match step
    case SenderMoves(e) => SenderStep(c, st, e)
    case Deliver =>
      if st.toR == [] || !st.r.mode.Receiving? then None
      else
        var (r, replies) := Receive(c.Announced(), c.compression, st.r, st.toR[0]);
        Some(st.(r := r, toR := st.toR[1..], toS := st.toS + replies))
    case PayloadTimesOut =>
      if st.toR == [] || !st.r.mode.Receiving? || !st.toR[0].Data? then None
      else Some(st.(toR := st.toR[1..], toS := st.toS + [Drop(st.r.expected)]))
    case LoseFrame(i) => if i < |st.toR| then Some(st.(toR := Without(st.toR, i))) else None
    case LoseReply(i) => if i < |st.toS| then Some(st.(toS := Without(st.toS, i))) else None
    case RepeatFrame(i) => if i < |st.toR| then Some(st.(toR := Twice(st.toR, i))) else None
    case RepeatReply(i) => if i < |st.toS| then Some(st.(toS := Twice(st.toS, i))) else None
    case DamageFrame(i, payload) =>
      if i < |st.toR| && st.toR[i].Data? && |payload| == |st.toR[i].payload|
         && !Clean(st.toR[i].(payload := payload))
      then Some(st.(toR := st.toR[i := st.toR[i].(payload := payload)]))
      else None
  }

  /** The state after a run, if every step of it was possible. */
  function Exec(c: Config, steps: seq<Step>): Option<System>
    requires c.Valid()
  {
    if steps == [] then Some(Initial(c))
    else
      match Exec(c, steps[..|steps| - 1])
      case None => None
      case Some(st) => Next(c, st, steps[|steps| - 1])
  }

  /** No block is ever repeated in this run; other lines may be, in both directions. */
  predicate BlocksOnce(c: Config, steps: seq<Step>)
    requires c.Valid()
  {
    steps == []
    || var before, last := steps[..|steps| - 1], steps[|steps| - 1];
       && BlocksOnce(c, before)
       && (last.RepeatFrame? && Exec(c, before).Some? ==>
             var q := Exec(c, before).value.toR; last.i < |q| ==> !q[last.i].Data?)
  }
}
