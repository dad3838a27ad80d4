/**
  Safety of whole transfers over a line that may lose, damage and repeat lines: an invariant that relates the two
  ends and both queues, proved for every step, and what follows from it for every run.
*/
module TransferSafety {
  import opened Basics
  import opened Lz4Format
  import opened Crc32
  import opened Transfer
  import opened TransferQueues

  // ---- blocks -----------------------------------------------------------------

  lemma BlockExtends(c: Config, k: nat)
    requires c.Valid()
    ensures c.Prefix(0) == []
    ensures c.Prefix(k) + c.Block(k) == c.Prefix(k + 1)
    ensures |c.Block(k)| == Min(c.blockSize, |c.data| - |c.Prefix(k)|)
  {
    assert (k + 1) * c.blockSize == k * c.blockSize + c.blockSize;
  }

  lemma CeilingCovers(size: nat, unit: nat)
    requires unit >= 1
    ensures (size + unit - 1) / unit * unit >= size
  {
  }

  lemma BlocksCover(c: Config)
    requires c.Valid()
    ensures c.Prefix(c.Blocks()) == c.data && c.Blocks() >= 1
  {
    CeilingCovers(|c.data|, c.blockSize);
    var n := (|c.data| + c.blockSize - 1) / c.blockSize;
    if n < 1 {
      assert c.Blocks() == 1;
    }
  }

  function RawFrame(c: Config, k: nat): Frame {
    Data(k, false, |c.Block(k)|, Crc(0, c.Block(k)), c.Block(k))
  }

  /** A raw block passes the receiver's checks. */
  lemma RawCarries(c: Config, k: nat)
    requires c.Valid() && k < c.Blocks()
    ensures Carries(c, RawFrame(c, k))
  {
    hide Crc;
    BlockExtends(c, k);
  }

  /** A block in its packed form passes the receiver's checks because the packed form is the shorter one. */
  lemma PackedCarries(c: Config, k: nat, f: Frame)
    requires c.Valid() && k < c.Blocks() && |c.Block(k)| <= c.blockSize && c.compression
    requires f.Data? && f.packed && f.seqno == k && f.rawLen == |c.Block(k)| && f.want == Crc(0, c.Block(k))
    requires Decode(f.payload) == Some(c.Block(k)) && |f.payload| < |c.Block(k)|
    ensures Carries(c, f)
  {
    hide Crc, Decode;
  }

  // ---- the invariant ------------------------------------------------------------

  /** A frame whose damage, if any, shows. */
  predicate Sound(c: Config, f: Frame)
    requires c.Valid() && f.Data?
  {
    && HeaderFits(c.Announced(), f)
    && (f.packed ==> c.compression)
    && (Clean(f) ==> Plain(f) == Some(c.Block(f.seqno)))
  }

  /** DONE has been sent. */
  predicate DoneSent(s: Sender) {
    s.phase.AwaitOk? || s.phase.Complete? || s.phase == Abort(NoConfirmation)
  }

  ghost predicate ReceiverOk(c: Config, r: Receiver)
    requires c.Valid()
  {
    && r.expected <= c.Blocks()
    && r.file == c.Prefix(r.expected) && r.received == |r.file| && r.running == Crc(0, r.file)
    && (r.mode.Finished? ==> r.mode.ok && r.expected == c.Blocks())
    && (r.mode.Failed? ==> r.mode.why == TooManyResets)
  }

  ghost predicate SenderOk(c: Config, s: Sender)
    requires c.Valid()
  {
    && s.base <= s.next <= c.Blocks() && s.next <= s.base + c.window && 1 <= s.cwnd <= c.window
    && (s.base == 0 ==> s.cwnd == 1 && s.next <= 1)
    && s.resets <= MAX_RESETS
    && (s.phase.ProbeRead? ==> s.phase.probe == s.lastToken)
    && (s.phase.ResetWrite? ==> s.phase.reset == s.lastToken)
    && (s.phase.ResetRead? ==> s.phase.reset == s.lastToken)
    && (s.phase.BarrierWrite? ==> s.phase.barrier == s.lastToken && (s.phase.job.AfterNak? ==> s.cwnd == 1))
    && (s.phase.BarrierRead? ==> s.phase.barrier == s.lastToken && (s.phase.job.AfterNak? ==> s.cwnd == 1))
    && (s.phase.AwaitOk? ==> s.base == c.Blocks())
  }

  predicate FrameOk(c: Config, s: Sender, f: Frame)
    requires c.Valid()
  {
    match f
    case Data(seqno, _, _, _, _) => Sound(c, f) && seqno < s.next
    case Ayt(t) => t <= s.lastToken
    case Barrier(t) => t <= s.lastToken
    case Reset(t) => t <= s.lastToken
    case Done(crc) => DoneSent(s) && crc == Crc(0, c.data)
    case _ => false
  }

  predicate ReplyOk(s: Sender, r: Receiver, y: Reply) {
    match y
    case Resume(t, _) => t <= s.lastToken
    case ResetAck(t) => t <= s.lastToken
    case Ok(crc) => r.mode == Finished(true) && crc == r.running
    case ResumeUnreadable(_) => false
    case Fail(_) => false
    case Bye => false
    case Blank(_) => false
    case Malformed(_) => false
    case _ => true
  }

  ghost predicate Core(c: Config, st: System)
    requires c.Valid()
  {
    && ReceiverOk(c, st.r) && SenderOk(c, st.s)
    && (forall f :: f in st.toR ==> FrameOk(c, st.s, f))
    && (forall y :: y in st.toS ==> ReplyOk(st.s, st.r, y))
    && (st.r.mode.Finished? ==> DoneSent(st.s))
  }

  /** Both ends agree: the receiver holds what has been acknowledged and no more than what has been sent. */
  ghost predicate InSync(st: System) {
    && st.s.base <= st.r.expected <= st.s.next
    && SelfReset !in st.toS
    && forall y :: y in st.toS && y.Ack? ==> y.n < st.r.expected
  }

  /** The receiver has reset itself and the sender has not learned of it. The sender cannot finish: nothing on the
      line acknowledges the last block, and nothing on the line is block 0. */
  ghost predicate Orphaned(c: Config, st: System)
    requires c.Valid()
  {
    && st.r.expected == 0 && st.r.resets >= 1
    && 0 < st.s.base < c.Blocks()
    && (forall y :: y in st.toS && y.Ack? ==> y.n < st.s.next && y.n + 1 < c.Blocks())
    && (forall f :: f in st.toR && f.Data? ==> f.seqno > 0)
  }

  ghost predicate Flowing(c: Config, st: System)
    requires c.Valid()
  {
    && Sorted(st.toR)
    && (forall f :: f in st.toR ==> !f.Reset?)
    && (forall y :: y in st.toS ==> !y.ResetAck?)
    && (InSync(st) || Orphaned(c, st))
  }

  /** Around a barrier: nothing follows it toward the receiver, nothing but its answers follows the first answer,
      and an answer on the line states the receiver's position and finds the other direction drained. */
  ghost predicate Fenced(st: System) {
    var t := st.s.lastToken;
    && Fence(st.toR, Barrier(t))
    && Fence(st.toS, Resume(t, st.r.expected))
    && forall y :: y in st.toS && y.Resume? && y.token == t ==>
         y.n == st.r.expected && forall f :: f in st.toR ==> f == Barrier(t)
  }

  /** The receiver is at zero and nothing on the line can move it. */
  ghost predicate Zeroed(st: System) {
    && st.r.expected == 0
    && (forall f :: f in st.toR && f.Data? ==> f.seqno > 0)
    && (forall f :: f in st.toR && f.Reset? ==> Some(f.token) == st.s.resetToken)
    && (forall y :: y in st.toS && y.ResetAck? ==> Some(y.token) == st.s.resetToken)
  }

  ghost predicate Resetting(st: System) {
    var t := st.s.lastToken;
    && Fence(st.toR, Reset(t))
    && (forall f :: f in st.toR && f.Reset? ==> f.token == t)
    && (forall y :: y in st.toS && y.ResetAck? ==>
          y.token == t && st.r.expected == 0 && forall f :: f in st.toR ==> f == Reset(t))
  }

  ghost predicate Closing(c: Config, st: System)
    requires c.Valid()
  {
    && st.r.expected == c.Blocks()
    && forall f :: f in st.toR ==> !f.Reset?
  }

  ghost predicate Coupled(c: Config, st: System)
    requires c.Valid()
  {
    match st.s.phase
    case ResetWrite(_, _, _) => Resetting(st)
    case ResetRead(_, _, _) => Resetting(st)
    case BarrierWrite(_, _, job) => Fenced(st) && if job.AfterNak? then Flowing(c, st) else Zeroed(st)
    case BarrierRead(_, _, job) => Fenced(st) && if job.AfterNak? then Flowing(c, st) else Zeroed(st)
    case AwaitOk => Closing(c, st)
    case Complete(verified) => Closing(c, st) && (verified ==> st.r.mode == Finished(true))
    case Abort(why) =>
      why != UnsentAck && why != NotZero && (why == NoConfirmation ==> Closing(c, st))
    case _ => Flowing(c, st)
  }

  ghost predicate Inv(c: Config, st: System)
    requires c.Valid()
  {
    Core(c, st) && Coupled(c, st)
  }

  lemma InvInitially(c: Config)
    requires c.Valid()
    ensures Inv(c, Initial(c))
  {
    BlockExtends(c, 0);
    CrcOfNothing(0);
    BlocksCover(c);
  }

  // ---- the line ------------------------------------------------------------------

  /** Losing or repeating lines keeps the invariant. */
  lemma InvIfCalmer(c: Config, st: System, toR: seq<Frame>, toS: seq<Reply>)
    requires c.Valid() && Inv(c, st) && CalmerFrames(toR, st.toR) && Calmer(toS, st.toS)
    ensures Inv(c, st.(toR := toR, toS := toS))
  {
    hide Crc, Sound, FrameOk, ReplyOk;
    var t := st.s.lastToken;
    assert Fence(st.toR, Barrier(t)) ==> Fence(toR, Barrier(t));
    assert Fence(st.toR, Reset(t)) ==> Fence(toR, Reset(t));
    assert Fence(st.toS, Resume(t, st.r.expected)) ==> Fence(toS, Resume(t, st.r.expected));
  }

  lemma DamageKeeps(c: Config, st: System, i: nat, payload: bytes)
    requires c.Valid() && Inv(c, st) && Next(c, st, DamageFrame(i, payload)).Some?
    ensures Inv(c, Next(c, st, DamageFrame(i, payload)).value)
  {
    hide Crc, Clean, ReplyOk, HeaderFits;
    var f := st.toR[i];
    var g := f.(payload := payload);
    var toR := st.toR[i := g];
    assert f in st.toR && FrameOk(c, st.s, f);
    assert FrameOk(c, st.s, g) by {
      DamageFits(c.Announced(), f, payload);
    }
    DamageStaysSorted(st.toR, i, g);
    DamageMembers(st.toR, i, g);
    DamageFences(st.toR, i, g);
  }

  lemma DamageFits(m: Meta, f: Frame, payload: bytes)
    requires f.Data? && |payload| == |f.payload|
    ensures HeaderFits(m, f.(payload := payload)) == HeaderFits(m, f)
  {
  }

  lemma DamageStaysSorted(q: seq<Frame>, i: nat, g: Frame)
    requires i < |q| && q[i].Data? && g.Data? && g.seqno == q[i].seqno
    ensures Sorted(q) ==> Sorted(q[i := g])
    ensures Increasing(q) ==> Increasing(q[i := g])
  {
  }

  lemma DamageMembers(q: seq<Frame>, i: nat, g: Frame)
    requires i < |q|
    ensures forall f :: f in q[i := g] ==> f in q || f == g
  {
  }

  lemma DamageFences(q: seq<Frame>, i: nat, g: Frame)
    requires i < |q| && q[i].Data? && g.Data?
    ensures forall x: Frame :: !x.Data? && Fence(q, x) ==> Fence(q[i := g], x)
  {
    forall x: Frame | !x.Data? && Fence(q, x)
      ensures Fence(q[i := g], x)
    {
      var p := q[i := g];
      forall k, j | 0 <= k <= j < |p| && p[k] == x
        ensures p[j] == x
      {
        assert q[k] == x && q[j] == x;
      }
    }
  }

  // ---- the receiver ------------------------------------------------------------------

  /** Everything a sound data frame can do to the receiver. */
  ghost predicate DataOutcome(r: Receiver, seqno: nat, r2: Receiver, y: Reply) {
    || (r2 == r && y == Nak(r.expected))
    || (r2 == r && seqno < r.expected && y == Ack(r.expected - 1))
    || (&& seqno > r.expected && r.drops + 1 < MAX_DROPS && r2 == r.(drops := r.drops + 1)
        && y == Drop(r.expected))
    || (&& seqno > r.expected && r.drops + 1 >= MAX_DROPS && r2.mode == Failed(TooManyResets)
        && r2.expected == r.expected && r2.resets == r.resets + 1 && y == Err)
    || (&& seqno > r.expected && r.drops + 1 >= MAX_DROPS && r2.mode == r.mode
        && r2.expected == 0 && r2.resets == r.resets + 1 && y == SelfReset)
    || (&& seqno == r.expected && r2.mode == r.mode
        && r2.expected == r.expected + 1 && r2.resets == r.resets && r2.drops == 0 && y == Ack(seqno))
  }

  /** The next block fits and extends what has been received. */
  lemma CommitFits(c: Config, r: Receiver)
    requires c.Valid() && ReceiverOk(c, r) && r.expected < c.Blocks()
    ensures var b := c.Block(r.expected);
            && |b| == Min(c.blockSize, |c.data| - r.received)
            && r.file + b == c.Prefix(r.expected + 1)
            && Crc(r.running, b) == Crc(0, c.Prefix(r.expected + 1))
  {
    hide Crc;
    BlockExtends(c, r.expected);
    CrcContinues(0, r.file, c.Block(r.expected));
  }

  lemma CleanHas(c: Config, r: Receiver, seqno: nat)
    requires c.Valid() && ReceiverOk(c, r) && r.mode.Receiving? && seqno < c.Blocks()
    ensures var (r2, ys) := ReceiveClean(c.Announced(), r, seqno, c.Block(seqno));
            |ys| == 1 && ReceiverOk(c, r2) && DataOutcome(r, seqno, r2, ys[0])
  {
    hide ReceiveClean, ReceiverOk, DataOutcome, Crc;
    if seqno == r.expected {
      CommitHas(c, r);
    } else {
      OtherHas(c, r, seqno);
    }
  }

  lemma OtherHas(c: Config, r: Receiver, seqno: nat)
    requires c.Valid() && ReceiverOk(c, r) && r.mode.Receiving? && seqno != r.expected
    ensures var (r2, ys) := ReceiveClean(c.Announced(), r, seqno, c.Block(seqno));
            |ys| == 1 && ReceiverOk(c, r2) && DataOutcome(r, seqno, r2, ys[0])
  {
    hide Crc;
    ReceiverOkAtZero(c);
  }

  lemma CommitHas(c: Config, r: Receiver)
    requires c.Valid() && ReceiverOk(c, r) && r.mode.Receiving? && r.expected < c.Blocks()
    ensures var (r2, ys) := ReceiveClean(c.Announced(), r, r.expected, c.Block(r.expected));
            |ys| == 1 && ReceiverOk(c, r2) && DataOutcome(r, r.expected, r2, ys[0])
  {
    hide Crc;
    CommitFits(c, r);
    hide c.Block, c.Prefix;
  }

  lemma ReceiverOkAtZero(c: Config)
    requires c.Valid()
    ensures c.Prefix(0) == [] && Crc(0, []) == 0
  {
    BlockExtends(c, 0);
    CrcOfNothing(0);
  }

  lemma DataHas(c: Config, r: Receiver, f: Frame)
    requires c.Valid() && ReceiverOk(c, r) && r.mode.Receiving? && f.Data? && Sound(c, f)
    ensures var (r2, ys) := ReceiveData(c.Announced(), c.compression, r, f);
            |ys| == 1 && ReceiverOk(c, r2) && DataOutcome(r, f.seqno, r2, ys[0])
  {
    hide Crc, Plain, ReceiverOk, ReceiveClean, Clean;
    if Clean(f) {
      CleanHas(c, r, f.seqno);
    }
  }

  /** The head of the queue has been read: the rest still satisfies the invariant. */
  lemma HeadRead(c: Config, st: System)
    requires c.Valid() && Inv(c, st) && st.toR != []
    ensures Inv(c, st.(toR := st.toR[1..])) && FrameOk(c, st.s, st.toR[0])
    ensures FencedBehind(st.(toR := st.toR[1..]), st.toR[0])
    ensures DataBehind(st.(toR := st.toR[1..]), st.toR[0])
    ensures ResetBehind(st.(toR := st.toR[1..]), st.toR[0])
  {
    FramesTailIsCalmer(st.toR);
    CalmerSame(st.toS);
    InvIfCalmer(c, st, st.toR[1..], st.toS);
    assert st.toR[0] in st.toR;
    HeadFences(c, st);
    HeadOrder(c, st);
    HeadResets(c, st);
  }

  lemma HeadFences(c: Config, st: System)
    requires c.Valid() && Coupled(c, st) && SenderOk(c, st.s) && st.toR != []
    ensures FencedBehind(st.(toR := st.toR[1..]), st.toR[0])
  {
    hide Flowing, Zeroed, Closing;
    assert st.toR[0] in st.toR;
    HeadIsFence(st.toR, Barrier(st.s.lastToken));
    HeadIsFence(st.toR, Reset(st.s.lastToken));
  }

  lemma HeadOrder(c: Config, st: System)
    requires c.Valid() && Coupled(c, st) && st.toR != []
    ensures DataBehind(st.(toR := st.toR[1..]), st.toR[0])
  {
    hide Fenced, Resetting, Closing;
    assert st.toR[0] in st.toR;
    HeadIsLeast(st.toR);
  }

  lemma HeadResets(c: Config, st: System)
    requires c.Valid() && Coupled(c, st) && st.toR != []
    ensures ResetBehind(st.(toR := st.toR[1..]), st.toR[0])
  {
    hide Fenced;
    assert st.toR[0] in st.toR;
  }

  lemma HeadIsLeast(q: seq<Frame>)
    requires q != []
    ensures Sorted(q) && q[0].Data? ==> forall g :: g in q[1..] && g.Data? ==> q[0].seqno <= g.seqno
  {
    forall g | g in q[1..] && g.Data? && Sorted(q) && q[0].Data?
      ensures q[0].seqno <= g.seqno
    {
      var k :| 1 <= k < |q| && q[k] == g;
    }
  }

  lemma HeadIsFence(q: seq<Frame>, x: Frame)
    requires q != []
    ensures Fence(q, x) && q[0] == x ==> forall y :: y in q[1..] ==> y == x
  {
    if Fence(q, x) && q[0] == x {
      FenceAtHead(q, x);
    }
  }

  predicate InBarrier(s: Sender) {
    s.phase.BarrierWrite? || s.phase.BarrierRead?
  }

  predicate InReset(s: Sender) {
    s.phase.ResetWrite? || s.phase.ResetRead?
  }

  /** The sender fills the window, waits or probes. */
  predicate InWindow(s: Sender) {
    s.phase.Fill? || s.phase.Wait? || s.phase.Guard? || s.phase.ProbeWrite? || s.phase.ProbeRead?
  }

  /** The phases in which `Flowing` holds. */
  predicate Flows(s: Sender) {
    InWindow(s) || (InBarrier(s) && !RecoversReset(s))
  }

  predicate RecoversReset(s: Sender) {
    (s.phase.BarrierWrite? && s.phase.job.AfterReset?) || (s.phase.BarrierRead? && s.phase.job.AfterReset?)
  }

  /** What is known of a frame `f` that stood first in the queue: the fences, ... */
  ghost predicate FencedBehind(st: System, f: Frame) {
    var t := st.s.lastToken;
    && (InBarrier(st.s) ==> f == Barrier(t) || forall y :: y in st.toS && y.Resume? ==> y.token != t)
    && (InBarrier(st.s) && f == Barrier(t) ==> forall g :: g in st.toR ==> g == f)
    && (InReset(st.s) ==> f == Reset(t) || forall y :: y in st.toS ==> !y.ResetAck?)
    && (InReset(st.s) && f == Reset(t) ==> forall g :: g in st.toR ==> g == f)
  }

  /** ... the order of the blocks, ... */
  ghost predicate DataBehind(st: System, f: Frame) {
    f.Data? ==>
      && (Flows(st.s) && !InSync(st) ==> f.seqno > 0)
      && (Flows(st.s) ==> forall g :: g in st.toR && g.Data? ==> f.seqno <= g.seqno)
      && (RecoversReset(st.s) ==> f.seqno > 0)
  }

  /** ... and where a reset request can be. */
  ghost predicate ResetBehind(st: System, f: Frame) {
    f.Reset? ==>
      || (InReset(st.s) && f.token == st.s.lastToken)
      || (RecoversReset(st.s) && Some(f.token) == st.s.resetToken)
      || (st.s.phase.Abort? && !DoneSent(st.s))
  }

  /** Replies that tell the sender nothing it would act on wrongly. */
  predicate Harmless(y: Reply, expected: nat) {
    y.Nak? || y.Drop? || y.Here? || y.Err? || (y.Ack? && y.n < expected)
  }

  /** Lines of one member more. */
  lemma Appended<T>(q: seq<T>, x: T)
    ensures forall y :: y in q + [x] <==> y in q || y == x
  {
  }

  /** No answer to the current barrier is on the line yet. */
  ghost predicate Unanswered(st: System) {
    InBarrier(st.s) ==> forall y :: y in st.toS && y.Resume? ==> y.token != st.s.lastToken
  }

  lemma QuietFence(toS: seq<Reply>, t: nat, n: nat, y: Reply)
    requires forall z :: z in toS && z.Resume? ==> z.token != t
    requires !(y.Resume? && y.token == t)
    ensures Fence(toS + [y], Resume(t, n))
    ensures forall z :: z in toS + [y] && z.Resume? ==> z.token != t
  {
    Appended(toS, y);
    FenceAbsent(toS + [y], Resume(t, n));
  }

  lemma DeliverQuiet(c: Config, st: System, r2: Receiver, y: Reply)
    requires c.Valid() && Inv(c, st) && Unanswered(st)
    requires ReceiverOk(c, r2) && r2.expected == st.r.expected && r2.resets >= st.r.resets
    requires !r2.mode.Finished? && st.r.mode.Receiving? && Harmless(y, st.r.expected)
    ensures Inv(c, System(st.s, r2, st.toR, st.toS + [y]))
  {
    hide Crc, FrameOk, ReceiverOk, SenderOk;
    Appended(st.toS, y);
    if InBarrier(st.s) {
      QuietFence(st.toS, st.s.lastToken, r2.expected, y);
    }
  }

  /** A reply at the end of its queue and a moved receiver leave the core of the invariant alone. */
  lemma CoreDelivered(c: Config, st: System, r2: Receiver, y: Reply)
    requires c.Valid() && Core(c, st) && st.r.mode.Receiving?
    requires ReceiverOk(c, r2) && !r2.mode.Finished? && ReplyOk(st.s, r2, y)
    ensures Core(c, System(st.s, r2, st.toR, st.toS + [y]))
  {
    hide Crc, FrameOk, ReceiverOk, SenderOk;
    Appended(st.toS, y);
  }

  lemma CommitFlows(c: Config, st: System, f: Frame, r2: Receiver)
    requires c.Valid() && Flowing(c, st)
    requires f.Data? && f.seqno == st.r.expected < st.s.next && (!InSync(st) ==> f.seqno > 0)
    requires r2.expected == st.r.expected + 1
    ensures Flowing(c, System(st.s, r2, st.toR, st.toS + [Ack(f.seqno)]))
  {
    Appended(st.toS, Ack(f.seqno));
  }

  lemma CommitCoupled(c: Config, st: System, f: Frame, r2: Receiver)
    requires c.Valid() && Coupled(c, st) && Unanswered(st) && DataBehind(st, f) && FencedBehind(st, f)
    requires f.Data? && f.seqno == st.r.expected < st.s.next && f.seqno < c.Blocks()
    requires r2.expected == st.r.expected + 1
    ensures Coupled(c, System(st.s, r2, st.toR, st.toS + [Ack(f.seqno)]))
  {
    hide Flowing, InSync;
    var y := Ack(f.seqno);
    if Flows(st.s) {
      CommitFlows(c, st, f, r2);
    }
    Appended(st.toS, y);
    if InBarrier(st.s) {
      QuietFence(st.toS, st.s.lastToken, r2.expected, y);
    }
  }

  lemma DeliverCommit(c: Config, st: System, f: Frame, r2: Receiver)
    requires c.Valid() && Inv(c, st) && Unanswered(st) && st.r.mode.Receiving?
    requires f.Data? && FrameOk(c, st.s, f) && f.seqno == st.r.expected && DataBehind(st, f) && FencedBehind(st, f)
    requires ReceiverOk(c, r2) && r2.expected == st.r.expected + 1 && r2.mode.Receiving?
    ensures Inv(c, System(st.s, r2, st.toR, st.toS + [Ack(f.seqno)]))
  {
    FrameNumber(c, st.s, f);
    hide Coupled, Core, FrameOk, ReceiverOk, DataBehind, FencedBehind;
    CoreDelivered(c, st, r2, Ack(f.seqno));
    CommitCoupled(c, st, f, r2);
  }

  lemma FrameNumber(c: Config, s: Sender, f: Frame)
    requires c.Valid() && f.Data? && FrameOk(c, s, f)
    ensures f.seqno < s.next && f.seqno < c.Blocks()
  {
  }

  lemma BecomesOrphan(c: Config, st: System, f: Frame, r2: Receiver)
    requires c.Valid() && Core(c, st) && Flowing(c, st)
    requires f.Data? && FrameOk(c, st.s, f) && f.seqno > st.r.expected
    requires forall g :: g in st.toR && g.Data? ==> f.seqno <= g.seqno
    requires r2.expected == 0 && r2.resets == st.r.resets + 1
    ensures Orphaned(c, System(st.s, r2, st.toR, st.toS + [SelfReset]))
  {
    hide Crc, FrameOk, ReceiverOk, ReplyOk, Sorted, Orphaned, InSync;
    FrameNumber(c, st.s, f);
    Appended(st.toS, SelfReset);
    OrphanNumbers(c, st, f.seqno);
    StillOrphaned(c, System(st.s, r2, st.toR, st.toS + [SelfReset]));
  }

  /** A gap means that something, but not everything, has been acknowledged. */
  lemma OrphanNumbers(c: Config, st: System, seqno: nat)
    requires c.Valid() && SenderOk(c, st.s) && (InSync(st) || Orphaned(c, st))
    requires st.r.expected < seqno < st.s.next && seqno < c.Blocks()
    ensures 0 < st.s.base < c.Blocks()
    ensures forall y :: y in st.toS && y.Ack? ==> y.n < st.s.next && y.n + 1 < c.Blocks()
  {
  }

  lemma StillOrphaned(c: Config, st: System)
    requires c.Valid() && st.r.expected == 0 && st.r.resets >= 1 && 0 < st.s.base < c.Blocks()
    requires forall y :: y in st.toS && y.Ack? ==> y.n < st.s.next && y.n + 1 < c.Blocks()
    requires forall f :: f in st.toR && f.Data? ==> f.seqno > 0
    ensures Orphaned(c, st)
  {
  }

  lemma SelfResetCoupled(c: Config, st: System, f: Frame, r2: Receiver)
    requires c.Valid() && Coupled(c, st) && Unanswered(st) && DataBehind(st, f) && FencedBehind(st, f)
    requires f.Data? && st.r.expected < f.seqno < st.s.next && f.seqno < c.Blocks()
    requires r2.expected == 0
    requires Flows(st.s) ==> Orphaned(c, System(st.s, r2, st.toR, st.toS + [SelfReset]))
    ensures Coupled(c, System(st.s, r2, st.toR, st.toS + [SelfReset]))
  {
    hide Orphaned, InSync;
    Appended(st.toS, SelfReset);
    if InBarrier(st.s) {
      QuietFence(st.toS, st.s.lastToken, 0, SelfReset);
    }
  }

  lemma DeliverSelfReset(c: Config, st: System, f: Frame, r2: Receiver)
    requires c.Valid() && Inv(c, st) && Unanswered(st) && st.r.mode.Receiving?
    requires f.Data? && FrameOk(c, st.s, f) && f.seqno > st.r.expected && DataBehind(st, f) && FencedBehind(st, f)
    requires ReceiverOk(c, r2) && r2.expected == 0 && r2.resets == st.r.resets + 1 && r2.mode.Receiving?
    ensures Inv(c, System(st.s, r2, st.toR, st.toS + [SelfReset]))
  {
    FrameNumber(c, st.s, f);
    hide Core, FrameOk, ReceiverOk, FencedBehind, Orphaned, Flowing;
    CoreDelivered(c, st, r2, SelfReset);
    if Flows(st.s) {
      BecomesOrphan(c, st, f, r2);
    }
    SelfResetCoupled(c, st, f, r2);
  }

  lemma DeliverBarrier(c: Config, st: System, t: nat)
    requires c.Valid() && Inv(c, st) && st.r.mode.Receiving? && t <= st.s.lastToken
    requires FencedBehind(st, Barrier(t))
    ensures Inv(c, st.(toS := st.toS + [Resume(t, st.r.expected)]))
  {
    hide Crc, FrameOk, ReceiverOk, SenderOk;
    var y := Resume(t, st.r.expected);
    Appended(st.toS, y);
    if InBarrier(st.s) {
      if t == st.s.lastToken {
        FenceAppend(st.toS, y, y);
      } else {
        QuietFence(st.toS, st.s.lastToken, st.r.expected, y);
      }
    }
  }

  lemma DeliverReset(c: Config, st: System, t: nat, r2: Receiver)
    requires c.Valid() && Inv(c, st) && Unanswered(st) && st.r.mode.Receiving? && t <= st.s.lastToken
    requires FencedBehind(st, Reset(t)) && ResetBehind(st, Reset(t))
    requires ReceiverOk(c, r2) && r2.expected == 0 && r2.mode.Receiving?
    ensures Inv(c, System(st.s, r2, st.toR, st.toS + [ResetAck(t)]))
  {
    hide Crc, FrameOk, ReceiverOk, SenderOk, Flowing;
    var y := ResetAck(t);
    Appended(st.toS, y);
    if InBarrier(st.s) {
      QuietFence(st.toS, st.s.lastToken, 0, y);
    }
  }

  lemma DeliverDone(c: Config, st: System, crc: bv32)
    requires c.Valid() && Inv(c, st) && st.r.mode.Receiving? && DoneSent(st.s) && crc == Crc(0, c.data)
    ensures var (r2, ys) := ReceiveDone(c.Announced(), st.r, crc);
            r2.mode == Finished(true) && Inv(c, System(st.s, r2, st.toR, st.toS + ys))
  {
    BlocksCover(c);
    hide Crc, FrameOk, SenderOk;
    Appended(st.toS, Ok(st.r.running));
  }

  lemma DataDelivered(c: Config, st: System, f: Frame, r2: Receiver, y: Reply)
    requires c.Valid() && Inv(c, st) && st.r.mode.Receiving?
    requires f.Data? && FrameOk(c, st.s, f) && DataBehind(st, f) && FencedBehind(st, f)
    requires ReceiverOk(c, r2) && DataOutcome(st.r, f.seqno, r2, y)
    ensures Inv(c, System(st.s, r2, st.toR, st.toS + [y]))
  {
    DataUnanswered(st, f);
    hide Crc, Inv, FrameOk, ReceiverOk, DataBehind, FencedBehind, Unanswered;
    if y.SelfReset? {
      DeliverSelfReset(c, st, f, r2);
    } else if r2.expected == st.r.expected + 1 {
      DeliverCommit(c, st, f, r2);
    } else {
      DeliverQuiet(c, st, r2, y);
    }
  }

  lemma DataUnanswered(st: System, f: Frame)
    requires FencedBehind(st, f) && !f.Barrier?
    ensures Unanswered(st)
  {
  }

  lemma DeliverData(c: Config, st: System, f: Frame, rest: System)
    requires c.Valid() && Inv(c, rest) && st.r == rest.r && st.r.mode.Receiving?
    requires f.Data? && FrameOk(c, rest.s, f) && DataBehind(rest, f) && FencedBehind(rest, f)
    ensures var (r2, ys) := ReceiveData(c.Announced(), c.compression, st.r, f);
            Inv(c, System(rest.s, r2, rest.toR, rest.toS + ys))
  {
    InvHasReceiver(c, rest);
    hide Crc, Inv, DataBehind, FencedBehind, Sound, ReceiveData, DataOutcome, ReceiverOk;
    DataHas(c, st.r, f);
    var (r2, ys) := ReceiveData(c.Announced(), c.compression, st.r, f);
    DataDelivered(c, rest, f, r2, ys[0]);
    assert ys == [ys[0]];
  }

  lemma DeliverKeeps(c: Config, st: System)
    requires c.Valid() && Inv(c, st) && Next(c, st, Deliver).Some?
    ensures Inv(c, Next(c, st, Deliver).value)
  {
    HeadRead(c, st);
    var f, rest := st.toR[0], st.(toR := st.toR[1..]);
    InvHasReceiver(c, st);
    ReceiverOkAtZero(c);
    hide Crc, Inv, DataBehind, FencedBehind, ResetBehind, Unanswered, Sound, ReceiveData, ReceiveDone, DataOutcome;
    match f
    case Data(_, _, _, _, _) => DeliverData(c, st, f, rest);
    case Ayt(t) =>
      DataUnanswered(rest, f);
      DeliverQuiet(c, rest, st.r, Here(t, st.r.expected));
    case Barrier(t) =>
      DeliverBarrier(c, rest, t);
    case Reset(t) =>
      DataUnanswered(rest, f);
      var (r2, _) := Receive(c.Announced(), c.compression, st.r, f);
      DeliverReset(c, rest, t, r2);
    case Done(crc) =>
      DeliverDone(c, rest, crc);
  }

  lemma InvHasReceiver(c: Config, st: System)
    requires c.Valid() && Inv(c, st)
    ensures ReceiverOk(c, st.r)
  {
  }

  lemma PayloadTimesOutKeeps(c: Config, st: System)
    requires c.Valid() && Inv(c, st) && Next(c, st, PayloadTimesOut).Some?
    ensures Inv(c, Next(c, st, PayloadTimesOut).value)
  {
    HeadRead(c, st);
    var rest := st.(toR := st.toR[1..]);
    DataUnanswered(rest, st.toR[0]);
    InvHasReceiver(c, st);
    hide Inv, FrameOk, ReceiverOk, FencedBehind, DataBehind, ResetBehind, Unanswered;
    DeliverQuiet(c, rest, st.r, Drop(st.r.expected));
  }

  // ---- the sender ----------------------------------------------------------------------

  /** A sender that has drawn more tokens and rewound nothing leaves the core of the invariant alone. */
  lemma CoreIfSender(c: Config, st: System, s2: Sender)
    requires c.Valid() && Core(c, st) && SenderOk(c, s2)
    requires s2.lastToken >= st.s.lastToken && (DoneSent(st.s) ==> DoneSent(s2))
    requires s2.next >= st.s.next || forall f :: f in st.toR ==> !f.Data?
    ensures Core(c, st.(s := s2))
  {
    hide Crc, Sound, ReceiverOk, SenderOk, DoneSent;
  }

  /** Nothing on the line carries a token that has not been drawn yet. */
  lemma FreshFence(c: Config, st: System, s2: Sender)
    requires c.Valid() && Core(c, st) && s2.lastToken == st.s.lastToken + 1
    ensures Fenced(st.(s := s2))
  {
    hide Crc, Sound, ReceiverOk, SenderOk, DoneSent;
    var t := s2.lastToken;
    assert forall f :: f in st.toR ==> FrameOk(c, st.s, f);
    assert Barrier(t) !in st.toR;
    assert Resume(t, st.r.expected) !in st.toS;
    FenceAbsent(st.toR, Barrier(t));
    FenceAbsent(st.toS, Resume(t, st.r.expected));
  }

  lemma FreshReset(c: Config, st: System, s2: Sender)
    requires c.Valid() && Flowing(c, st)
    ensures Resetting(st.(s := s2))
  {
    FenceAbsent(st.toR, Reset(s2.lastToken));
  }

  /** What `Handle` may be given while the line flows. */
  ghost predicate Credible(c: Config, st: System, y: Reply)
    requires c.Valid()
  {
    && (y.Ack? ==> y.n < st.s.next && (InSync(st) ==> y.n < st.r.expected) && (!InSync(st) ==> y.n + 1 < c.Blocks()))
    && (y.SelfReset? ==> Orphaned(c, st))
  }

  lemma FlowingZeroes(c: Config, st: System)
    requires c.Valid() && Flowing(c, st) && Orphaned(c, st)
    ensures Zeroed(st)
  {
  }

  lemma HandleAdvances(c: Config, st: System, n: nat, late: bool, again: bool)
    requires c.Valid() && Core(c, st) && Flowing(c, st) && Flows(st.s) && !InBarrier(st.s)
    requires Credible(c, st, Ack(n)) && n >= st.s.base
    ensures Inv(c, st.(s := Handle(c, st.s, Ack(n), late, again)))
  {
    var s2 := Handle(c, st.s, Ack(n), late, again);
    assert SenderOk(c, s2) by {
      hide ReceiverOk, FrameOk, ReplyOk;
    }
    CoreIfSender(c, st, s2);
    assert Flowing(c, st.(s := s2)) by {
      hide Core;
    }
    hide Core, Flowing;
  }

  lemma HandleOk(c: Config, s: Sender, y: Reply, late: bool, again: bool)
    requires c.Valid() && SenderOk(c, s) && (y.Ack? ==> y.n < s.next)
    ensures var s2 := Handle(c, s, y, late, again);
            SenderOk(c, s2) && s.lastToken <= s2.lastToken && s2.next == s.next
  {
  }

  lemma HandleKeeps(c: Config, st: System, y: Reply, late: bool, again: bool)
    requires c.Valid() && Core(c, st) && Flowing(c, st) && InWindow(st.s) && Credible(c, st, y)
    ensures Inv(c, st.(s := Handle(c, st.s, y, late, again)))
  {
    if y.Ack? && y.n >= st.s.base {
      HandleAdvances(c, st, y.n, late, again);
    } else if y.SelfReset? || y.Blank? || IsNakOrDrop(y) {
      HandleRecovers(c, st, y, late, again);
    } else {
      HandleStays(c, st, y, late, again);
    }
  }

  lemma HandleRecovers(c: Config, st: System, y: Reply, late: bool, again: bool)
    requires c.Valid() && Core(c, st) && Flowing(c, st) && InWindow(st.s) && Credible(c, st, y)
    requires y.SelfReset? || y.Blank? || IsNakOrDrop(y)
    ensures Inv(c, st.(s := Handle(c, st.s, y, late, again)))
  {
    hide SenderOk, ReceiverOk, FrameOk, ReplyOk, Fenced, Zeroed, Sorted;
    var s2 := Handle(c, st.s, y, late, again);
    HandleOk(c, st.s, y, late, again);
    CoreIfSender(c, st, s2);
    if s2.phase.BarrierWrite? {
      FreshFence(c, st, s2);
      if y.SelfReset? {
        FlowingZeroes(c, st);
        ZeroedAnyway(st, s2);
      }
    }
    hide Core;
  }

  lemma ZeroedAnyway(st: System, s2: Sender)
    requires Zeroed(st) && s2.resetToken == st.s.resetToken
    ensures Zeroed(st.(s := s2))
  {
  }

  lemma FlowingAnyway(c: Config, st: System, s2: Sender)
    requires c.Valid() && Flowing(c, st) && s2.base == st.s.base && s2.next == st.s.next
    ensures Flowing(c, st.(s := s2))
  {
  }

  lemma HandleStays(c: Config, st: System, y: Reply, late: bool, again: bool)
    requires c.Valid() && Core(c, st) && Flowing(c, st) && InWindow(st.s) && Credible(c, st, y)
    requires !(y.Ack? && y.n >= st.s.base) && !y.SelfReset? && !y.Blank? && !IsNakOrDrop(y)
    ensures Inv(c, st.(s := Handle(c, st.s, y, late, again)))
  {
    hide SenderOk, ReceiverOk, FrameOk, ReplyOk, Flowing;
    var s2 := Handle(c, st.s, y, late, again);
    HandleOk(c, st.s, y, late, again);
    CoreIfSender(c, st, s2);
    FlowingAnyway(c, st, s2);
    hide Core;
  }

  /** The state once the line at the head of the queue toward the sender has been read. */
  function LineRead(st: System): System
    requires st.toS != []
  {
    st.(toS := st.toS[1..])
  }

  lemma LineReadKeeps(c: Config, st: System)
    requires c.Valid() && Inv(c, st) && st.toS != []
    ensures Inv(c, LineRead(st)) && ReplyOk(st.s, st.r, st.toS[0]) && st.toS[0] in st.toS
  {
    TailIsCalmer(st.toS);
    CalmerSame(st.toR);
    InvIfCalmer(c, st, st.toR, st.toS[1..]);
  }

  lemma LineIsCredible(c: Config, st: System)
    requires c.Valid() && Flowing(c, st) && st.s.base <= st.s.next && st.r.expected <= c.Blocks() && st.toS != []
    ensures Credible(c, LineRead(st), st.toS[0])
  {
    TailIsCalmer(st.toS);
    var y := st.toS[0];
    assert y in st.toS;
    if InSync(st) {
      assert InSync(LineRead(st));
    }
  }

  lemma WindowLine(c: Config, st: System, late: bool, again: bool)
    requires c.Valid() && Inv(c, st) && InWindow(st.s) && st.toS != []
    ensures Inv(c, LineRead(st).(s := Handle(c, st.s, st.toS[0], late, again)))
  {
    LineReadKeeps(c, st);
    LineIsCredible(c, st);
    hide Flowing, Credible, Handle, ReceiverOk, FrameOk, ReplyOk;
    HandleKeeps(c, LineRead(st), st.toS[0], late, again);
  }

  /** A step of the sender that moves only its phase, inside the window phases. */
  lemma PhaseKeeps(c: Config, st: System, s2: Sender)
    requires c.Valid() && Inv(c, st) && InWindow(st.s) && InWindow(s2)
    requires SenderOk(c, s2) && s2.base == st.s.base && s2.next == st.s.next && s2.lastToken == st.s.lastToken
    ensures Inv(c, st.(s := s2))
  {
    hide ReceiverOk, FrameOk, ReplyOk, Sorted;
    CoreIfSender(c, st, s2);
    hide Core, SenderOk;
  }

  lemma NextProbeKeeps(c: Config, st: System, i: nat, again: bool)
    requires c.Valid() && Inv(c, st) && InWindow(st.s)
    ensures Inv(c, st.(s := NextProbe(c, st.s, i, again)))
  {
    var s2 := NextProbe(c, st.s, i, again);
    if i < c.probeRetries {
      PhaseKeeps(c, st, s2);
    } else {
      hide ReceiverOk, FrameOk, ReplyOk, Resetting, Flowing;
      CoreIfSender(c, st, s2);
      FreshReset(c, st, s2);
    }
  }

  lemma WaitKeeps(c: Config, st: System, e: Event)
    requires c.Valid() && Inv(c, st) && st.s.phase.Wait? && SenderStep(c, st, e).Some?
    ensures Inv(c, SenderStep(c, st, e).value)
  {
    if e.Rx? {
      WindowLine(c, st, e.late, false);
    } else {
      PhaseKeeps(c, st, st.s.(cwnd := 1, clean := 0, phase := Guard(false)));
    }
  }

  lemma GuardKeeps(c: Config, st: System, e: Event)
    requires c.Valid() && Inv(c, st) && st.s.phase.Guard? && SenderStep(c, st, e).Some?
    ensures Inv(c, SenderStep(c, st, e).value)
  {
    hide Inv, Handle, NextProbe;
    if e.Rx? {
      LineReadKeeps(c, st);
      if e.reply == Blank(true) {
        NextProbeKeeps(c, LineRead(st), 0, st.s.phase.again);
      } else {
        WindowLine(c, st, true, st.s.phase.again);
      }
    } else {
      NextProbeKeeps(c, st, 0, st.s.phase.again);
    }
  }

  lemma ProbeReadKeeps(c: Config, st: System, e: Event)
    requires c.Valid() && Inv(c, st) && st.s.phase.ProbeRead? && SenderStep(c, st, e).Some?
    ensures Inv(c, SenderStep(c, st, e).value)
  {
    hide Inv, NextProbe, Handle;
    var ProbeRead(i, probe, again) := st.s.phase;
    if e.Timeout? {
      NextProbeKeeps(c, st, i + 1, again);
    } else {
      ProbeLine(c, st, e);
    }
  }

  lemma ProbeLine(c: Config, st: System, e: Event)
    requires c.Valid() && Inv(c, st) && st.s.phase.ProbeRead? && SenderStep(c, st, e).Some? && e.Rx?
    ensures Inv(c, SenderStep(c, st, e).value)
  {
    hide Inv, Handle, NextProbe, Core, Flowing;
    LineReadKeeps(c, st);
    WindowHas(c, LineRead(st));
    var ProbeRead(i, probe, again) := st.s.phase;
    if e.reply.Here? && e.reply.token == probe {
      HandleKeeps(c, LineRead(st), Drop(e.reply.n), true, again);
    } else if IsAck(e.reply) || IsNakOrDrop(e.reply) || IsRst(e.reply) || IsErr(e.reply) {
      WindowLine(c, st, true, again);
    } else if e.late {
      NextProbeKeeps(c, LineRead(st), i + 1, again);
    }
  }

  lemma WindowHas(c: Config, st: System)
    requires c.Valid() && Inv(c, st) && InWindow(st.s)
    ensures Core(c, st) && Flowing(c, st)
  {
  }

  /** A control frame without a block, written behind everything else. */
  lemma WriteKeeps(c: Config, st: System, s2: Sender, f: Frame)
    requires c.Valid() && Core(c, st) && SenderOk(c, s2) && s2.next >= st.s.next && s2.lastToken >= st.s.lastToken
    requires (DoneSent(st.s) ==> DoneSent(s2)) && FrameOk(c, s2, f)
    ensures Core(c, System(s2, st.r, st.toR + [f], st.toS))
    ensures !f.Data? ==> (Sorted(st.toR) ==> Sorted(st.toR + [f]))
    ensures forall g :: g in st.toR + [f] <==> g in st.toR || g == f
  {
    CoreIfSender(c, st, s2);
    hide FrameOk, ReceiverOk, SenderOk, ReplyOk;
    Appended(st.toR, f);
    if !f.Data? {
      SortedAppend(st.toR, f);
    }
  }

  lemma ProbeWriteKeeps(c: Config, st: System, e: Event)
    requires c.Valid() && Inv(c, st) && st.s.phase.ProbeWrite? && SenderStep(c, st, e).Some?
    ensures Inv(c, SenderStep(c, st, e).value)
  {
    hide ReceiverOk, ReplyOk, Sorted;
    WriteKeeps(c, st, Send(c, st.s, e).value, e.frame);
    hide Core;
  }

  lemma ResetWriteKeeps(c: Config, st: System, e: Event)
    requires c.Valid() && Inv(c, st) && st.s.phase.ResetWrite? && SenderStep(c, st, e).Some?
    ensures Inv(c, SenderStep(c, st, e).value)
  {
    hide ReceiverOk, ReplyOk, Sorted;
    WriteKeeps(c, st, Send(c, st.s, e).value, e.frame);
    ResettingFence(st);
    hide Core;
  }

  lemma ResettingFence(st: System)
    requires Resetting(st)
    ensures Fence(st.toR + [Reset(st.s.lastToken)], Reset(st.s.lastToken))
  {
    FenceAppend(st.toR, Reset(st.s.lastToken), Reset(st.s.lastToken));
  }

  lemma BarrierWriteKeeps(c: Config, st: System, e: Event)
    requires c.Valid() && Inv(c, st) && st.s.phase.BarrierWrite? && SenderStep(c, st, e).Some?
    ensures Inv(c, SenderStep(c, st, e).value)
  {
    hide ReceiverOk, ReplyOk, Sorted;
    WriteKeeps(c, st, Send(c, st.s, e).value, e.frame);
    FenceAppend(st.toR, Barrier(st.s.lastToken), Barrier(st.s.lastToken));
    hide Core;
  }

  /** A reset request that is still being made: only the retry counter moves, or the sender gives up. */
  lemma ResetRetryKeeps(c: Config, st: System, s2: Sender)
    requires c.Valid() && Inv(c, st) && InReset(st.s)
    requires s2 == st.s.(phase := s2.phase)
    requires (s2.phase.Abort? && s2.phase.why != UnsentAck && s2.phase.why != NotZero && s2.phase.why != NoConfirmation)
             || (s2.phase.ResetWrite? && s2.phase.reset == st.s.lastToken) || s2.phase == st.s.phase
    ensures Inv(c, st.(s := s2))
  {
    hide ReceiverOk, ReplyOk, FrameOk;
    CoreIfSender(c, st, s2);
    hide Core;
  }

  lemma ResetConfirmed(c: Config, st: System)
    requires c.Valid() && Inv(c, st) && st.s.phase.ResetRead? && st.toS != []
    requires st.toS[0] == ResetAck(st.s.lastToken)
    ensures var s1 := st.s.(resetToken := Some(st.s.lastToken));
            Inv(c, LineRead(st).(s := Handle(c, s1, SelfReset, true, st.s.phase.again)))
  {
    LineReadKeeps(c, st);
    var s1 := st.s.(resetToken := Some(st.s.lastToken));
    var s2 := Handle(c, s1, SelfReset, true, st.s.phase.again);
    var st1 := LineRead(st);
    HandleOk(c, s1, SelfReset, true, st.s.phase.again);
    CoreIfSender(c, st1, s2);
    if s2.phase.BarrierWrite? {
      FreshFence(c, st1, s2);
      assert Zeroed(st1.(s := s2)) by {
        hide Core, Fenced;
      }
    }
    hide Core, Fenced, Zeroed;
  }

  lemma ResetReadKeeps(c: Config, st: System, e: Event)
    requires c.Valid() && Inv(c, st) && st.s.phase.ResetRead? && SenderStep(c, st, e).Some?
    ensures Inv(c, SenderStep(c, st, e).value)
  {
    var ResetRead(i, reset, again) := st.s.phase;
    assert reset == st.s.lastToken;
    if e.Timeout? {
      ResetRetryKeeps(c, st, RetryReset(st.s, i, reset, again));
    } else {
      ResetLine(c, st, e);
    }
  }

  lemma ResetLine(c: Config, st: System, e: Event)
    requires c.Valid() && Inv(c, st) && st.s.phase.ResetRead? && SenderStep(c, st, e).Some? && e.Rx?
    requires st.s.phase.reset == st.s.lastToken
    ensures Inv(c, SenderStep(c, st, e).value)
  {
    hide Inv, Handle;
    var ResetRead(i, reset, again) := st.s.phase;
    LineReadKeeps(c, st);
    var st1 := LineRead(st);
    if e.reply == ResetAck(reset) {
      ResetConfirmed(c, st);
    } else if IsAck(e.reply) || IsNakOrDrop(e.reply) || IsHere(e.reply) || IsResume(e.reply) {
      ResetRetryKeeps(c, st1, if e.late then RetryReset(st.s, i, reset, again) else st.s);
    } else {
      ResetRetryKeeps(c, st1, Stop(st.s, UnexpectedResetReply));
    }
  }

  lemma BarrierRetryKeeps(c: Config, st: System, s2: Sender)
    requires c.Valid() && Inv(c, st) && st.s.phase.BarrierRead?
    requires s2 == st.s.(phase := s2.phase)
    requires (s2.phase.Abort? && s2.phase.why != UnsentAck && s2.phase.why != NotZero && s2.phase.why != NoConfirmation)
             || (s2.phase.BarrierWrite? && s2.phase.barrier == st.s.lastToken && s2.phase.job == st.s.phase.job)
             || s2.phase == st.s.phase
    ensures Inv(c, st.(s := s2))
  {
    hide ReceiverOk, ReplyOk, FrameOk, Sorted, Fenced, Zeroed;
    CoreIfSender(c, st, s2);
    BarrierRetryCoupled(c, st, s2);
    hide Core;
  }

  lemma BarrierRetryCoupled(c: Config, st: System, s2: Sender)
    requires c.Valid() && s2.lastToken == st.s.lastToken && s2.base == st.s.base && s2.next == st.s.next
    requires s2.resetToken == st.s.resetToken
    ensures Fenced(st) ==> Fenced(st.(s := s2))
    ensures Zeroed(st) ==> Zeroed(st.(s := s2))
    ensures Flowing(c, st) ==> Flowing(c, st.(s := s2))
  {
    hide Sorted;
  }

  /** Both directions are drained: what is left toward the receiver is this barrier, what is left toward the sender
      is this answer, and the answer states where the receiver is. */
  ghost predicate Quiet(st: System, t: nat, n: nat) {
    && st.r.expected == n
    && (forall f :: f in st.toR ==> f == Barrier(t))
    && (forall y :: y in st.toS ==> y == Resume(t, n))
  }

  lemma AnswerFindsQuiet(c: Config, st: System, n: nat)
    requires c.Valid() && Inv(c, st) && st.s.phase.BarrierRead? && st.toS != []
    requires st.toS[0] == Resume(st.s.lastToken, n)
    ensures Quiet(LineRead(st), st.s.lastToken, n)
  {
    hide Core, Flowing, Zeroed;
    assert st.toS[0] in st.toS;
    var x := Resume(st.s.lastToken, st.r.expected);
    FenceAtHead(st.toS, x);
  }

  lemma QuietFlows(c: Config, st: System, t: nat, n: nat)
    requires c.Valid() && Quiet(st, t, n) && st.s.base == n && st.s.next == n
    ensures Flowing(c, st)
  {
    forall i | 0 <= i < |st.toR|
      ensures st.toR[i] == Barrier(t)
    {
      assert st.toR[i] in st.toR;
    }
  }

  lemma RecoveredKeeps(c: Config, st: System, n: nat)
    requires c.Valid() && Inv(c, st) && st.s.phase.BarrierRead? && Quiet(st, st.s.lastToken, n)
    requires (if st.s.phase.job.AfterReset? then 0 else st.s.base) <= n <= st.s.next
    ensures Inv(c, st.(s := Recovered(c, st.s, st.s.phase.job, n)))
  {
    var s2 := Recovered(c, st.s, st.s.phase.job, n);
    assert SenderOk(c, s2) by {
      hide ReceiverOk, FrameOk, ReplyOk;
    }
    CoreIfSender(c, st, s2);
    if s2.phase.Fill? {
      QuietFlows(c, st.(s := s2), st.s.lastToken, n);
    }
    hide Core, Flowing;
  }

  lemma BarrierReadKeeps(c: Config, st: System, e: Event)
    requires c.Valid() && Inv(c, st) && st.s.phase.BarrierRead? && SenderStep(c, st, e).Some?
    ensures Inv(c, SenderStep(c, st, e).value)
  {
    var BarrierRead(i, barrier, job) := st.s.phase;
    assert barrier == st.s.lastToken;
    if e.Timeout? {
      BarrierRetryKeeps(c, st, RetryBarrier(c, st.s, i, barrier, job));
    } else {
      BarrierLine(c, st, e);
    }
  }

  lemma BarrierLine(c: Config, st: System, e: Event)
    requires c.Valid() && Inv(c, st) && st.s.phase.BarrierRead? && SenderStep(c, st, e).Some? && e.Rx?
    requires st.s.phase.barrier == st.s.lastToken
    ensures Inv(c, SenderStep(c, st, e).value)
  {
    hide Inv, Recovered;
    var BarrierRead(i, barrier, job) := st.s.phase;
    LineReadKeeps(c, st);
    var st1 := LineRead(st);
    if (e.reply.Resume? || e.reply.ResumeUnreadable?) && e.reply.token == barrier {
      if e.reply.Resume? && (if job.AfterReset? then 0 else st.s.base) <= e.reply.n <= st.s.next {
        AnswerFindsQuiet(c, st, e.reply.n);
        RecoveredKeeps(c, st1, e.reply.n);
      } else {
        BarrierRetryKeeps(c, st1, Stop(st.s, BadRecoverySequence));
      }
    } else if (e.reply.ResetAck? && st.s.resetToken == Some(e.reply.token))
              || IsAck(e.reply) || IsNakOrDrop(e.reply) || IsResume(e.reply) || IsHere(e.reply) {
      BarrierRetryKeeps(c, st1, if e.late then RetryBarrier(c, st.s, i, barrier, job) else st.s);
    } else {
      BarrierRetryKeeps(c, st1, Stop(st.s, UnexpectedRecoveryReply));
    }
  }

  // ---- filling the window and finishing ---------------------------------------------

  lemma CarriesIsSound(c: Config, f: Frame)
    requires c.Valid() && Carries(c, f)
    ensures Sound(c, f)
  {
  }

  lemma WriteDataOk(c: Config, s: Sender, f: Frame)
    requires c.Valid() && SenderOk(c, s) && s.phase.Fill? && f.Data? && Send(c, s, Tx(f)).Some?
    ensures var s2 := Send(c, s, Tx(f)).value;
            && SenderOk(c, s2) && s2.next == s.next + 1 && f.seqno == s.next && Carries(c, f)
            && s2.base == s.base && s2.lastToken == s.lastToken && s2.phase.Fill?
  {
    hide Carries;
  }

  lemma DataFlows(c: Config, st: System, s2: Sender, f: Frame)
    requires c.Valid() && Flowing(c, st) && f.Data? && f.seqno == st.s.next && s2.next == st.s.next + 1
    requires s2.base == st.s.base && st.s.base <= st.s.next
    requires Sorted(st.toR) ==> Sorted(st.toR + [f])
    ensures Flowing(c, System(s2, st.r, st.toR + [f], st.toS))
  {
    hide Sorted;
    Appended(st.toR, f);
  }

  lemma WriteDataKeeps(c: Config, st: System, f: Frame)
    requires c.Valid() && Inv(c, st) && st.s.phase.Fill? && SenderStep(c, st, Tx(f)).Some? && f.Data?
    ensures Inv(c, SenderStep(c, st, Tx(f)).value)
  {
    hide Carries, Sound, ReceiverOk, FillNext, Sorted, Flowing, InSync, Orphaned;
    var s2 := Send(c, st.s, Tx(f)).value;
    WriteDataOk(c, st.s, f);
    CarriesIsSound(c, f);
    DataAppends(c, st, f);
    DataFlows(c, st, s2, f);
    WriteKeeps(c, st, s2, f);
  }

  lemma DataAppends(c: Config, st: System, f: Frame)
    requires c.Valid() && Core(c, st) && f.Data? && f.seqno == st.s.next
    ensures Sorted(st.toR) ==> Sorted(st.toR + [f])
    ensures Increasing(st.toR) ==> Increasing(st.toR + [f])
  {
    forall g | g in st.toR && g.Data?
      ensures g.seqno < f.seqno
    {
      assert FrameOk(c, st.s, g);
    }
    SortedAppend(st.toR, f);
  }

  lemma WriteDoneKeeps(c: Config, st: System)
    requires c.Valid() && Inv(c, st) && st.s.phase.Fill? && st.s.base >= c.Blocks()
    ensures var f := Done(Crc(0, c.data));
            Inv(c, System(st.s.(phase := AwaitOk), st.r, st.toR + [f], st.toS))
  {
    var s2, f := st.s.(phase := AwaitOk), Done(Crc(0, c.data));
    hide ReceiverOk, ReplyOk, Sorted, Crc;
    WriteKeeps(c, st, s2, f);
    assert st.r.expected == c.Blocks() by {
      ReceiverWithin(c, st);
    }
    hide Core;
  }

  lemma ReceiverWithin(c: Config, st: System)
    requires c.Valid() && Inv(c, st)
    ensures st.r.expected <= c.Blocks()
  {
  }

  lemma FillKeeps(c: Config, st: System, e: Event)
    requires c.Valid() && Inv(c, st) && st.s.phase.Fill? && SenderStep(c, st, e).Some?
    ensures Inv(c, SenderStep(c, st, e).value)
  {
    if st.s.base >= c.Blocks() {
      hide Inv, Crc;
      WriteDoneKeeps(c, st);
    } else if e.Tx? {
      hide Inv;
      WriteDataKeeps(c, st, e.frame);
    } else {
      FillStops(c, st, e);
    }
  }

  lemma FillStops(c: Config, st: System, e: Event)
    requires c.Valid() && Inv(c, st) && st.s.phase.Fill? && SenderStep(c, st, e).Some? && e.Tau?
    ensures Inv(c, SenderStep(c, st, e).value)
  {
    var s2 := Send(c, st.s, e).value;
    hide ReceiverOk, ReplyOk, FrameOk, Sorted, Carries, FillNext;
    FillTau(c, st.s);
    CoreIfSender(c, st, s2);
    hide Core;
  }

  lemma FillTau(c: Config, s: Sender)
    requires c.Valid() && s.phase.Fill? && Send(c, s, Tau).Some?
    ensures var s2 := Send(c, s, Tau).value;
            s2 == s.(phase := s2.phase) && (s2.phase.Wait? || s2.phase == Abort(RetriesExhausted))
  {
  }

  lemma AwaitKeeps(c: Config, st: System, e: Event)
    requires c.Valid() && Inv(c, st) && st.s.phase.AwaitOk? && SenderStep(c, st, e).Some?
    ensures Inv(c, SenderStep(c, st, e).value)
  {
    if e.Rx? {
      LineReadKeeps(c, st);
    }
    var st1 := if e.Rx? then LineRead(st) else st;
    var s2 := Send(c, st.s, e).value;
    hide ReceiverOk, FrameOk;
    CoreIfSender(c, st1, s2);
    hide Core;
  }

  // ---- every step, every run ------------------------------------------------------------

  lemma SenderKeeps(c: Config, st: System, e: Event)
    requires c.Valid() && Inv(c, st) && SenderStep(c, st, e).Some?
    ensures Inv(c, SenderStep(c, st, e).value)
  {
    hide Inv, FillNext, Handle, GuardNext, ProbeNext, ResetNext, BarrierNext, AwaitNext;
    match st.s.phase
    case Fill => FillKeeps(c, st, e);
    case Wait => WaitKeeps(c, st, e);
    case Guard(_) => GuardKeeps(c, st, e);
    case ProbeWrite(_, _) => ProbeWriteKeeps(c, st, e);
    case ProbeRead(_, _, _) => ProbeReadKeeps(c, st, e);
    case ResetWrite(_, _, _) => ResetWriteKeeps(c, st, e);
    case ResetRead(_, _, _) => ResetReadKeeps(c, st, e);
    case BarrierWrite(_, _, _) => BarrierWriteKeeps(c, st, e);
    case BarrierRead(_, _, _) => BarrierReadKeeps(c, st, e);
    case AwaitOk => AwaitKeeps(c, st, e);
  }

  lemma StepKeeps(c: Config, st: System, step: Step)
    requires c.Valid() && Inv(c, st) && Next(c, st, step).Some?
    ensures Inv(c, Next(c, st, step).value)
  {
    hide Inv, SenderStep, Receive;
    CalmerSame(st.toR);
    CalmerSame(st.toS);
    match step
    case SenderMoves(e) => SenderKeeps(c, st, e);
    case Deliver => DeliverKeeps(c, st);
    case PayloadTimesOut => PayloadTimesOutKeeps(c, st);
    case LoseFrame(i) =>
      FramesWithoutAreCalmer(st.toR, i);
      InvIfCalmer(c, st, Without(st.toR, i), st.toS);
    case LoseReply(i) =>
      WithoutIsCalmer(st.toS, i);
      InvIfCalmer(c, st, st.toR, Without(st.toS, i));
    case RepeatFrame(i) =>
      FramesTwiceAreCalmer(st.toR, i);
      InvIfCalmer(c, st, Twice(st.toR, i), st.toS);
    case RepeatReply(i) =>
      TwiceIsCalmer(st.toS, i);
      InvIfCalmer(c, st, st.toR, Twice(st.toS, i));
    case DamageFrame(i, payload) => DamageKeeps(c, st, i, payload);
  }

  lemma {:induction false} RunKeeps(c: Config, steps: seq<Step>)
    requires c.Valid() && Exec(c, steps).Some?
    ensures Inv(c, Exec(c, steps).value)
    decreases |steps|
  {
    hide Inv, Next;
    if steps == [] {
      InvInitially(c);
    } else {
      RunKeeps(c, steps[..|steps| - 1]);
      StepKeeps(c, Exec(c, steps[..|steps| - 1]).value, steps[|steps| - 1]);
    }
  }

  // ---- what holds in every run -----------------------------------------------------------

  /** Barrier quiescence: whenever `_recover_window` reads the answer to its barrier, the receiver stands exactly at the
      position that it returns, and both directions hold nothing but copies of this barrier and of this answer. The
      window is filled again only after such an answer, and from there. */
  lemma BarrierQuiescence(c: Config, steps: seq<Step>, e: Event)
    requires c.Valid() && Exec(c, steps).Some? && Exec(c, steps).value.s.phase.BarrierRead?
    requires SenderStep(c, Exec(c, steps).value, e).Some?
    ensures var st := Exec(c, steps).value;
            var st2 := SenderStep(c, st, e).value;
            var answered := e.Rx? && e.reply.Resume? && e.reply.token == st.s.phase.barrier;
            && (answered ==> Quiet(st2, st.s.phase.barrier, e.reply.n))
            && (st2.s.phase.Fill? ==> answered && st2.s.base == st2.s.next == e.reply.n)
  {
    RunKeeps(c, steps);
    hide Exec;
    QuiescentAt(c, Exec(c, steps).value, e);
    hide *;
  }

  lemma QuiescentAt(c: Config, st: System, e: Event)
    requires c.Valid() && Inv(c, st) && st.s.phase.BarrierRead? && SenderStep(c, st, e).Some?
    ensures var st2 := SenderStep(c, st, e).value;
            var answered := e.Rx? && e.reply.Resume? && e.reply.token == st.s.phase.barrier;
            && (answered ==> Quiet(st2, st.s.phase.barrier, e.reply.n))
            && (st2.s.phase.Fill? ==> answered && st2.s.base == st2.s.next == e.reply.n)
  {
    hide Core, Coupled;
    BarrierIsLast(c, st);
    if e.Rx? && e.reply.Resume? && e.reply.token == st.s.lastToken {
      AnswerFindsQuiet(c, st, e.reply.n);
    }
  }

  lemma BarrierIsLast(c: Config, st: System)
    requires c.Valid() && Inv(c, st) && st.s.phase.BarrierRead?
    ensures st.s.phase.barrier == st.s.lastToken
  {
    hide ReceiverOk, FrameOk, ReplyOk, Coupled;
  }

  /** DONE leaves the sender only when the receiver holds every block, and then its file is the data. */
  lemma DoneOnlyWhenComplete(c: Config, steps: seq<Step>, crc: bv32)
    requires c.Valid() && Exec(c, steps).Some?
    requires SenderStep(c, Exec(c, steps).value, Tx(Done(crc))).Some?
    ensures var r := Exec(c, steps).value.r;
            r.expected == c.Blocks() && r.file == c.data && crc == Crc(0, c.data)
  {
    RunKeeps(c, steps);
    BlocksCover(c);
    var st := Exec(c, steps).value;
    hide Crc, FrameOk, ReplyOk;
    assert Flowing(c, st);
  }

  /** The receiver never meets DONE early, never meets a header it rejects, and never ends with a file that fails its
      check: all that can stop it is the limit on its own resets. */
  lemma ReceiverNeverMisled(c: Config, steps: seq<Step>)
    requires c.Valid() && Exec(c, steps).Some?
    ensures var r := Exec(c, steps).value.r;
            && (r.mode.Failed? ==> r.mode.why == TooManyResets)
            && (r.mode.Finished? ==> r.mode.ok && r.file == c.data)
            && c.Prefix(r.expected) == r.file
  {
    RunKeeps(c, steps);
    BlocksCover(c);
    hide FrameOk, ReplyOk, SenderOk, Coupled;
  }

  /** `verified` means that the receiver has finished with exactly the bytes that were sent. */
  lemma VerifiedMeansDelivered(c: Config, steps: seq<Step>)
    requires c.Valid() && Exec(c, steps).Some? && Exec(c, steps).value.s.phase == Complete(true)
    ensures Exec(c, steps).value.r.mode == Finished(true) && Exec(c, steps).value.r.file == c.data
  {
    RunKeeps(c, steps);
    ReceiverNeverMisled(c, steps);
    hide FrameOk, ReplyOk, SenderOk, ReceiverOk;
  }

  /** An honest receiver never acknowledges an unsent block and never answers a reset with another position. */
  lemma HonestReceiverNeverBlamed(c: Config, steps: seq<Step>)
    requires c.Valid() && Exec(c, steps).Some?
    ensures var s := Exec(c, steps).value.s; s.phase != Abort(UnsentAck) && s.phase != Abort(NotZero)
  {
    RunKeeps(c, steps);
    hide FrameOk, ReplyOk, SenderOk, ReceiverOk;
  }

  /** While blocks are being sent, every acknowledged block is still in the receiver's file, unless the receiver has
      reset itself; in that case it stands at zero and the sender cannot come to the end. */
  lemma HeldOrReset(c: Config, steps: seq<Step>)
    requires c.Valid() && Exec(c, steps).Some? && Flows(Exec(c, steps).value.s)
    ensures var st := Exec(c, steps).value;
            || (c.Prefix(st.s.base) <= st.r.file && st.r.expected <= st.s.next)
            || (st.r.file == [] && st.r.resets >= 1 && st.s.base < c.Blocks())
  {
    RunKeeps(c, steps);
    var st := Exec(c, steps).value;
    assert Flowing(c, st);
    assert ReceiverOk(c, st.r);
    PrefixGrows(c, 0, st.r.expected);
    if InSync(st) {
      PrefixGrows(c, st.s.base, st.r.expected);
    }
    hide FrameOk, ReplyOk, Sorted;
  }

  lemma {:induction false} PrefixGrows(c: Config, j: nat, k: nat)
    requires c.Valid() && j <= k
    ensures c.Prefix(j) <= c.Prefix(k) && c.Prefix(0) == []
  {
    BlockExtends(c, 0);
    if j < k {
      BlockExtends(c, k - 1);
      PrefixGrows(c, j, k - 1);
      hide c.Prefix, c.Block;
    }
  }
}
