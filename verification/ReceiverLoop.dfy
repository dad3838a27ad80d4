/**
  The receiver of src/pcutp/client.py as it runs, over any sequence of frames, honest or not: what it keeps true of its
  partial file, and when it says OK.
*/
module ReceiverLoop {
  import opened Basics
  import opened Crc32
  import opened Lz4Format
  import opened Transfer
  import Lz4Codec

  /** What one pass of the receiving loop meets: a whole frame, or a data header whose payload does not arrive in
      time. */
  datatype Arrival = Whole(f: Frame) | Cut(f: Frame)

  /** The size, block size and number of blocks that META may announce. */
  predicate MetaFits(m: Meta, maxBlockSize: nat) {
    && 1 <= m.blockSize <= maxBlockSize
    && m.size <= MAX_FILE_SIZE
    && m.blocks == Max(1, (m.size + m.blockSize - 1) / m.blockSize)
  }

  predicate HeaderRefused(m: Meta, compression: bool, f: Frame)
    requires f.Data?
  {
    (f.packed && !compression) || !HeaderFits(m, f)
  }

  function Hear(m: Meta, compression: bool, r: Receiver, a: Arrival): (Receiver, seq<Reply>)
    requires r.mode.Receiving?
  {
    if a.Cut? && a.f.Data? && !HeaderRefused(m, compression, a.f) then (r, [Drop(r.expected)])
    else Receive(m, compression, r, a.f)
  }

  /** The receiver after some arrivals, and everything it has said. It hears nothing once it has finished or failed. */
  function Session(m: Meta, compression: bool, arrivals: seq<Arrival>): (Receiver, seq<Reply>) {
    if arrivals == [] then (FRESH, [])
    else
      var (r, said) := Session(m, compression, arrivals[..|arrivals| - 1]);
      if !r.mode.Receiving? then (r, said)
      else
        var (r2, ys) := Hear(m, compression, r, arrivals[|arrivals| - 1]);
        (r2, said + ys)
  }

  // ---- what holds whatever arrives ---------------------------------------------------

  /** The partial file is a whole number of blocks, or all of the file; its length and checksum are on record. */
  ghost predicate Consistent(m: Meta, r: Receiver) {
    && r.expected <= m.blocks
    && |r.file| == r.received == Min(r.expected * m.blockSize, m.size)
    && r.running == Crc(0, r.file)
    && (r.mode.Finished? ==> r.expected == m.blocks)
    && (r.mode == Finished(true) ==> Crc(0, r.file) == m.crc && |r.file| == m.size)
  }

  lemma BlocksReach(m: Meta, maxBlockSize: nat)
    requires MetaFits(m, maxBlockSize)
    ensures m.blocks * m.blockSize >= m.size
  {
    var n := (m.size + m.blockSize - 1) / m.blockSize;
    assert n * m.blockSize >= m.size;
    if n < 1 {
      assert m.size == 0;
    }
  }

  lemma NextBlockEnds(k: nat, unit: nat, size: nat)
    ensures var now := Min(k * unit, size); now + Min(unit, size - now) == Min((k + 1) * unit, size)
  {
    assert (k + 1) * unit == k * unit + unit;
  }

  lemma CleanKeepsConsistent(m: Meta, r: Receiver, seqno: nat, plain: bytes)
    requires Consistent(m, r) && r.mode.Receiving? && seqno < m.blocks
    ensures Consistent(m, ReceiveClean(m, r, seqno, plain).0)
  {
    hide Crc;
    if seqno == r.expected {
      CrcContinues(0, r.file, plain);
      NextBlockEnds(r.expected, m.blockSize, m.size);
    } else {
      CrcOfNothing(0);
      assert 0 * m.blockSize == 0;
    }
  }

  lemma HearKeepsConsistent(m: Meta, compression: bool, r: Receiver, a: Arrival)
    requires Consistent(m, r) && r.mode.Receiving?
    ensures Consistent(m, Hear(m, compression, r, a).0)
  {
    hide Consistent, ReceiveDone, Clean, Crc;
    match a.f
    case Data(_, _, _, _, _) => DataKeepsConsistent(m, compression, r, a);
    case Reset(_) => FreshIsConsistent(m, r);
    case Done(crc) => DoneKeepsConsistent(m, r, crc);
    case Ayt(_) =>
    case Barrier(_) =>
    case Close => OtherFieldsDoNotMatter(m, r);
    case ErrLine => OtherFieldsDoNotMatter(m, r);
    case Junk => OtherFieldsDoNotMatter(m, r);
  }

  lemma OtherFieldsDoNotMatter(m: Meta, r: Receiver)
    requires Consistent(m, r)
    ensures Consistent(m, r.(peerClosing := true))
    ensures forall why :: Consistent(m, r.(mode := Failed(why)))
  {
    hide Crc;
  }

  lemma FreshIsConsistent(m: Meta, r: Receiver)
    requires r.mode.Receiving?
    ensures Consistent(m, r.(expected := 0, received := 0, file := [], running := 0, drops := 0, resets := 0))
  {
    hide Crc;
    CrcOfNothing(0);
    assert 0 * m.blockSize == 0;
  }

  lemma DoneKeepsConsistent(m: Meta, r: Receiver, crc: bv32)
    requires Consistent(m, r)
    ensures Consistent(m, ReceiveDone(m, r, crc).0)
  {
    hide Crc;
  }

  lemma DataKeepsConsistent(m: Meta, compression: bool, r: Receiver, a: Arrival)
    requires Consistent(m, r) && r.mode.Receiving? && a.f.Data?
    ensures Consistent(m, Hear(m, compression, r, a).0)
  {
    OtherFieldsDoNotMatter(m, r);
    hide Crc, ReceiveClean, Clean, Plain, Consistent;
    if !HeaderRefused(m, compression, a.f) && Clean(a.f) {
      CleanHasPlain(a.f);
      CleanKeepsConsistent(m, r, a.f.seqno, Plain(a.f).value);
    }
  }

  lemma CleanHasPlain(f: Frame)
    requires f.Data? && Clean(f)
    ensures Plain(f).Some?
  {
  }

  /** Whatever arrives, the partial file, its recorded length and its running checksum belong together. */
  lemma {:induction false} SessionStaysConsistent(m: Meta, compression: bool, arrivals: seq<Arrival>)
    ensures Consistent(m, Session(m, compression, arrivals).0)
    decreases |arrivals|
  {
    hide Hear, Crc;
    if arrivals == [] {
      CrcOfNothing(0);
      assert 0 * m.blockSize == 0;
    } else {
      var before := arrivals[..|arrivals| - 1];
      SessionStaysConsistent(m, compression, before);
      var r := Session(m, compression, before).0;
      if r.mode.Receiving? {
        HearKeepsConsistent(m, compression, r, arrivals[|arrivals| - 1]);
      }
    }
  }

  /** Having all blocks means having all bytes; and OK is said only for a file with the announced length and
      checksum. */
  lemma AllBlocksAreAllBytes(m: Meta, maxBlockSize: nat, compression: bool, arrivals: seq<Arrival>)
    requires MetaFits(m, maxBlockSize)
    ensures var r := Session(m, compression, arrivals).0;
            && (r.expected == m.blocks ==> |r.file| == r.received == m.size)
            && (r.mode == Finished(true) ==> |r.file| == m.size && Crc(0, r.file) == m.crc)
  {
    SessionStaysConsistent(m, compression, arrivals);
    hide Crc, Session;
    BlocksReach(m, maxBlockSize);
  }

  /** With all blocks in hand, DONE with the announced checksum is answered OK exactly when the file has that
      checksum. */
  lemma OkIffChecksumMatches(m: Meta, maxBlockSize: nat, compression: bool, arrivals: seq<Arrival>)
    requires MetaFits(m, maxBlockSize)
    requires var r := Session(m, compression, arrivals).0; r.mode.Receiving? && r.expected == m.blocks
    ensures var (r, said) := Session(m, compression, arrivals);
            var (r2, said2) := Session(m, compression, arrivals + [Whole(Done(m.crc))]);
            && (r2.mode == Finished(true) <==> Crc(0, r.file) == m.crc)
            && (said2 == said + [Ok(m.crc)] <==> Crc(0, r.file) == m.crc)
            && r2.file == r.file
  {
    var (r, said) := Session(m, compression, arrivals);
    var longer := arrivals + [Whole(Done(m.crc))];
    assert longer[..|longer| - 1] == arrivals;
    assert longer[|longer| - 1] == Whole(Done(m.crc));
    var (r2, ys) := Hear(m, compression, r, Whole(Done(m.crc)));
    assert Session(m, compression, longer) == (r2, said + ys);
    SessionStaysConsistent(m, compression, arrivals);
    hide Crc, Session;
    BlocksReach(m, maxBlockSize);
    assert (said + ys)[|said|] == ys[0];
  }

  /** A block that is already there changes nothing, whatever it holds. */
  lemma DuplicateChangesNothing(m: Meta, compression: bool, r: Receiver, f: Frame)
    requires r.mode.Receiving? && f.Data? && !HeaderRefused(m, compression, f) && f.seqno < r.expected
    ensures Hear(m, compression, r, Whole(f)).0 == r
    ensures Hear(m, compression, r, Whole(f)).1 == [if Clean(f) then Ack(r.expected - 1) else Nak(r.expected)]
    ensures Hear(m, compression, r, Cut(f)) == (r, [Drop(r.expected)])
  {
    hide Crc, Plain;
  }

  /** A data frame moves the receiver on exactly when it is clean, next in order and of the right length. */
  lemma CommitsIff(m: Meta, compression: bool, r: Receiver, f: Frame)
    requires r.mode.Receiving? && f.Data?
    ensures var r2 := Hear(m, compression, r, Whole(f)).0;
            r2.expected == r.expected + 1 <==>
              && !HeaderRefused(m, compression, f) && Clean(f) && f.seqno == r.expected
              && |Plain(f).value| == Min(m.blockSize, m.size - r.received)
    ensures var r2 := Hear(m, compression, r, Whole(f)).0;
            r2.expected == r.expected + 1 ==> r2.file == r.file + Plain(f).value
    ensures var r2 := Hear(m, compression, r, Whole(f)).0;
            r2.expected != r.expected + 1 ==> r2.file == r.file || r2.file == []
  {
    hide Crc, Plain, ReceiveClean, Clean;
    if !HeaderRefused(m, compression, f) && Clean(f) {
      CleanHasPlain(f);
      CleanCommitsIff(m, r, f.seqno, Plain(f).value);
    }
  }

  lemma CleanCommitsIff(m: Meta, r: Receiver, seqno: nat, plain: bytes)
    requires r.mode.Receiving?
    ensures var r2 := ReceiveClean(m, r, seqno, plain).0;
            && (r2.expected == r.expected + 1 <==>
                  seqno == r.expected && |plain| == Min(m.blockSize, m.size - r.received))
            && (if r2.expected == r.expected + 1 then r2.file == r.file + plain else r2.file == r.file || r2.file == [])
  {
    hide Crc;
  }

  // ---- what the receiver says ---------------------------------------------------------------------

  /** What a line promises about the receiver that has said it last. An ACK promises that the block is in the file. */
  ghost predicate Truthful(m: Meta, r: Receiver, y: Reply) {
    match y
    case Ack(n) => r.expected == n + 1 && |r.file| == Min((n + 1) * m.blockSize, m.size)
    case Nak(n) => n == r.expected
    case Drop(n) => n == r.expected
    case Here(_, n) => n == r.expected
    case Resume(_, n) => n == r.expected
    case SelfReset => r.expected == 0 && r.file == []
    case ResetAck(_) => r.expected == 0 && r.file == []
    case Ok(crc) => r.mode == Finished(true) && crc == Crc(0, r.file) == m.crc
    case Fail(crc) => r.mode == Finished(false) && crc == Crc(0, r.file)
    case Err => r.mode.Failed?
    case Bye => r.peerClosing
    case _ => false
  }

  /** At most one line for each arrival, and it is true; without a line the receiver has failed where it stood. */
  lemma HearSpeaksTrue(m: Meta, compression: bool, r: Receiver, a: Arrival)
    requires Consistent(m, r) && r.mode.Receiving?
    ensures var (r2, ys) := Hear(m, compression, r, a);
            && |ys| <= 1 && (ys != [] ==> Truthful(m, r2, ys[0]))
            && (ys == [] ==> exists why :: r2 == r.(mode := Failed(why)))
  {
    hide Truthful, Consistent, ReceiveDone, ReceiveClean, Clean, Crc;
    match a.f
    case Data(_, _, _, _, _) =>
      if !HeaderRefused(m, compression, a.f) && a.Whole? && Clean(a.f) {
        CleanHasPlain(a.f);
        CleanSpeaksTrue(m, r, a.f.seqno, Plain(a.f).value);
      } else {
        PlaceIsTrue(m, r);
      }
    case Done(crc) => DoneSpeaksTrue(m, r, crc);
    case _ => PlaceIsTrue(m, r);
  }

  lemma CleanSpeaksTrue(m: Meta, r: Receiver, seqno: nat, plain: bytes)
    requires Consistent(m, r) && r.mode.Receiving? && seqno < m.blocks
    ensures var (r2, ys) := ReceiveClean(m, r, seqno, plain); |ys| == 1 && Truthful(m, r2, ys[0])
  {
    hide Crc;
    CleanKeepsConsistent(m, r, seqno, plain);
  }

  lemma DoneSpeaksTrue(m: Meta, r: Receiver, crc: bv32)
    requires Consistent(m, r)
    ensures var (r2, ys) := ReceiveDone(m, r, crc);
            && |ys| <= 1 && (ys != [] ==> Truthful(m, r2, ys[0]))
            && (ys == [] ==> exists why :: r2 == r.(mode := Failed(why)))
  {
    hide Crc;
  }

  lemma PlaceIsTrue(m: Meta, r: Receiver)
    ensures Truthful(m, r, Nak(r.expected)) && Truthful(m, r, Drop(r.expected))
    ensures forall t :: Truthful(m, r, Here(t, r.expected)) && Truthful(m, r, Resume(t, r.expected))
    ensures Truthful(m, r.(peerClosing := true), Bye)
    ensures forall why :: Truthful(m, r.(mode := Failed(why)), Err)
    ensures forall t :: Truthful(m, r.(expected := 0, received := 0, file := [], running := 0, drops := 0, resets := 0),
                                 ResetAck(t))
  {
  }

  /** Whatever arrives, the last line said is true. */
  lemma {:induction false} LastLineIsTrue(m: Meta, compression: bool, arrivals: seq<Arrival>)
    ensures var (r, said) := Session(m, compression, arrivals);
            said != [] ==> Truthful(m, r, said[|said| - 1])
    decreases |arrivals|
  {
    hide Hear, Crc;
    if arrivals != [] {
      var before, last := arrivals[..|arrivals| - 1], arrivals[|arrivals| - 1];
      LastLineIsTrue(m, compression, before);
      SessionStaysConsistent(m, compression, before);
      var (r, said) := Session(m, compression, before);
      if r.mode.Receiving? {
        HearSpeaksTrue(m, compression, r, last);
      }
    }
  }

  /** A clean block from behind a gap. */
  predicate IsGap(m: Meta, compression: bool, r: Receiver, a: Arrival) {
    a.Whole? && a.f.Data? && !HeaderRefused(m, compression, a.f) && Clean(a.f) && a.f.seqno > r.expected
  }

  /** The block that is waited for, whole and clean. */
  predicate IsNext(m: Meta, compression: bool, r: Receiver, a: Arrival) {
    && a.Whole? && a.f.Data? && !HeaderRefused(m, compression, a.f) && Clean(a.f) && a.f.seqno == r.expected
    && |Plain(a.f).value| == Min(m.blockSize, m.size - r.received)
  }

  lemma BlockAnswer(m: Meta, compression: bool, r: Receiver, a: Arrival)
    requires r.mode.Receiving? && a.f.Data? && !HeaderRefused(m, compression, a.f)
    ensures var (r2, ys) := Hear(m, compression, r, a);
            && |ys| == 1
            && (ys[0].Ack? <==>
                  IsNext(m, compression, r, a) || (a.Whole? && Clean(a.f) && a.f.seqno < r.expected))
            && (ys[0].Nak? <==> a.Whole? && !Clean(a.f))
            && (a.Cut? ==> ys[0].Drop? && r2 == r)
  {
    hide Crc, Plain;
  }

  lemma SessionOneMore(m: Meta, compression: bool, arrivals: seq<Arrival>, a: Arrival)
    requires Session(m, compression, arrivals).0.mode.Receiving?
    ensures var (r, said) := Session(m, compression, arrivals);
            var (r2, ys) := Hear(m, compression, r, a);
            Session(m, compression, arrivals + [a]) == (r2, said + ys)
  {
    hide Hear;
    assert (arrivals + [a])[..|arrivals|] == arrivals;
  }

  /** Every data header that is not refused is answered by exactly one line: an ACK exactly when its block is now or was
      already in the file, never when its payload is missing; a NAK exactly when it is not clean. */
  lemma EveryBlockIsAnswered(m: Meta, compression: bool, arrivals: seq<Arrival>, a: Arrival)
    requires Session(m, compression, arrivals).0.mode.Receiving? && a.f.Data? && !HeaderRefused(m, compression, a.f)
    ensures var (r, said) := Session(m, compression, arrivals);
            var (r2, more) := Session(m, compression, arrivals + [a]);
            && |more| == |said| + 1 && more[..|said|] == said
            && (more[|said|].Ack? <==> a.Whole? && Clean(a.f) && a.f.seqno < r2.expected)
            && (more[|said|].Nak? <==> a.Whole? && !Clean(a.f))
            && (a.Cut? ==> more[|said|].Drop? && r2 == r)
  {
    hide Session, Hear, Clean, HeaderRefused, IsNext;
    SessionOneMore(m, compression, arrivals, a);
    var r := Session(m, compression, arrivals).0;
    BlockAnswer(m, compression, r, a);
    HeldIffNext(m, compression, r, a);
  }

  lemma HeldIffNext(m: Meta, compression: bool, r: Receiver, a: Arrival)
    requires r.mode.Receiving? && a.f.Data? && !HeaderRefused(m, compression, a.f)
    ensures var r2 := Hear(m, compression, r, a).0;
            a.Whole? && Clean(a.f) ==>
              (a.f.seqno < r2.expected <==> IsNext(m, compression, r, a) || a.f.seqno < r.expected)
  {
    hide Crc, Plain;
  }

  /** What arrives here is what the line of module Transfer delivers: a whole frame is `Deliver`, and a fitting header
      whose payload does not come is `PayloadTimesOut`. */
  lemma ArrivalsAreDeliveries(c: Config, st: System)
    requires c.Valid() && st.toR != [] && st.r.mode.Receiving?
    ensures var (r, ys) := Hear(c.Announced(), c.compression, st.r, Whole(st.toR[0]));
            Next(c, st, Deliver) == Some(System(st.s, r, st.toR[1..], st.toS + ys))
    ensures st.toR[0].Data? && !HeaderRefused(c.Announced(), c.compression, st.toR[0]) ==>
              var (r, ys) := Hear(c.Announced(), c.compression, st.r, Cut(st.toR[0]));
              Next(c, st, PayloadTimesOut) == Some(System(st.s, r, st.toR[1..], st.toS + ys))
  {
    hide Receive, HeaderFits;
  }

  // ---- gaps ---------------------------------------------------------------------------------------

  /** Gaps since a block was last committed or the file last given up. */
  function Gaps(m: Meta, compression: bool, arrivals: seq<Arrival>): nat {
    if arrivals == [] then 0
    else
      var before, last := arrivals[..|arrivals| - 1], arrivals[|arrivals| - 1];
      var r := Session(m, compression, before).0;
      if !r.mode.Receiving? then Gaps(m, compression, before)
      else if last.f.Reset? || IsNext(m, compression, r, last) then 0
      else if IsGap(m, compression, r, last) then
        if Gaps(m, compression, before) == 2 then 0 else Gaps(m, compression, before) + 1
      else Gaps(m, compression, before)
  }

  /** How often the receiver has given up its file by itself since the sender last reset it. */
  function OwnResets(said: seq<Reply>): nat {
    if said == [] then 0
    else if said[|said| - 1].ResetAck? then 0
    else OwnResets(said[..|said| - 1]) + if said[|said| - 1].SelfReset? then 1 else 0
  }

  lemma OwnResetsMore(said: seq<Reply>, y: Reply)
    ensures OwnResets(said + [y]) == if y.ResetAck? then 0 else OwnResets(said) + if y.SelfReset? then 1 else 0
  {
    assert (said + [y])[..|said|] == said;
  }

  /** What one arrival does to the counts of gaps and resets, while the receiver goes on. */
  lemma HearCounts(m: Meta, compression: bool, r: Receiver, a: Arrival)
    requires r.mode.Receiving? && Hear(m, compression, r, a).0.mode.Receiving? && r.drops <= 2
    ensures var (r2, ys) := Hear(m, compression, r, a);
            && r2.drops == (if a.f.Reset? || IsNext(m, compression, r, a) then 0
                            else if IsGap(m, compression, r, a) then if r.drops == 2 then 0 else r.drops + 1
                            else r.drops)
            && |ys| == 1
            && r2.resets == if ys[0].ResetAck? then 0 else r.resets + if ys[0].SelfReset? then 1 else 0
  {
    hide Crc, Plain, ReceiveClean, ReceiveDone, Clean;
    if a.f.Data? && a.Whole? && !HeaderRefused(m, compression, a.f) && Clean(a.f) {
      CleanHasPlain(a.f);
      CleanCounts(m, r, a.f.seqno, Plain(a.f).value);
    } else if a.f.Done? {
      DoneStops(m, r, a.f.crc);
    }
  }

  lemma CleanCounts(m: Meta, r: Receiver, seqno: nat, plain: bytes)
    requires r.mode.Receiving? && ReceiveClean(m, r, seqno, plain).0.mode.Receiving? && r.drops <= 2
    ensures var (r2, ys) := ReceiveClean(m, r, seqno, plain);
            && r2.drops == (if seqno == r.expected && |plain| == Min(m.blockSize, m.size - r.received) then 0
                            else if seqno > r.expected then if r.drops == 2 then 0 else r.drops + 1
                            else r.drops)
            && |ys| == 1 && !ys[0].ResetAck? && r2.resets == r.resets + if ys[0].SelfReset? then 1 else 0
  {
    hide Crc;
  }

  lemma DoneStops(m: Meta, r: Receiver, crc: bv32)
    ensures !ReceiveDone(m, r, crc).0.mode.Receiving?
  {
    hide Crc;
  }

  lemma {:induction false} SessionCounts(m: Meta, compression: bool, arrivals: seq<Arrival>)
    ensures var (r, said) := Session(m, compression, arrivals);
            r.mode.Receiving? ==> r.drops == Gaps(m, compression, arrivals) <= 2 && r.resets == OwnResets(said)
    decreases |arrivals|
  {
    hide Hear, IsGap, IsNext;
    if arrivals != [] {
      var before, last := arrivals[..|arrivals| - 1], arrivals[|arrivals| - 1];
      SessionCounts(m, compression, before);
      var (r, said) := Session(m, compression, before);
      if r.mode.Receiving? {
        var (r2, ys) := Hear(m, compression, r, last);
        if r2.mode.Receiving? {
          HearCounts(m, compression, r, last);
          OwnResetsMore(said, ys[0]);
          assert ys == [ys[0]];
        }
      }
    }
  }

  lemma GapAnswered(m: Meta, compression: bool, r: Receiver, a: Arrival)
    requires r.mode.Receiving? && IsGap(m, compression, r, a)
    ensures var (r2, ys) := Hear(m, compression, r, a);
            if r.drops < 2 then ys == [Drop(r.expected)] && r2.expected == r.expected && r2.file == r.file
            else if r.resets < 2 then ys == [SelfReset] && r2.expected == 0 && r2.file == [] && r2.mode.Receiving?
            else ys == [Err] && r2.mode == Failed(TooManyResets)
  {
    hide Crc, Plain;
  }

  /** The first two gaps in a row are answered with DROP and cost nothing; the third makes the receiver give up its file
      and start over, and it does that twice before it fails. A commit, or a reset by the sender, starts the counts
      anew. */
  lemma ThirdGapResets(m: Meta, compression: bool, arrivals: seq<Arrival>, a: Arrival)
    requires Session(m, compression, arrivals).0.mode.Receiving?
    requires IsGap(m, compression, Session(m, compression, arrivals).0, a)
    ensures var (r, said) := Session(m, compression, arrivals);
            var (r2, more) := Session(m, compression, arrivals + [a]);
            if Gaps(m, compression, arrivals) < 2 then
              more == said + [Drop(r.expected)] && r2.expected == r.expected && r2.file == r.file
            else if OwnResets(said) < 2 then
              more == said + [SelfReset] && r2.expected == 0 && r2.file == [] && r2.mode.Receiving?
            else more == said + [Err] && r2.mode == Failed(TooManyResets)
  {
    hide Session, Hear, IsGap, Gaps, OwnResets;
    SessionOneMore(m, compression, arrivals, a);
    SessionCounts(m, compression, arrivals);
    GapAnswered(m, compression, Session(m, compression, arrivals).0, a);
  }

  // ---- what a file is made of -----------------------------------------------------------------

  lemma SessionStep(m: Meta, compression: bool, arrivals: seq<Arrival>, a: Arrival)
    ensures var r := Session(m, compression, arrivals).0;
            Session(m, compression, arrivals + [a]).0 ==
            if r.mode.Receiving? then Hear(m, compression, r, a).0 else r
  {
    hide Hear;
    assert (arrivals + [a])[..|arrivals|] == arrivals;
  }

  /** A block that is received again, whenever that happens and whatever follows, changes nothing about the file and the
      outcome. */
  lemma {:induction false} DuplicatesDoNotMatter(m: Meta, compression: bool, before: seq<Arrival>, f: Frame,
                                                 arrived: bool, after: seq<Arrival>)
    requires Session(m, compression, before).0.mode.Receiving?
    requires f.Data? && !HeaderRefused(m, compression, f) && f.seqno < Session(m, compression, before).0.expected
    ensures Session(m, compression, before + [if arrived then Whole(f) else Cut(f)] + after).0 ==
            Session(m, compression, before + after).0
    decreases |after|
  {
    hide Hear, Session, HeaderRefused;
    var again := if arrived then Whole(f) else Cut(f);
    if after == [] {
      assert before + [again] + [] == before + [again] && before + [] == before;
      SessionStep(m, compression, before, again);
      DuplicateChangesNothing(m, compression, Session(m, compression, before).0, f);
    } else {
      var rest, last := after[..|after| - 1], after[|after| - 1];
      assert before + [again] + after == before + [again] + rest + [last] && before + after == before + rest + [last];
      DuplicatesDoNotMatter(m, compression, before, f, arrived, rest);
      SessionStep(m, compression, before + [again] + rest, last);
      SessionStep(m, compression, before + rest, last);
    }
  }

  /** This arrival is a whole and clean frame with the number `k`, and its contents are block `k` of the file. */
  ghost predicate Supplies(m: Meta, a: Arrival, k: nat, file: bytes) {
    && a.Whole? && a.f.Data? && Clean(a.f) && a.f.seqno == k
    && Min((k + 1) * m.blockSize, m.size) <= |file|
    && Min(k * m.blockSize, m.size) <= Min((k + 1) * m.blockSize, m.size)
    && Plain(a.f) == Some(file[Min(k * m.blockSize, m.size)..Min((k + 1) * m.blockSize, m.size)])
  }

  ghost predicate BlockSupplied(m: Meta, arrivals: seq<Arrival>, k: nat, file: bytes) {
    exists a :: a in arrivals && Supplies(m, a, k, file)
  }

  ghost predicate Supplied(m: Meta, arrivals: seq<Arrival>, r: Receiver) {
    forall k :: 0 <= k < r.expected ==> BlockSupplied(m, arrivals, k, r.file)
  }

  lemma SuppliesGrows(m: Meta, a: Arrival, k: nat, file: bytes, more: bytes)
    requires Supplies(m, a, k, file)
    ensures Supplies(m, a, k, file + more)
  {
    hide Clean, Plain;
    var lo, hi := Min(k * m.blockSize, m.size), Min((k + 1) * m.blockSize, m.size);
    assert (file + more)[lo..hi] == file[lo..hi];
  }

  lemma CommitSupplies(m: Meta, compression: bool, r: Receiver, f: Frame)
    requires Consistent(m, r) && r.mode.Receiving? && f.Data?
    requires Hear(m, compression, r, Whole(f)).0.expected == r.expected + 1
    ensures Plain(f).Some? && Hear(m, compression, r, Whole(f)).0.file == r.file + Plain(f).value
    ensures Supplies(m, Whole(f), r.expected, r.file + Plain(f).value)
  {
    hide Hear, Plain, Crc, HeaderRefused;
    CommitsIff(m, compression, r, f);
    CleanHasPlain(f);
    NextBlockEnds(r.expected, m.blockSize, m.size);
    LastBlock(r.file, Plain(f).value);
  }

  lemma LastBlock(file: bytes, plain: bytes)
    ensures (file + plain)[|file|..|file| + |plain|] == plain
  {
  }

  lemma StillSupplied(m: Meta, arrivals: seq<Arrival>, a: Arrival, k: nat, file: bytes, more: bytes)
    requires BlockSupplied(m, arrivals, k, file)
    ensures BlockSupplied(m, arrivals + [a], k, file + more)
  {
    hide Supplies;
    var x :| x in arrivals && Supplies(m, x, k, file);
    SuppliesGrows(m, x, k, file, more);
    assert x in arrivals + [a];
  }

  lemma HearKeepsSupplied(m: Meta, compression: bool, arrivals: seq<Arrival>, r: Receiver, a: Arrival)
    requires Consistent(m, r) && r.mode.Receiving? && Supplied(m, arrivals, r)
    ensures Supplied(m, arrivals + [a], Hear(m, compression, r, a).0)
  {
    hide Hear, Supplies, BlockSupplied, Consistent, Plain, Crc;
    var r2 := Hear(m, compression, r, a).0;
    if r2.expected == r.expected + 1 {
      OnlyWholeCommits(m, compression, r, a);
      CommitSupplies(m, compression, r, a.f);
      NewlySupplied(m, arrivals, a, r.expected, r2.file);
      forall k | 0 <= k < r.expected
        ensures BlockSupplied(m, arrivals + [a], k, r2.file)
      {
        StillSupplied(m, arrivals, a, k, r.file, Plain(a.f).value);
      }
    } else {
      OtherwiseKeeps(m, compression, r, a);
      assert r.file + [] == r.file;
      forall k | 0 <= k < r2.expected
        ensures BlockSupplied(m, arrivals + [a], k, r2.file)
      {
        StillSupplied(m, arrivals, a, k, r.file, []);
      }
    }
  }

  lemma NewlySupplied(m: Meta, arrivals: seq<Arrival>, a: Arrival, k: nat, file: bytes)
    requires Supplies(m, a, k, file)
    ensures BlockSupplied(m, arrivals + [a], k, file)
  {
    hide Supplies;
    assert a in arrivals + [a];
  }

  lemma OnlyWholeCommits(m: Meta, compression: bool, r: Receiver, a: Arrival)
    requires r.mode.Receiving? && Hear(m, compression, r, a).0.expected == r.expected + 1
    ensures a.Whole? && a.f.Data?
  {
    hide Crc, Clean, Plain, ReceiveClean;
  }

  lemma OtherwiseKeeps(m: Meta, compression: bool, r: Receiver, a: Arrival)
    requires r.mode.Receiving? && Hear(m, compression, r, a).0.expected != r.expected + 1
    ensures var r2 := Hear(m, compression, r, a).0; r2.expected == 0 || (r2.expected == r.expected && r2.file == r.file)
  {
    hide Crc, Clean, Plain;
  }

  /** Whatever arrives, every block in the file is the content of a frame that arrived whole and clean under its
      number. */
  lemma {:induction false} FileIsSupplied(m: Meta, compression: bool, arrivals: seq<Arrival>)
    ensures Supplied(m, arrivals, Session(m, compression, arrivals).0)
    decreases |arrivals|
  {
    hide Hear, BlockSupplied, Consistent, Crc;
    if arrivals != [] {
      var before, last := arrivals[..|arrivals| - 1], arrivals[|arrivals| - 1];
      FileIsSupplied(m, compression, before);
      SessionStaysConsistent(m, compression, before);
      var r := Session(m, compression, before).0;
      assert before + [last] == arrivals;
      if r.mode.Receiving? {
        HearKeepsSupplied(m, compression, before, r, last);
      } else {
        assert r.file + [] == r.file;
        forall k | 0 <= k < r.expected
          ensures BlockSupplied(m, arrivals, k, r.file)
        {
          StillSupplied(m, before, last, k, r.file, []);
        }
      }
    }
  }

  // ---- the loop itself --------------------------------------------------------------------

  datatype Download = Refused | NoSpace | Ended(mode: Mode)

  class Client {
    const maxBlockSize: nat
    const compression: bool
    const freeSpace: Option<nat>
    var peerClosing: bool

    // The partial file, and the local variables of `_receive`.
    var file: bytes
    var expected: nat
    var running: bv32
    var received: nat
    var drops: nat
    var resets: nat

    // Lines written since READY.
    var said: seq<Reply>

    constructor (maxBlockSize: nat, compression: bool, freeSpace: Option<nat>)
      ensures this.maxBlockSize == maxBlockSize && this.compression == compression && this.freeSpace == freeSpace
    {
      this.maxBlockSize, this.compression, this.freeSpace := maxBlockSize, compression, freeSpace;
    }

    ghost function View(mode: Mode): Receiver
      reads this
    {
      Receiver(expected, received, file, running, drops, resets, peerClosing, mode)
    }

    method Say(y: Reply)
      modifies this`said
      ensures said == old(said) + [y]
    {
      said := said + [y];
    }

    /** Takes in a block whose payload is clean. */
    method Take(m: Meta, seqno: nat, plain: bytes) returns (mode: Mode)
      modifies this`file, this`expected, this`running, this`received, this`drops, this`resets, this`said
      ensures (View(mode), said) ==
              var (r, ys) := ReceiveClean(m, old(View(Receiving)), seqno, plain); (r, old(said) + ys)
    {
      hide Crc;
      mode := Receiving;
      if seqno < expected {
        Say(Ack(expected - 1));
        return;
      }
      if seqno != expected {
        drops := drops + 1;
        if drops >= MAX_DROPS {
          resets := resets + 1;
          if resets > MAX_RESETS {
            Say(Err);
            return Failed(TooManyResets);
          }
          file := [];
          expected, running, received, drops := 0, 0, 0, 0;
          Say(SelfReset);
        } else {
          Say(Drop(expected));
        }
        return;
      }
      if |plain| != Min(m.blockSize, m.size - received) {
        Say(Err);
        return Failed(WrongLength);
      }
      file := file + plain;
      running := Crc(running, plain);
      received := received + |plain|;
      expected := expected + 1;
      drops := 0;
      Say(Ack(seqno));
    }

    /** A data header and what follows it. */
    method TakeData(m: Meta, f: Frame, arrived: bool) returns (mode: Mode)
      requires f.Data? && m.blockSize <= MAX_BLOCK_SIZE
      modifies this`file, this`expected, this`running, this`received, this`drops, this`resets, this`said
      ensures (View(mode), said) ==
              var a := if arrived then Whole(f) else Cut(f);
              var (r, ys) := Hear(m, compression, old(View(Receiving)), a); (r, old(said) + ys)
    {
      hide Crc, ReceiveClean, Decode;
      assert said + [] == said;
      mode := Receiving;
      if f.packed && !compression {
        return Failed(NotData);
      }
      if |f.payload| > m.blockSize || f.seqno >= m.blocks {
        Say(Err);
        return Failed(BadHeader);
      }
      if f.packed && f.rawLen > m.blockSize {
        return Failed(BadHeader);
      }
      if !arrived {
        Say(Drop(expected));
        return;
      }
      var payload := Some(f.payload);
      if f.packed {
        payload := Lz4Codec.Decompress(f.payload, f.rawLen);
      }
      if payload.None? || Crc(0, payload.value) != f.want {
        Say(Nak(expected));
        return;
      }
      mode := Take(m, f.seqno, payload.value);
    }

    /** One pass of the receiving loop. */
    method Pass(m: Meta, a: Arrival) returns (mode: Mode)
      requires m.blockSize <= MAX_BLOCK_SIZE
      modifies this
      ensures (View(mode), said) ==
              var (r, ys) := Hear(m, compression, old(View(Receiving)), a); (r, old(said) + ys)
    {
      hide Crc, ReceiveClean, Clean;
      assert said + [] == said;
      mode := Receiving;
      match a.f {
        case ErrLine => mode := Failed(PeerError);
        case Ayt(t) => Say(Here(t, expected));
        case Reset(t) =>
          file := [];
          expected, running, received, drops, resets := 0, 0, 0, 0, 0;
          Say(ResetAck(t));
        case Done(crc) =>
          if expected != m.blocks {
            mode := Failed(EarlyDone);
          } else if running != crc || running != m.crc || received != m.size {
            Say(Fail(running));
            mode := Finished(false);
          } else {
            Say(Ok(running));
            mode := Finished(true);
          }
        case Barrier(t) => Say(Resume(t, expected));
        case Close =>
          Say(Bye);
          peerClosing := true;
        case Junk => mode := Failed(NotData);
        case Data(_, _, _, _, _) => mode := TakeData(m, a.f, a.Whole?);
      }
    }

    /** Receives one file from a line that brings these arrivals and then nothing more. */
    method Receive(m: Meta, arrivals: seq<Arrival>) returns (d: Download)
      requires maxBlockSize <= MAX_BLOCK_SIZE && !peerClosing
      modifies this
      ensures d.Refused? <==> !MetaFits(m, maxBlockSize)
      ensures d.NoSpace? <==> MetaFits(m, maxBlockSize) && freeSpace.Some? && m.size > freeSpace.value
      ensures d.Ended? ==> (View(d.mode), said) == Session(m, compression, arrivals)
      ensures d == Ended(Finished(true)) ==> |file| == m.size && Crc(0, file) == m.crc
    {
      hide Crc, Hear;
      if !(1 <= m.blockSize <= maxBlockSize) || m.size > MAX_FILE_SIZE
         || m.blocks != Max(1, (m.size + m.blockSize - 1) / m.blockSize) {
        return Refused;
      }
      if freeSpace.Some? && m.size > freeSpace.value {
        return NoSpace;
      }
      file, expected, running, received, drops, resets, said := [], 0, 0, 0, 0, 0, [];
      var mode: Mode := Receiving;
      var heard := 0;
      assert arrivals[..0] == [];
      while heard < |arrivals| && mode.Receiving?
        invariant heard <= |arrivals|
        invariant (View(mode), said) == Session(m, compression, arrivals[..heard])
        decreases |arrivals| - heard
      {
        assert arrivals[..heard + 1][..heard] == arrivals[..heard];
        mode := Pass(m, arrivals[heard]);
        heard := heard + 1;
      }
      SessionStops(m, compression, arrivals, heard);
      AllBlocksAreAllBytes(m, maxBlockSize, compression, arrivals);
      return Ended(mode);
    }
  }

  /** Once the receiver has stopped, what arrives later does not matter. */
  lemma {:induction false} SessionStops(m: Meta, compression: bool, arrivals: seq<Arrival>, heard: nat)
    requires heard <= |arrivals|
    requires heard < |arrivals| ==> !Session(m, compression, arrivals[..heard]).0.mode.Receiving?
    ensures Session(m, compression, arrivals) == Session(m, compression, arrivals[..heard])
    decreases |arrivals|
  {
    hide Hear;
    if heard < |arrivals| {
      var before := arrivals[..|arrivals| - 1];
      assert before[..heard] == arrivals[..heard];
      SessionStops(m, compression, before, heard);
    } else {
      assert arrivals[..heard] == arrivals;
    }
  }
}
