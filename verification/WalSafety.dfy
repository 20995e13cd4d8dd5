/** What every label of the accelerator keeps, and what recovery rebuilds from every reachable state. */
module WalSafety {
  import opened Ring
  import opened WalMachine
  import opened Wrappers

  ghost predicate Restarting(pc: Pc) {
    pc.Booting? || pc.Loaded? || pc.Truncated? || pc.HalfReplayed?
  }

  /** File bytes whose ring copy is not yet covered by `len`. */
  ghost function Pending(s: Wal): seq<byte> {
    if s.pc.Copying? || s.pc.Copied? then s.pc.data else []
  }

  /** Bytes of the current call that `acked` does not promise yet. */
  ghost function InFlight(s: Wal): seq<byte> {
    if s.pc.Copying? || s.pc.Copied? || s.pc.Ended? then s.pc.data else []
  }

  ghost function Tokens(s: Wal): nat {
    s.semStart + s.semDone + if s.syncing then 1 else 0
  }

  /** The counters add up to the file, and release only durable bytes. */
  ghost predicate Counted(s: Wal) {
    && Shaped(s)
    && s.base <= s.fsyncLen <= s.durable <= |s.file| < LEN_LIMIT
    && |s.file| == s.fsyncLen + s.len + |Pending(s)|
  }

  /** Ring and file agree, and the two persistent words say where. */
  ghost predicate RingAgrees(s: Wal) {
    && Counted(s)
    && Mirrors(s.ring, s.start, s.len, s.file, s.fsyncLen)
    && s.meta == MakeMeta(s.fsyncLen, s.start)
    && s.bufEnd == End(s)
  }

  /** The fsync handshake: one token while blocks are handed over, and a done token means they are durable. */
  ghost predicate Handshake(s: Wal) {
    && Tokens(s) == (if s.blockCount > 0 then 1 else 0)
    && (s.syncing ==> s.fsyncLen + Bytes(s.blockCount) <= s.target <= |s.file|)
    && (s.semDone > 0 ==> s.fsyncLen + Bytes(s.blockCount) <= s.durable)
  }

  /** The writer's place in aofguard_write; the assertions at lines 286 and 300 are the `<= cap` facts. */
  ghost predicate WriterAt(s: Wal) {
    && Shaped(s) && s.file == s.acked + InFlight(s)
    && match s.pc
       case Waiting(data) => s.blockCount > 0
       case Waited(data) => s.blockCount == 0
       case Synced(data) => s.blockCount == 0 && s.durable == |s.file|
       case Fits(data) => s.len + |data| <= s.cap
       case Copying(data) => s.len + |data| <= s.cap
       case Copied(data) => s.len + |data| <= s.cap && Slice(s.ring, End(s), |data|) == data
       case _ => true
  }

  /** Everything moves by whole blocks; a writer that waits fits once the whole blocks are gone (line 279). */
  ghost predicate Aligned(s: Wal) {
    && ValidCapacity(s.cap) && InBlock(s.start) == 0
    && InBlock(s.fsyncLen) == InBlock(s.base)
    && (s.pc.Waiting? || s.pc.Waited? || s.pc.Synced? ==> InBlock(s.len) + |s.pc.data| <= s.cap)
  }

  ghost predicate Agrees(s: Wal) {
    !Restarting(s.pc) && !s.pc.Broken? && RingAgrees(s) && Handshake(s) && WriterAt(s)
  }

  ghost predicate Running(s: Wal) {
    Agrees(s) && Aligned(s)
  }

  /** The persistent words decode, and name only durable file bytes. */
  ghost predicate Recoverable(s: Wal) {
    && ValidCapacity(s.cap) && |s.ring| == s.cap
    && MetaStart(s.meta) < s.cap && InBlock(MetaStart(s.meta)) == 0 && s.bufEnd < s.cap
    && InBlock(MetaFsyncLen(s.meta)) == InBlock(s.base)
    && s.base <= MetaFsyncLen(s.meta) <= s.durable <= |s.file|
    && s.meta == MakeMeta(MetaFsyncLen(s.meta), MetaStart(s.meta))
    && MetaFsyncLen(s.meta) + LiveLength(s) < LEN_LIMIT
  }

  /** The file that recovery rebuilds: the fsynced prefix, then the live ring bytes. */
  ghost function Image(s: Wal): seq<byte>
    requires Recoverable(s)
  {
    s.file[..MetaFsyncLen(s.meta)] + Slice(s.ring, MetaStart(s.meta), LiveLength(s))
  }

  ghost predicate Boots(s: Wal) {
    && Recoverable(s)
    && s.blockCount == s.semStart == s.semDone == 0 && !s.syncing
    && match s.pc
       case Booting => s.start == s.len == 0
       case Loaded => Decoded(s)
       case Truncated => Decoded(s) && |s.file| == s.fsyncLen
       case HalfReplayed => Decoded(s) && s.start + s.len > s.cap && s.file == s.file[..s.fsyncLen] + s.ring[s.start..]
       case _ => false
  }

  ghost predicate Decoded(s: Wal)
    requires Recoverable(s)
  {
    s.fsyncLen == MetaFsyncLen(s.meta) && s.start == MetaStart(s.meta) && s.len == LiveLength(s)
  }

  ghost predicate Invariant(s: Wal) {
    Running(s) || Boots(s)
  }

  /** The assertion at line 225: whole blocks released from an aligned start leave an aligned start. */
  lemma ForwardAligned(start: nat, blocks: nat, cap: nat)
    requires ValidCapacity(cap) && start < cap && InBlock(start) == 0 && Bytes(blocks) <= cap
    ensures InBlock(Forward(start, Bytes(blocks), cap)) == 0
  {
    SameWithinBlock(start, blocks);
    BlocksAndRest(cap);
    var end := Forward(start, Bytes(blocks), cap);
    SameWithinBlock(end, Blocks(cap));
  }

  lemma ReleaseAligned(s: Wal, blocks: nat)
    requires ValidCapacity(s.cap) && Shaped(s) && InBlock(s.start) == 0 && Bytes(blocks) <= s.len
    ensures var r := Release(s, blocks);
            && InBlock(r.start) == 0
            && InBlock(r.fsyncLen) == InBlock(s.fsyncLen)
            && InBlock(r.len) == InBlock(s.len)
  {
    ForwardAligned(s.start, blocks, s.cap);
    SameWithinBlock(s.fsyncLen, blocks);
    SameWithinBlock(s.len - Bytes(blocks), blocks);
  }

  /**
   * No label moves start, fsync_len or the fill by anything but whole blocks, except the write that ends in `StoreEnd`.
   */
  lemma StepKeepsAligned(l: Label, s: Wal)
    requires Agrees(s) && Aligned(s) && Enabled(l, s) && !l.Crash?
    ensures Aligned(Apply(l, s))
  {
    if l.Poll? || l.Wait? {
      ReleaseAligned(s, s.blockCount);
    } else if l.Advance? {
      BlocksAndRest(s.len);
      ReleaseAligned(s, Blocks(s.len));
    }
  }

  lemma ForwardTwice(pos: nat, n: nat, m: nat, cap: nat)
    requires pos < cap && n <= m <= cap
    ensures Forward(Forward(pos, n, cap), m - n, cap) == Forward(pos, m, cap)
  {
  }

  lemma ReleaseCounts(s: Wal, blocks: nat)
    requires Counted(s) && Bytes(blocks) <= s.len && s.fsyncLen + Bytes(blocks) <= s.durable
    ensures Counted(Release(s, blocks))
  {
  }

  lemma ReleaseEnds(s: Wal, blocks: nat)
    requires Shaped(s) && Bytes(blocks) <= s.len
    ensures var r := Release(s, blocks); Shaped(r) && End(r) == End(s)
  {
    ForwardTwice(s.start, Bytes(blocks), s.len, s.cap);
  }

  lemma ReleaseMirrors(s: Wal, blocks: nat)
    requires Shaped(s) && Bytes(blocks) <= s.len && Mirrors(s.ring, s.start, s.len, s.file, s.fsyncLen)
    ensures var r := Release(s, blocks);
            Mirrors(r.ring, r.start, r.len, r.file, r.fsyncLen) && Shaped(r) && End(r) == End(s)
  {
    ReleaseEnds(s, blocks);
    MirrorsDrop(s.ring, s.start, s.len, s.file, s.fsyncLen, Bytes(blocks));
  }

  /** update_after_fsync keeps ring and file in step when what it releases is durable (lines 224 to 230). */
  lemma ReleaseKeeps(s: Wal, blocks: nat)
    requires RingAgrees(s) && Bytes(blocks) <= s.len && s.fsyncLen + Bytes(blocks) <= s.durable
    ensures RingAgrees(Release(s, blocks))
  {
    ReleaseCounts(s, blocks);
    ReleaseMirrors(s, blocks);
  }

  /** The blocks handed to the worker are reclaimed only once its token says they are durable. */
  lemma HandOverKeeps(s: Wal)
    requires RingAgrees(s) && Handshake(s) && s.blockCount > 0 && s.semDone > 0
    ensures RingAgrees(HandOver(s)) && Handshake(HandOver(s))
  {
    ReleaseKeeps(s, s.blockCount);
  }

  lemma PollKeeps(s: Wal, data: seq<byte>)
    requires Agrees(s) && s.pc == Entered(data)
    ensures Agrees(AfterPoll(s, data))
  {
    if s.blockCount > 0 && s.semDone > 0 {
      HandOverKeeps(s);
    }
  }

  lemma WaitKeeps(s: Wal, data: seq<byte>)
    requires Agrees(s) && s.pc == Waiting(data) && s.semDone > 0
    ensures Agrees(HandOver(s).(pc := Waited(data)))
  {
    HandOverKeeps(s);
  }

  /** do_fsync leaves less than one block in the ring, so the accepted bytes fit. */
  lemma AdvanceKeeps(s: Wal, data: seq<byte>)
    requires Agrees(s) && s.pc == Synced(data) && InBlock(s.len) + |data| <= s.cap
    ensures Agrees(AfterAdvance(s, data))
  {
    BlocksAndRest(s.len);
    ReleaseKeeps(s, Blocks(s.len));
  }

  lemma AppendKeeps(s: Wal)
    requires Agrees(s) && Enabled(Append, s)
    ensures Agrees(Apply(Append, s))
  {
    var t := Apply(Append, s);
    assert t.file[s.fsyncLen..s.fsyncLen + s.len] == s.file[s.fsyncLen..s.fsyncLen + s.len];
  }

  lemma CopyKeeps(l: Label, s: Wal)
    requires Agrees(s) && Enabled(l, s) && (l.Tear? || l.CopyDone?)
    ensures Agrees(Apply(l, s))
  {
    if l.Tear? {
      SliceFrame(s.ring, l.ring, s.start, s.len, |s.pc.data|);
    }
  }

  /** One store of buf_end makes the copied bytes live. */
  lemma StoreEndAgrees(s: Wal, data: seq<byte>)
    requires RingAgrees(s) && s.pc == Copied(data) && s.len + |data| <= s.cap
    requires Mirrors(s.ring, s.start, s.len + |data|, s.file, s.fsyncLen)
    ensures RingAgrees(AfterStoreEnd(s, data))
  {
  }

  lemma StoreEndMirrors(s: Wal, data: seq<byte>)
    requires Shaped(s) && s.len + |data| <= s.cap && Mirrors(s.ring, s.start, s.len, s.file, s.fsyncLen)
    requires s.file == s.acked + data && |s.acked| == s.fsyncLen + s.len
    requires Slice(s.ring, End(s), |data|) == data
    ensures Mirrors(s.ring, s.start, s.len + |data|, s.file, s.fsyncLen)
  {
    MirrorsExtend(s.ring, s.start, s.len, s.acked, s.fsyncLen, data);
  }

  lemma StoreEndKeeps(s: Wal, data: seq<byte>)
    requires Agrees(s) && s.pc == Copied(data)
    ensures Agrees(AfterStoreEnd(s, data))
  {
    assert |s.acked| == s.fsyncLen + s.len;
    StoreEndMirrors(s, data);
    StoreEndAgrees(s, data);
  }

  lemma ReturnKeeps(s: Wal)
    requires Agrees(s) && s.pc.Ended?
    ensures Agrees(AfterReturn(s))
  {
    BlocksAndRest(s.len);
  }

  lemma WorkerKeeps(l: Label, s: Wal)
    requires Agrees(s) && Enabled(l, s) && (l.WorkerTake? || l.WorkerDone?)
    ensures Agrees(Apply(l, s))
  {
  }

  lemma TestKeeps(l: Label, s: Wal)
    requires Agrees(s) && Enabled(l, s) && (l.Begin? || l.Decide? || l.Recheck?)
    ensures Agrees(Apply(l, s))
  {
  }

  lemma AgreementStep(l: Label, s: Wal)
    requires Running(s) && Enabled(l, s) && !l.Crash?
    ensures Agrees(Apply(l, s))
  {
    match l
    case Begin(_) | Decide | Recheck => TestKeeps(l, s);
    case Poll => PollKeeps(s, s.pc.data);
    case Wait => WaitKeeps(s, s.pc.data);
    case Advance => AdvanceKeeps(s, s.pc.data);
    case Append => AppendKeeps(s);
    case Tear(_) | CopyDone => CopyKeeps(l, s);
    case StoreEnd => StoreEndKeeps(s, s.pc.data);
    case Return => ReturnKeeps(s);
    case WorkerTake | WorkerDone => WorkerKeeps(l, s);
    case Load | Truncate | ReplayFront | ReplayBack =>
  }

  lemma RunningStepKeeps(l: Label, s: Wal)
    requires Running(s) && Enabled(l, s) && !l.Crash?
    ensures Running(Apply(l, s))
  {
    StepKeepsAligned(l, s);
    AgreementStep(l, s);
  }

  /**
   * While the accelerator runs, the two words always decode to its start, its fsync_len and its fill; a full ring reads
   * as empty.
   */
  lemma WordsDecode(s: Wal)
    requires Running(s)
    ensures Recoverable(s)
    ensures MetaFsyncLen(s.meta) == s.fsyncLen && MetaStart(s.meta) == s.start
    ensures LiveLength(s) == if s.len == s.cap then 0 else s.len
  {
    MetaRoundTrip(s.fsyncLen, s.start);
  }

  /** What every call that stored its buf_end is owed after a crash. */
  ghost function Promise(s: Wal): seq<byte> {
    if s.pc.Ended? then s.acked + s.pc.data else s.acked
  }

  /** The image keeps every promise if and only if the ring is not filled to exactly its capacity. */
  lemma ImageIsPromise(s: Wal)
    requires Running(s)
    ensures Recoverable(s)
    ensures Image(s) == Promise(s) <==> s.len < s.cap
    ensures s.len == s.cap ==> Image(s) == s.file[..s.fsyncLen]
  {
    WordsDecode(s);
    FileIsPromise(s);
    if s.len < s.cap {
      FileSplits(s.file, s.fsyncLen, s.len);
    }
  }

  lemma FileIsPromise(s: Wal)
    requires Running(s)
    ensures s.file == Promise(s) + Pending(s) && |Promise(s)| == s.fsyncLen + s.len
    ensures Promise(s) == s.file[..s.fsyncLen + s.len]
  {
  }

  lemma FileSplits(file: seq<byte>, n: nat, m: nat)
    requires n + m <= |file|
    ensures file[..n + m] == file[..n] + file[n..n + m]
  {
  }

  /** A crash in any state leaves words that recovery accepts, over the same image. */
  lemma CrashKeepsImage(s: Wal, survivor: seq<byte>)
    requires Invariant(s) && Enabled(Crash(survivor), s)
    ensures Recoverable(s)
    ensures Boots(Apply(Crash(survivor), s)) && Image(Apply(Crash(survivor), s)) == Image(s)
  {
    if Running(s) {
      WordsDecode(s);
    }
    var f := MetaFsyncLen(s.meta);
    assert s.file[..s.durable][..f] == s.file[..f];
    assert survivor[..s.durable][..f] == survivor[..f];
  }

  lemma BootReadsKeepImage(l: Label, s: Wal)
    requires Boots(s) && Enabled(l, s) && (l.Load? || l.Truncate?)
    ensures Boots(Apply(l, s)) && Image(Apply(l, s)) == Image(s)
  {
    if l.Load? {
      LoadKeepsImage(s);
    } else {
      TruncateKeepsImage(s);
    }
  }

  lemma LoadKeepsImage(s: Wal)
    requires Boots(s) && s.pc.Booting?
    ensures Boots(AfterLoad(s)) && Image(AfterLoad(s)) == Image(s)
  {
    assert AfterLoad(s) == s.(fsyncLen := MetaFsyncLen(s.meta), start := MetaStart(s.meta), len := LiveLength(s),
      pc := Loaded);
  }

  lemma TruncateKeepsImage(s: Wal)
    requires Boots(s) && s.pc.Loaded?
    ensures Boots(AfterTruncate(s)) && Image(AfterTruncate(s)) == Image(s)
  {
    var t := AfterTruncate(s);
    assert t.file == s.file[..s.fsyncLen] && t.file[..s.fsyncLen] == t.file;
  }

  /** The first piece either completes the file or leaves exactly the wrapped piece to append. */
  lemma ReplayFrontKeepsImage(s: Wal)
    requires Boots(s) && Enabled(ReplayFront, s)
    ensures var t := Apply(ReplayFront, s);
            if t.pc.Idle? then t.file == Image(s) else Boots(t) && Image(t) == Image(s)
  {
    assert s.file[..s.fsyncLen] == s.file;
    if s.start + s.len > s.cap {
      FrontLeavesBack(s);
    }
  }

  lemma FrontLeavesBack(s: Wal)
    requires Boots(s) && s.pc.Truncated? && s.start + s.len > s.cap
    ensures Boots(AfterReplayFront(s)) && Image(AfterReplayFront(s)) == Image(s)
  {
    var t := AfterReplayFront(s);
    Whole(s.file, s.fsyncLen);
    Prefix(s.file, s.ring[s.start..]);
    assert t.file[..s.fsyncLen] == s.file;
  }

  lemma Whole(s: seq<byte>, n: nat)
    requires n == |s|
    ensures s[..n] == s
  {
  }

  lemma Prefix(front: seq<byte>, back: seq<byte>)
    ensures (front + back)[..|front|] == front
  {
  }

  lemma ReplayBackCompletesImage(s: Wal)
    requires Boots(s) && Enabled(ReplayBack, s)
    ensures Apply(ReplayBack, s).file == Image(s)
  {
    ThreePieces(s.file[..s.fsyncLen], s.ring[s.start..], s.ring[..s.start + s.len - s.cap]);
  }

  lemma ThreePieces(f: seq<byte>, front: seq<byte>, back: seq<byte>)
    ensures f + front + back == f + (front + back)
  {
  }

  /** The restarted accelerator agrees with its file again. */
  lemma RestartRuns(l: Label, s: Wal)
    requires Boots(s) && Enabled(l, s) && (l.ReplayFront? || l.ReplayBack?)
    requires Apply(l, s).pc.Idle? && Apply(l, s).file == Image(s)
    ensures Running(Apply(l, s)) && Apply(l, s).len < s.cap
  {
    LastReplay(l, s);
    RestoredRuns(s);
  }

  lemma LastReplay(l: Label, s: Wal)
    requires Boots(s) && Enabled(l, s) && (l.ReplayFront? || l.ReplayBack?) && Apply(l, s).pc.Idle?
    ensures Apply(l, s) == s.(file := Apply(l, s).file, pc := Idle, acked := Apply(l, s).file)
    ensures Decoded(s) && (s.pc.Truncated? || s.pc.HalfReplayed?)
  {
  }

  lemma RestoredRuns(s: Wal)
    requires Boots(s) && (s.pc.Truncated? || s.pc.HalfReplayed?)
    ensures Running(s.(file := Image(s), pc := Idle, acked := Image(s))) && s.len < s.cap
  {
    var image := Image(s);
    assert image[..s.fsyncLen] == s.file[..s.fsyncLen];
    assert image[s.fsyncLen..s.fsyncLen + s.len] == Slice(s.ring, s.start, s.len);
  }
}
