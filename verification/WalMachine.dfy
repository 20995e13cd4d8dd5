/** The write-ahead-log accelerator as a machine: one label for every store another actor or a crash can see. */
module WalMachine {
  import opened Ring
  import opened Wrappers

  /** Where the writer stands in aofguard_write, or the restarted process in aofguard_init. */
  datatype Pc =
    | Idle                      // between calls
    | Entered(data: seq<byte>)  // before handle_afsync_if_finish
    | Polled(data: seq<byte>)   // before the first room test
    | Waiting(data: seq<byte>)  // blocked on sem_done
    | Waited(data: seq<byte>)   // before the second room test
    | Synced(data: seq<byte>)   // the writer's own FSYNC returned
    | Fits(data: seq<byte>)     // at the assertion before the file write
    | Copying(data: seq<byte>)  // file written, ring copy under way
    | Copied(data: seq<byte>)   // ring copy persisted, buf_end still old
    | Ended(data: seq<byte>)    // buf_end stored, the call not yet returned
    | Booting                   // restarted after a crash, nothing read yet
    | Loaded                    // words decoded
    | Truncated                 // file cut to fsync_len
    | HalfReplayed              // front piece of a wrapped ring appended
    | Broken                    // aofguard_init refused the files

  datatype Wal = Wal(
    base: nat,          // fsync_len when the ring file was created
    cap: nat,
    file: seq<byte>,    // what a read of the file returns now
    durable: nat,       // length of the prefix of `file` that survives a crash
    ring: seq<byte>,    // persistent
    meta: nat,          // persistent word: fsync_len and start block
    bufEnd: nat,        // persistent word
    fsyncLen: nat,
    start: nat,
    len: nat,
    blockCount: nat,
    semStart: nat,
    semDone: nat,
    syncing: bool,      // the worker is inside FSYNC
    target: nat,        // file length when that FSYNC began
    pc: Pc,
    acked: seq<byte>)   // the bytes every returned call promised

  datatype Label =
    | Begin(data: seq<byte>)
    | Poll
    | Decide
    | Wait
    | Recheck
    | Advance
    | Append
    | Tear(ring: seq<byte>)
    | CopyDone
    | StoreEnd
    | Return
    | WorkerTake
    | WorkerDone
    | Crash(survivor: seq<byte>)
    | Load
    | Truncate
    | ReplayFront
    | ReplayBack

  /** A freshly created ring over a file whose content is already durable. */
  ghost predicate Init(s: Wal) {
    && ValidCapacity(s.cap) && |s.ring| == s.cap
    && |s.file| < LEN_LIMIT
    && s == Wal(|s.file|, s.cap, s.file, |s.file|, s.ring, |s.file|, 0, |s.file|, 0, 0, 0, 0, 0, false, 0, Idle, s.file)
  }

  /**
   * update_after_fsync: the ring gives up `blocks` whole blocks, and one persistent word says so. No block
   * stays handed over: both callers that pass block_count clear it, and do_fsync runs when it is already 0.
   */
  ghost function Release(s: Wal, blocks: nat): Wal
    requires Shaped(s) && Bytes(blocks) <= s.len
  {
    if blocks == 0 then s.(blockCount := 0)
    else
      var size := Bytes(blocks);
      var start := Forward(s.start, size, s.cap);
      s.(start := start, len := s.len - size, fsyncLen := s.fsyncLen + size,
         meta := MakeMeta(s.fsyncLen + size, start), blockCount := 0)
  }

  /** The parts of the state every label may rely on. */
  ghost predicate Shaped(s: Wal) {
    |s.ring| == s.cap && s.start < s.cap && s.len <= s.cap && Bytes(s.blockCount) <= s.len
  }

  ghost function End(s: Wal): nat
    requires Shaped(s)
  {
    Forward(s.start, s.len, s.cap)
  }

  ghost predicate Enabled(l: Label, s: Wal) {
    Shaped(s) &&
    match l
    case Begin(data) => s.pc.Idle?
    case Poll => s.pc.Entered?
    case Decide => s.pc.Polled?
    case Wait => s.pc.Waiting? && s.semDone > 0
    case Recheck => s.pc.Waited?
    case Advance => s.pc.Synced?
    // the assertion before the file write; 48 bits hold the file length
    case Append => s.pc.Fits? && s.len + |s.pc.data| <= s.cap && |s.file| + |s.pc.data| < LEN_LIMIT
    case Tear(ring) => s.pc.Copying? && OnlyWithin(s.ring, ring, End(s), |s.pc.data|)
    case CopyDone => s.pc.Copying? && s.len + |s.pc.data| <= s.cap && Slice(s.ring, End(s), |s.pc.data|) == s.pc.data
    case StoreEnd => s.pc.Copied? && s.len + |s.pc.data| <= s.cap
    case Return => s.pc.Ended?
    case WorkerTake => !s.syncing && s.semStart > 0
    case WorkerDone => s.syncing
    // whatever was not durable may survive in any form
    case Crash(survivor) => s.durable <= |survivor| && s.durable <= |s.file|
      && survivor[..s.durable] == s.file[..s.durable]
    case Load => s.pc.Booting?
    case Truncate => s.pc.Loaded?
    case ReplayFront => s.pc.Truncated?
    case ReplayBack => s.pc.HalfReplayed? && s.start + s.len > s.cap
  }

  /** Lines 277 to 280: the call is refused before anything changes. */
  ghost predicate Rejects(s: Wal, n: nat) {
    s.len + n > s.cap && InBlock(s.len) + n > s.cap
  }

  ghost function Apply(l: Label, s: Wal): Wal
    requires Enabled(l, s)
  {
    match l
    case Begin(data) => s.(pc := Entered(data))
    case Poll => AfterPoll(s, s.pc.data)
    case Decide => AfterDecide(s, s.pc.data)
    case Wait => HandOver(s).(pc := Waited(s.pc.data))
    case Recheck => AfterRecheck(s, s.pc.data)
    case Advance => AfterAdvance(s, s.pc.data)
    case Append => s.(file := s.file + s.pc.data, pc := Copying(s.pc.data))
    case Tear(ring) => s.(ring := ring)
    case CopyDone => s.(pc := Copied(s.pc.data))
    case StoreEnd => AfterStoreEnd(s, s.pc.data)
    case Return => AfterReturn(s)
    case WorkerTake => s.(semStart := s.semStart - 1, syncing := true, target := |s.file|)
    case WorkerDone => AfterWorkerDone(s)
    case Crash(survivor) => Restart(s, survivor)
    case Load => AfterLoad(s)
    case Truncate => AfterTruncate(s)
    case ReplayFront => AfterReplayFront(s)
    case ReplayBack => Replayed(s, s.ring[..s.len - (s.cap - s.start)])
  }

  /** The done token arrives: the blocks handed to the worker leave the ring (lines 240 and 266). */
  ghost function HandOver(s: Wal): Wal
    requires Shaped(s) && s.semDone > 0
  {
    Release(s, s.blockCount).(semDone := s.semDone - 1)
  }

  ghost function AfterPoll(s: Wal, data: seq<byte>): Wal
    requires Shaped(s)
  {
    if s.blockCount > 0 && s.semDone > 0 then HandOver(s).(pc := Polled(data)) else s.(pc := Polled(data))
  }

  ghost function AfterDecide(s: Wal, data: seq<byte>): Wal {
    if s.len + |data| <= s.cap then s.(pc := Fits(data))
    else if Rejects(s, |data|) then s.(pc := Idle)
    else if s.blockCount == 0 then s.(pc := Waited(data))
    else s.(pc := Waiting(data))
  }

  ghost function AfterRecheck(s: Wal, data: seq<byte>): Wal {
    if s.len + |data| <= s.cap then s.(pc := Fits(data)) else s.(durable := |s.file|, pc := Synced(data))
  }

  ghost function AfterAdvance(s: Wal, data: seq<byte>): Wal
    requires Shaped(s)
  {
    BlocksAndRest(s.len);
    Release(s, Blocks(s.len)).(pc := Fits(data))
  }

  ghost function AfterStoreEnd(s: Wal, data: seq<byte>): Wal
    requires Shaped(s) && s.len + |data| <= s.cap
  {
    s.(len := s.len + |data|, bufEnd := Forward(s.start, s.len + |data|, s.cap), pc := Ended(data))
  }

  /** Lines 303 to 309: whole blocks start a background fsync, and the call is acknowledged. */
  ghost function AfterReturn(s: Wal): Wal {
    if s.len >= Bytes(1) && s.blockCount == 0
    then s.(blockCount := Blocks(s.len), semStart := s.semStart + 1, pc := Idle, acked := s.file)
    else s.(pc := Idle, acked := s.file)
  }

  ghost function AfterWorkerDone(s: Wal): Wal {
    s.(syncing := false, semDone := s.semDone + 1, durable := if s.target > s.durable then s.target else s.durable)
  }

  ghost function Restart(s: Wal, survivor: seq<byte>): Wal {
    s.(file := survivor, fsyncLen := 0, start := 0, len := 0, blockCount := 0, semStart := 0, semDone := 0,
       syncing := false, target := 0, pc := Booting)
  }

  ghost function AfterLoad(s: Wal): Wal {
    if MetaStart(s.meta) >= s.cap || s.bufEnd >= s.cap then s.(pc := Broken)
    else s.(fsyncLen := MetaFsyncLen(s.meta), start := MetaStart(s.meta), len := LiveLength(s), pc := Loaded)
  }

  /** The cut itself is not durable, so nothing behind it is. */
  ghost function AfterTruncate(s: Wal): Wal {
    if |s.file| < s.fsyncLen then s.(pc := Broken)
    else s.(file := s.file[..s.fsyncLen],
            durable := if s.durable < s.fsyncLen then s.durable else s.fsyncLen, pc := Truncated)
  }

  ghost function AfterReplayFront(s: Wal): Wal
    requires Shaped(s)
  {
    if s.start + s.len <= s.cap then Replayed(s, s.ring[s.start..s.start + s.len])
    else s.(file := s.file + s.ring[s.start..], pc := HalfReplayed)
  }

  ghost function Replayed(s: Wal, piece: seq<byte>): Wal {
    s.(file := s.file + piece, pc := Idle, acked := s.file + piece)
  }

  /** Lines 158 to 161: what the two words say is live. Equal ends read as an empty ring. */
  ghost function LiveLength(s: Wal): nat
    requires MetaStart(s.meta) < s.cap && s.bufEnd < s.cap
  {
    if s.bufEnd >= MetaStart(s.meta) then s.bufEnd - MetaStart(s.meta) else s.cap + s.bufEnd - MetaStart(s.meta)
  }

  /** The worker owns the semaphores, its own progress and what has become durable; nothing else. */
  ghost predicate OnlyWorkerMoved(s: Wal, t: Wal) {
    t == s.(semStart := t.semStart, semDone := t.semDone, syncing := t.syncing, target := t.target,
      durable := t.durable)
  }

  /** Runs are label sequences; a run stops at the first label that is not enabled. */
  ghost function Run(s: Wal, ls: seq<Label>): Option<Wal> {
    if ls == [] then Some(s)
    else
      var before := Run(s, ls[..|ls| - 1]);
      if before.Some? && Enabled(ls[|ls| - 1], before.value) then Some(Apply(ls[|ls| - 1], before.value)) else None
  }
}
