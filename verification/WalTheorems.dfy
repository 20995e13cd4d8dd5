/** Claims over whole runs of the accelerator: any interleaving, any crash, any number of crashes. */
module WalTheorems {
  import opened Ring
  import opened WalMachine
  import opened WalSafety
  import opened Wrappers

  lemma BootStepKeeps(l: Label, s: Wal)
    requires Boots(s) && Enabled(l, s) && !l.Crash?
    ensures Invariant(Apply(l, s))
  {
    if l.Load? || l.Truncate? {
      BootReadsKeepImage(l, s);
    } else if l.ReplayFront? {
      ReplayFrontKeepsImage(s);
      if Apply(l, s).pc.Idle? { RestartRuns(l, s); }
    } else if l.ReplayBack? {
      ReplayBackCompletesImage(s);
      RestartRuns(l, s);
    }
  }

  /** Every label keeps the invariant, so no run ever reaches `Broken`. */
  lemma StepKeeps(l: Label, s: Wal)
    requires Invariant(s) && Enabled(l, s)
    ensures Invariant(Apply(l, s)) && Apply(l, s).base == s.base && Apply(l, s).cap == s.cap
  {
    if l.Crash? {
      CrashKeepsImage(s, l.survivor);
    } else if Boots(s) {
      BootStepKeeps(l, s);
    } else {
      RunningStepKeeps(l, s);
    }
  }

  lemma InitHolds(s: Wal)
    requires Init(s)
    ensures Running(s)
  {
    assert MakeMeta(|s.file|, 0) == |s.file|;
  }

  lemma {:induction false} EveryRunKeeps(s: Wal, ls: seq<Label>)
    requires Invariant(s) && Run(s, ls).Some?
    ensures Invariant(Run(s, ls).value)
    ensures Run(s, ls).value.base == s.base && Run(s, ls).value.cap == s.cap
    decreases |ls|
  {
    if ls == [] {
    } else {
      EveryRunKeeps(s, ls[..|ls| - 1]);
      StepKeeps(ls[|ls| - 1], Run(s, ls[..|ls| - 1]).value);
    }
  }

  /** Every state a fresh accelerator can reach satisfies the invariant. */
  lemma Reachable(origin: Wal, history: seq<Label>, s: Wal)
    requires Init(origin) && Run(origin, history) == Some(s)
    ensures Invariant(s) && s.base == |origin.file| && s.cap == origin.cap
  {
    InitHolds(origin);
    EveryRunKeeps(origin, history);
  }

  ghost predicate RecoveryLabel(l: Label) {
    l.Crash? || l.Load? || l.Truncate? || l.ReplayFront? || l.ReplayBack?
  }

  /** A state on the way from a crash to the rebuilt file, or already there. */
  ghost predicate Recovering(s: Wal, image: seq<byte>) {
    if s.pc.Idle? then Running(s) && s.len < s.cap && s.file == s.acked == image
    else Boots(s) && Image(s) == image
  }

  lemma RecoveryStep(l: Label, s: Wal, image: seq<byte>)
    requires Recovering(s, image) && Enabled(l, s) && RecoveryLabel(l)
    ensures Recovering(Apply(l, s), image)
  {
    match l
    case Crash(survivor) =>
      CrashKeepsImage(s, survivor);
      if s.pc.Idle? { ImageIsPromise(s); }
    case Load | Truncate => BootReadsKeepImage(l, s);
    case ReplayFront =>
      ReplayFrontKeepsImage(s);
      if Apply(l, s).pc.Idle? { RestartRuns(l, s); }
    case ReplayBack =>
      ReplayBackCompletesImage(s);
      RestartRuns(l, s);
    case _ =>
  }

  /** Recovery may itself crash at any store, any number of times: the image never changes. */
  lemma {:induction false} RecoveryRun(s: Wal, ls: seq<Label>)
    requires Invariant(s) && ls != [] && ls[0].Crash? && (forall l <- ls :: RecoveryLabel(l))
    requires Run(s, ls).Some?
    ensures Recoverable(s) && Recovering(Run(s, ls).value, Image(s))
    decreases |ls|
  {
    var front := ls[..|ls| - 1];
    var before := Run(s, front).value;
    if front == [] {
      CrashKeepsImage(s, ls[0].survivor);
    } else {
      RecoveryRun(s, front);
      RecoveryStep(ls[|ls| - 1], before, Image(s));
    }
  }

  /**
   * Crash safety. Take any run from a fresh ring, stop it at any store, and let recovery run to the end
   * through any further crashes. The file is then exactly the acknowledged bytes, plus the call in flight if
   * and only if its buf_end was stored, unless the ring was full to the last byte when the crash came.
   */
  lemma CrashSafety(origin: Wal, history: seq<Label>, s: Wal, recovery: seq<Label>, t: Wal)
    requires Init(origin) && Run(origin, history) == Some(s) && Running(s)
    requires recovery != [] && recovery[0].Crash? && (forall l <- recovery :: RecoveryLabel(l))
    requires Run(s, recovery) == Some(t)
    ensures !t.pc.Broken?
    ensures t.pc.Idle? ==> (t.file == Promise(s) <==> s.len < s.cap)
    ensures t.pc.Idle? ==> t.file == t.acked && t.file <= s.file
  {
    Reachable(origin, history, s);
    RecoveryRun(s, recovery);
    ImageIsPromise(s);
    assert s.file == Promise(s) + Pending(s);
  }

  lemma RunOne(s: Wal, ls: seq<Label>, l: Label)
    requires Run(s, ls).Some? && Enabled(l, Run(s, ls).value)
    ensures Run(s, ls + [l]) == Some(Apply(l, Run(s, ls).value))
  {
    assert (ls + [l])[..|ls|] == ls;
  }

  ghost function NextRecoveryLabel(pc: Pc): Label {
    match pc
    case Booting => Load
    case Loaded => Truncate
    case Truncated => ReplayFront
    case _ => ReplayBack
  }

  ghost function StagesLeft(pc: Pc): nat {
    match pc
    case Booting => 4
    case Loaded => 3
    case Truncated => 2
    case HalfReplayed => 1
    case _ => 0
  }

  /** Recovery is never stuck: each stage can run, none refuses the files, and at most four remain. */
  lemma RecoveryAdvances(s: Wal)
    requires Boots(s)
    ensures var l := NextRecoveryLabel(s.pc);
            && Enabled(l, s) && StagesLeft(Apply(l, s).pc) < StagesLeft(s.pc) <= 4
            && !Apply(l, s).pc.Broken? && (StagesLeft(Apply(l, s).pc) == 0 <==> Apply(l, s).pc.Idle?)
  {
  }

  lemma RunTwo(s: Wal, ls: seq<Label>, l: Label, m: Label)
    requires Run(s, ls).Some? && Enabled(l, Run(s, ls).value) && Enabled(m, Apply(l, Run(s, ls).value))
    ensures Run(s, ls + [l, m]) == Some(Apply(m, Apply(l, Run(s, ls).value)))
  {
    RunOne(s, ls, l);
    RunOne(s, ls + [l], m);
    assert ls + [l] + [m] == ls + [l, m];
  }

  lemma FullRingAppends(s: Wal, data: seq<byte>)
    requires Init(s) && s.file == [] && |data| == s.cap
    ensures Run(s, [Begin(data), Poll] + [Decide, Append]) == Some(s.(file := data, pc := Copying(data)))
  {
    RunTwo(s, [], Begin(data), Poll);
    assert [] + [Begin(data), Poll] == [Begin(data), Poll];
    RunTwo(s, [Begin(data), Poll], Decide, Append);
    assert [] + data == data;
  }

  lemma FullRingCopies(s: Wal, ls: seq<Label>, data: seq<byte>)
    requires Init(s) && s.file == [] && |data| == s.cap
    requires Run(s, ls) == Some(s.(file := data, pc := Copying(data)))
    ensures Run(s, ls + [Tear(data), CopyDone]) == Some(s.(file := data, ring := data, pc := Copied(data)))
  {
    var t := s.(file := data, pc := Copying(data));
    assert Slice(data, 0, |data|) == data;
    RunTwo(s, ls, Tear(data), CopyDone);
  }

  /**
   * The exception is real: one write of exactly `cap` bytes is acknowledged, and recovery then rebuilds an empty file.
   */
  lemma FullRingLosesTheWrite(origin: Wal, data: seq<byte>)
    requires Init(origin) && origin.file == [] && |data| == origin.cap
    ensures var calls := [Begin(data), Poll] + [Decide, Append] + [Tear(data), CopyDone] + [StoreEnd, Return];
            && Run(origin, calls).Some? && Running(Run(origin, calls).value)
            && Run(origin, calls).value.acked == data
            && Recoverable(Run(origin, calls).value) && Image(Run(origin, calls).value) == []
  {
    var calls := [Begin(data), Poll] + [Decide, Append] + [Tear(data), CopyDone];
    FullRingAppends(origin, data);
    FullRingCopies(origin, [Begin(data), Poll] + [Decide, Append], data);
    RunTwo(origin, calls, StoreEnd, Return);
    var s := Run(origin, calls + [StoreEnd, Return]).value;
    Reachable(origin, calls + [StoreEnd, Return], s);
    ImageIsPromise(s);
    assert s.file[..0] == [];
  }

  /**
   * A writer blocked in wait_afsync_done always has a way out: the worker moves, and every worker move brings the done
   * token closer.
   */
  lemma BlockedWriterIsFreed(s: Wal)
    requires Running(s) && s.pc.Waiting?
    ensures Enabled(Wait, s) || Enabled(WorkerTake, s) || Enabled(WorkerDone, s)
    ensures Enabled(Wait, s) <==> Rank(s) == 0
    ensures forall l: Label :: Enabled(l, s) && (l.WorkerTake? || l.WorkerDone?) ==> Rank(Apply(l, s)) < Rank(s)
  {
  }

  /** Worker moves still needed before sem_done can be taken. */
  ghost function Rank(s: Wal): nat {
    if s.semDone > 0 then 0 else if s.syncing then 1 else 2
  }

  lemma RestOfDifference(fsyncLen: nat, len: nat, base: nat)
    requires base <= fsyncLen && InBlock(fsyncLen) == InBlock(base)
    ensures InBlock(fsyncLen + len - base) == InBlock(len)
  {
    BlocksAndRest(fsyncLen);
    BlocksAndRest(base);
    SameWithinBlock(len, Blocks(fsyncLen) - Blocks(base));
  }

  /** The test as a caller sees it: only the bytes taken since the ring was created count, modulo a block. */
  ghost predicate Accepts(acked: seq<byte>, base: nat, n: nat, cap: nat) {
    base <= |acked| && InBlock(|acked| - base) + n <= cap
  }

  lemma AcceptanceAt(s: Wal, n: nat)
    requires Running(s) && s.pc.Polled?
    ensures Rejects(s, n) <==> !Accepts(s.acked, s.base, n, s.cap)
  {
    assert |s.acked| == s.fsyncLen + s.len;
    RestOfDifference(s.fsyncLen, s.len, s.base);
    BlocksAndRest(s.len);
  }

  /** In the operators of the code. */
  lemma AcceptsMeans(acked: seq<byte>, base: nat, n: nat, cap: nat)
    requires base <= |acked|
    ensures Accepts(acked, base, n, cap) <==> (|acked| - base) % 0x10_0000 + n <= cap
  {
    DivisionOperators(|acked| - base, 0x10_0000);
  }

  /**
   * Whole blocks never lie in the ring unattended: a write that returns has handed over blocks, with exactly one token
   * out, unless less than a block is live. When none were handed over before, all whole blocks are now.
   */
  lemma ReturnHandsOver(s: Wal)
    requires Running(s) && s.pc.Ended?
    ensures var t := Apply(Return, s);
            && t.pc.Idle? && t.acked == t.file == s.file && t.len == s.len
            && (t.blockCount == 0 ==> s.len < Bytes(1))
            && t.semStart + t.semDone + (if t.syncing then 1 else 0) == (if t.blockCount > 0 then 1 else 0)
            && (s.blockCount == 0 && s.len >= Bytes(1) ==> t.blockCount == s.len / 0x10_0000 > 0 && t.semStart == 1)
            && (s.blockCount > 0 ==> t.blockCount == s.blockCount)
  {
    BlocksAndRest(s.len);
    DivisionOperators(s.len, 0x10_0000);
  }

  /** Schedule-independent acceptance: the refusal depends only on the bytes accepted so far, never on fsync timing. */
  lemma Acceptance(origin: Wal, history: seq<Label>, s: Wal)
    requires Init(origin) && Run(origin, history) == Some(s) && s.pc.Polled?
    ensures s.base == |origin.file| && s.cap == origin.cap
    ensures AfterDecide(s, s.pc.data).pc.Idle? <==> !Accepts(s.acked, s.base, |s.pc.data|, s.cap)
  {
    Reachable(origin, history, s);
    AcceptanceAt(s, |s.pc.data|);
  }
}
