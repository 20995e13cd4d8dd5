/**
 * The first aofguard_init of wal_accel/src/aofguard.c, store by store: the ring file is created, sized and filled in
 * while the log it is to protect already has content. Every call takes effect as a whole.
 */
module WalCreation {
  import opened Ring
  import opened WalMachine
  import opened WalSafety
  import opened WalTheorems
  import opened Wrappers

  datatype RingFile = Absent | Empty | Sized(ring: seq<byte>, meta: nat, bufEnd: nat)

  datatype Place =
    | Opening     // before openat with O_CREAT
    | Sizing      // before ftruncate
    | Measuring   // before the length of the log is stored
    | Ending      // before buf_end is stored
    | Created
    | Refused     // started again, and turned away: the ring file has the wrong size
    | Recovers    // started again, and handed to recovery

  datatype Creation = Creation(log: seq<byte>, cap: nat, file: RingFile, place: Place)

  datatype Store = Open | Size | StoreLength | StoreEnd | Fail // power fails, and the process starts again

  ghost predicate Start(c: Creation) {
    ValidCapacity(c.cap) && |c.log| < LEN_LIMIT && c.file.Absent? && c.place.Opening?
  }

  ghost predicate Enabled(l: Store, c: Creation) {
    match l
    case Open => c.place.Opening?
    case Size => c.place.Sizing?
    case StoreLength => c.place.Measuring? && c.file.Sized?
    case StoreEnd => c.place.Ending? && c.file.Sized?
    case Fail => true
  }

  ghost function Apply(l: Store, c: Creation): Creation
    requires Enabled(l, c)
  {
    match l
    case Open => c.(file := Empty, place := Sizing)
    case Size => c.(file := Sized(seq(c.cap, _ => 0), 0, 0), place := Measuring)
    case StoreLength => c.(file := c.file.(meta := |c.log|), place := Ending)
    case StoreEnd => c.(file := c.file.(bufEnd := 0), place := Created)
    case Fail => Restart(c)
  }

  /** Lines 114 to 132: no file is created anew, an empty one has the wrong size, any other is recovered from. */
  ghost function Restart(c: Creation): Creation {
    match c.file
    case Absent => c.(place := Opening)
    case Empty => c.(place := Refused)
    case Sized(_, _, _) => c.(place := Recovers)
  }

  ghost function Run(c: Creation, ls: seq<Store>): Option<Creation>
    decreases |ls|
  {
    if ls == [] then Some(c)
    else
      var before := Run(c, ls[..|ls| - 1]);
      if before.Some? && Enabled(ls[|ls| - 1], before.value) then Some(Apply(ls[|ls| - 1], before.value)) else None
  }

  /** What the ring file holds at every place. */
  ghost predicate Agrees(c: Creation) {
    match c.place
    case Opening => c.file.Absent?
    case Sizing => c.file.Empty?
    case Measuring => c.file.Sized? && |c.file.ring| == c.cap && c.file.meta == 0 && c.file.bufEnd == 0
    case Ending => c.file.Sized? && |c.file.ring| == c.cap && c.file.meta == |c.log| && c.file.bufEnd == 0
    case Created => c.file.Sized? && |c.file.ring| == c.cap && c.file.meta == |c.log| && c.file.bufEnd == 0
    case Refused => c.file.Empty?
    case Recovers =>
      c.file.Sized? && |c.file.ring| == c.cap && (c.file.meta == 0 || c.file.meta == |c.log|) && c.file.bufEnd == 0
  }

  lemma {:induction false} EveryRunAgrees(origin: Creation, ls: seq<Store>, c: Creation)
    requires Start(origin) && Run(origin, ls) == Some(c)
    ensures Agrees(c) && c.log == origin.log && c.cap == origin.cap
    decreases |ls|
  {
    if ls != [] {
      EveryRunAgrees(origin, ls[..|ls| - 1], Run(origin, ls[..|ls| - 1]).value);
    }
  }

  /** The accelerator over the two files, fresh or about to read them back. */
  ghost function Guard(c: Creation, pc: Pc): Wal
    requires c.file.Sized?
  {
    var len := if pc.Idle? then |c.log| else 0;
    Wal(c.file.meta, c.cap, c.log, |c.log|, c.file.ring, c.file.meta, c.file.bufEnd, len, 0, 0, 0, 0, 0, false, 0, pc,
      c.log)
  }

  /** A creation that runs to its end leaves the state every claim about the accelerator starts from. */
  lemma CreationReachesInit(origin: Creation, ls: seq<Store>, c: Creation)
    requires Start(origin) && Run(origin, ls) == Some(c) && c.place.Created?
    ensures c.file.Sized? && Init(Guard(c, Idle))
  {
    EveryRunAgrees(origin, ls, c);
  }

  lemma WordAlone(word: nat)
    requires word < LEN_LIMIT
    ensures MetaFsyncLen(word) == word && MetaStart(word) == 0 && MakeMeta(word, 0) == word && InBlock(0) == 0
  {
    QuotRemUnique(0, word, 0x1_0000_0000_0000);
  }

  /** A process that starts over a log and a ring file of which only the length may have been stored. */
  ghost predicate Restarted(s: Wal, word: nat) {
    && ValidCapacity(s.cap) && |s.ring| == s.cap && word <= |s.file| < LEN_LIMIT
    && s == Wal(word, s.cap, s.file, |s.file|, s.ring, word, 0, 0, 0, 0, 0, 0, 0, false, 0, Booting, s.acked)
  }

  lemma CreationImage(s: Wal, word: nat)
    requires Restarted(s, word)
    ensures Boots(s) && Image(s) == s.file[..word]
  {
    WordAlone(word);
    assert Recoverable(s);
    assert LiveLength(s) == 0;
  }

  lemma BootedImage(s: Wal, recovery: seq<Label>, t: Wal)
    requires Boots(s) && recovery != [] && recovery[0].Crash? && (forall l <- recovery :: RecoveryLabel(l))
    requires WalMachine.Run(s, recovery) == Some(t) && t.pc.Idle?
    ensures t.file == Image(s)
  {
    RecoveryRun(s, recovery);
  }

  /**
   * After any crashes during creation recovery keeps the log if and only if its length had been stored, or there was
   * nothing to lose. Recovery may crash as well, any number of times.
   */
  lemma CreationWindow(origin: Creation, ls: seq<Store>, c: Creation, recovery: seq<Label>, t: Wal)
    requires Start(origin) && Run(origin, ls) == Some(c) && c.place.Recovers?
    requires c.file.Sized? && recovery != [] && recovery[0].Crash? && (forall l <- recovery :: RecoveryLabel(l))
    requires WalMachine.Run(Guard(c, Booting), recovery) == Some(t) && t.pc.Idle?
    ensures t.file == (if c.file.meta == 0 then [] else origin.log)
    ensures t.file == origin.log <==> c.file.meta == |origin.log|
  {
    EveryRunAgrees(origin, ls, c);
    CreationImage(Guard(c, Booting), c.file.meta);
    BootedImage(Guard(c, Booting), recovery, t);
    WholeLog(c.log);
  }

  lemma WholeLog(log: seq<byte>)
    ensures log[..|log|] == log && log[..0] == []
  {
  }

  /**
   * Where a single crash leads, from every place: only the two stores of metadata are safe once the log has content.
   */
  lemma CrashOutcome(origin: Creation, ls: seq<Store>, c: Creation)
    requires Start(origin) && Run(origin, ls) == Some(c)
    ensures Apply(Fail, c).place
         == if c.place.Opening? then Opening else if c.place.Sizing? || c.place.Refused? then Refused else Recovers
    ensures c.place.Measuring? && origin.log != [] ==> Apply(Fail, c).file.meta != |origin.log|
    ensures c.place.Ending? || c.place.Created? ==> Apply(Fail, c).file.meta == |origin.log|
  {
    EveryRunAgrees(origin, ls, c);
  }

  /** A crash between creating the ring file and sizing it is for good: every later start is turned away. */
  lemma {:induction false} RefusedForGood(c: Creation, ls: seq<Store>)
    requires c.place.Refused? && c.file.Empty? && Run(c, ls).Some?
    ensures Run(c, ls) == Some(c)
    decreases |ls|
  {
    if ls != [] {
      RefusedForGood(c, ls[..|ls| - 1]);
    }
  }

  /** Such a run exists for every log: the file is created, and power fails. */
  lemma RefusedIsReached(origin: Creation)
    requires Start(origin)
    ensures Run(origin, [Open, Fail]) == Some(origin.(file := Empty, place := Refused))
  {
    assert [Open, Fail][..1] == [Open] && [Open][..0] == [];
    assert Run(origin, [Open]) == Some(Apply(Open, origin));
  }

  /** And one that loses the log: the file is sized, and power fails before its length is stored. */
  lemma LossIsReached(origin: Creation)
    requires Start(origin)
    ensures Run(origin, [Open, Size, Fail])
            == Some(origin.(file := Sized(seq(origin.cap, _ => 0), 0, 0), place := Recovers))
  {
    var ls := [Open, Size, Fail];
    assert ls[..2] == [Open, Size] && [Open, Size][..1] == [Open] && [Open][..0] == [];
    assert Run(origin, [Open]) == Some(Apply(Open, origin));
    assert Run(origin, [Open, Size]) == Some(Apply(Size, Apply(Open, origin)));
  }
}
