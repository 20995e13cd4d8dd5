/**
 * The loop bodies of cxl_memory_sharing/lock_write.c and lock_read.c, once the lock is held, as methods on the world
 * they share. Between any two of their steps every other client, the server and the caches may move at will.
 */
module LockClients {
  import opened SharedMemory
  import opened SharedBlocks
  import opened SealedBlocks
  import opened Wrappers
  import L = LockProtocol
  import Crc

  /** The steps client c takes itself. */
  predicate ActsFor(e: Event, c: nat) {
    match e
    case Lock(step) => step.c == c && !step.Serve?
    case Begin(d, _) => d == c
    case Tear(d, _) => d == c
    case Write(d) => d == c
    case StartFlush(d) => d == c
    case FlushNext(d) => d == c
    case Commit(d) => d == c
    case BeginRead(d) => d == c
    case InvalidateNext(d) => d == c
    case StartCopy(d) => d == c
    case Load(d) => d == c
    case EndCopy(d) => d == c
    case Finish(d) => d == c
    case Prefetch(_, _) => false
    case Evict(_, _) => false
  }

  /** What client c may rely on while it holds a lock on b: its own place, and the latest full content of b. */
  predicate Undisturbed(w: World, t: World, c: nat, b: nat) {
    && c < |w.work| && c < |t.work| && c < |w.locks.clients| && c < |t.locks.clients|
    && t.work[c] == w.work[c] && t.locks.clients[c].stage == w.locks.clients[c].stage
    && t.hostOf == w.hostOf && |t.store.caches| == |w.store.caches|
    && (b in t.latest <==> b in w.latest) && (b in w.latest ==> t.latest[b] == w.latest[b])
  }

  predicate Holding(w: World, c: nat, kind: L.Kind, b: nat) {
    HoldsLock(w, c, kind) && HeldBlock(w, c) == b
  }

  lemma CommitDoesNotDisturb(w: World, d: nat, c: nat, kind: L.Kind, b: nat)
    requires Invariant(w, SealedBlock) && Enabled(Commit(d), w, SealedBlock) && d != c
    requires Holding(w, c, kind, b) && (kind.Read? || kind.Write?)
    ensures Undisturbed(w, Apply(Commit(d), w, SealedBlock), c, b)
  {
    SharedBlocks.WriterIsAlone(w, d, c);
  }

  lemma LockDoesNotDisturb(w: World, step: L.Step, c: nat, kind: L.Kind, b: nat)
    requires Enabled(Lock(step), w, SealedBlock) && (step.c != c || step.Serve?) && Holding(w, c, kind, b)
    ensures Undisturbed(w, Apply(Lock(step), w, SealedBlock), c, b)
  {
  }

  lemma WorkDoesNotDisturb(e: Event, w: World, c: nat, kind: L.Kind, b: nat)
    requires Enabled(e, w, SealedBlock) && !ActsFor(e, c) && !e.Lock? && !e.Commit? && Holding(w, c, kind, b)
    ensures Undisturbed(w, Apply(e, w, SealedBlock), c, b)
  {
  }

  lemma OthersDoNotDisturb(e: Event, w: World, c: nat, kind: L.Kind, b: nat)
    requires Invariant(w, SealedBlock) && Enabled(e, w, SealedBlock) && !ActsFor(e, c)
    requires Holding(w, c, kind, b) && (kind.Read? || kind.Write?)
    ensures Undisturbed(w, Apply(e, w, SealedBlock), c, b)
  {
    match e
    case Lock(step) => LockDoesNotDisturb(w, step, c, kind, b);
    case Commit(d) => CommitDoesNotDisturb(w, d, c, kind, b);
    case _ => WorkDoesNotDisturb(e, w, c, kind, b);
  }

  /** The lock is given back: the release is on its way to the server, and the client is free to ask again. */
  predicate Released(w: World, c: nat, g: L.Grant) {
    c < |w.locks.clients| && w.locks.clients[c].stage.Idle? && w.locks.clients[c].releasing == Some(g)
    && w.locks.clients[c].up == [L.Message(g.(kind := L.Release))]
  }

  lemma FinishReleases(w: World, c: nat, kind: L.Kind, b: nat)
    requires Holding(w, c, kind, b) && L.Disciplined(w.locks.clients[c]) && Enabled(Finish(c), w, SealedBlock)
    ensures var t := Apply(Finish(c), w, SealedBlock);
            && c < |t.work| && t.work[c].NoWork? && Released(t, c, L.Grant(kind, b))
            && t.latest == w.latest && t.store == w.store
  {
  }

  class Cluster {
    var world: World
    ghost var origin: World
    ghost var history: seq<Event>

    ghost predicate Valid()
      reads this
    {
      Start(origin) && Run(origin, history, SealedBlock) == Some(world)
    }

    method Step(e: Event)
      requires Valid() && Enabled(e, world, SealedBlock)
      modifies this
      ensures Valid() && world == Apply(e, old(world), SealedBlock)
    {
      history := history + [e];
      assert history[..|history| - 1] == old(history);
      world := Apply(e, world, SealedBlock);
    }

    /** Any number of steps of anybody else. */
    method Others(c: nat, ghost kind: L.Kind, ghost b: nat)
      requires Valid() && Holding(world, c, kind, b) && (kind.Read? || kind.Write?)
      modifies this
      ensures Valid() && Holding(world, c, kind, b) && Undisturbed(old(world), world, c, b)
    {
      var turns: nat := *;
      while turns > 0
        invariant Valid() && Holding(world, c, kind, b) && Undisturbed(old(world), world, c, b)
      {
        var e: Event := *;
        if Enabled(e, world, SealedBlock) && !ActsFor(e, c) {
          EveryRunKeeps(origin, history, SealedBlock);
          OthersDoNotDisturb(e, world, c, kind, b);
          Step(e);
        }
        turns := turns - 1;
      }
    }

    /** memcpy of the sealed buffer into the block, cflush over it, releaselock. */
    method WriteBlock(c: nat, data: Block, ghost b: nat)
      requires Valid() && Holding(world, c, L.Write, b) && world.work[c].NoWork?
      requires |data| == LINES && SealedBlock(data)
      modifies this
      ensures Valid() && c < |world.work| && world.work[c].NoWork?
      ensures b in world.latest && world.latest[b] == data
      ensures Released(world, c, L.Grant(L.Write, b))
      ensures forall k: nat :: k < LINES ==> Mem(world.store, Addr(b, k)) == data[k]
    {
      Step(Begin(c, data));
      CopyIn(c, data, b);
      FlushBlock(c, data, b);
      Others(c, L.Write, b);
      InMemory(c, b);
      Leave(c, L.Write, b);
    }

    lemma SocketsHere(c: nat)
      requires Valid() && c < |world.locks.clients|
      ensures L.Disciplined(world.locks.clients[c])
    {
      EveryRunKeeps(origin, history, SealedBlock);
    }

    /** releaselock. */
    method Leave(c: nat, ghost kind: L.Kind, ghost b: nat)
      requires Valid() && Holding(world, c, kind, b) && Enabled(Finish(c), world, SealedBlock)
      modifies this
      ensures Valid() && c < |world.work| && world.work[c].NoWork? && Released(world, c, L.Grant(kind, b))
      ensures world.latest == old(world.latest) && world.store == old(world.store)
    {
      SocketsHere(c);
      FinishReleases(world, c, kind, b);
      Step(Finish(c));
    }

    /** A block that is written and flushed is in memory as long as its writer keeps the lock. */
    lemma InMemory(c: nat, b: nat)
      requires Valid() && Holding(world, c, L.Write, b) && world.work[c].Flushed? && b in world.latest
      ensures |world.latest[b]| == LINES
      ensures forall k: nat :: k < LINES ==> Mem(world.store, Addr(b, k)) == world.latest[b][k]
    {
      EveryRunKeeps(origin, history, SealedBlock);
      if b in world.owner && world.owner[b] != c {
        SharedBlocks.WriterIsAlone(world, world.owner[b], c);
      }
    }

    method CopyIn(c: nat, data: Block, ghost b: nat)
      requires Valid() && Holding(world, c, L.Write, b) && world.work[c] == Writing(data, 0) && |data| == LINES
      modifies this
      ensures Valid() && Holding(world, c, L.Write, b) && world.work[c] == Writing(data, LINES)
    {
      for k := 0 to LINES
        invariant Valid() && Holding(world, c, L.Write, b) && world.work[c] == Writing(data, k)
      {
        Others(c, L.Write, b);
        Step(Write(c));
      }
    }

    method FlushBlock(c: nat, data: Block, ghost b: nat)
      requires Valid() && Holding(world, c, L.Write, b) && world.work[c] == Writing(data, LINES)
      modifies this
      ensures Valid() && Holding(world, c, L.Write, b) && world.work[c].Flushed?
      ensures b in world.latest && world.latest[b] == data
    {
      Step(StartFlush(c));
      for k := 0 to LINES
        invariant Valid() && Holding(world, c, L.Write, b) && world.work[c] == Flushing(data, k)
      {
        Others(c, L.Write, b);
        Step(FlushNext(c));
      }
      Step(Commit(c));
    }

    /** cflushopt over the block, memcpy out of it, the comparison of checksums, releaselock. */
    method ReadBlock(c: nat, ghost b: nat) returns (data: Block, matches: bool)
      requires Valid() && Holding(world, c, L.Read, b) && world.work[c].NoWork?
      modifies this
      ensures Valid() && c < |world.work| && world.work[c].NoWork?
      ensures b in world.latest && world.latest[b] == data && SealedBlock(data) && matches
      ensures Released(world, c, L.Grant(L.Read, b))
      ensures |data| == LINES && forall k: nat :: k < LINES ==> Mem(world.store, Addr(b, k)) == data[k]
    {
      Step(BeginRead(c));
      Invalidate(c, b);
      data := CopyOut(c, b);
      matches := Compare(c, data, b);
      ReadFromMemory(c, b);
      Leave(c, L.Read, b);
    }

    /** A reader's copy is what memory holds as long as it keeps the lock. */
    lemma ReadFromMemory(c: nat, b: nat)
      requires Valid() && Holding(world, c, L.Read, b) && world.work[c].Checked?
      ensures |world.work[c].got| == LINES
      ensures forall k: nat :: k < LINES ==> Mem(world.store, Addr(b, k)) == world.work[c].got[k]
    {
      EveryRunKeeps(origin, history, SealedBlock);
      ReaderFindsBlock(world, c, SealedBlock);
      ReadersGetLatest(origin, history, world, c, SealedBlock);
    }

    method Invalidate(c: nat, ghost b: nat)
      requires Valid() && Holding(world, c, L.Read, b) && world.work[c] == Invalidating(0)
      modifies this
      ensures Valid() && Holding(world, c, L.Read, b) && world.work[c] == Invalidating(LINES)
    {
      for k := 0 to LINES
        invariant Valid() && Holding(world, c, L.Read, b) && world.work[c] == Invalidating(k)
      {
        Others(c, L.Read, b);
        Step(InvalidateNext(c));
      }
    }

    method CopyOut(c: nat, ghost b: nat) returns (data: Block)
      requires Valid() && Holding(world, c, L.Read, b) && world.work[c] == Invalidating(LINES)
      modifies this
      ensures Valid() && Holding(world, c, L.Read, b) && world.work[c] == Checked(data)
    {
      Step(StartCopy(c));
      data := [];
      for k := 0 to LINES
        invariant Valid() && Holding(world, c, L.Read, b) && |data| == k && world.work[c] == Copying(data)
      {
        Others(c, L.Read, b);
        Step(Load(c));
        data := world.work[c].got;
      }
      Step(EndCopy(c));
    }

    /** The checksum of the copy against the trailer loaded from shared memory once more. */
    method Compare(c: nat, data: Block, ghost b: nat) returns (matches: bool)
      requires Valid() && Holding(world, c, L.Read, b) && world.work[c] == Checked(data)
      modifies this
      ensures Valid() && Holding(world, c, L.Read, b) && world.work[c] == Checked(data)
      ensures matches && SealedBlock(data) && b in world.latest && world.latest[b] == data
    {
      ReadersGetLatest(origin, history, world, c, SealedBlock);
      ReaderCrcMatches(origin, history, world, c);
      FlattenSize(data);
      var copy := Flatten(data);
      var crc := Crc.CalculateCrc32(copy[..|copy| - 4]);
      Others(c, L.Read, b);
      ReadersGetLatest(origin, history, world, c, SealedBlock);
      ReaderCrcMatches(origin, history, world, c);
      matches := crc == Trailer(Value(world.store, world.hostOf[c], Addr(HeldBlock(world, c), LINES - 1)));
    }
  }

  lemma {:induction false} FlattenSize(block: Block)
    requires forall line <- block :: |line| == 64
    ensures |Flatten(block)| == 64 * |block|
  {
    if block != [] {
      FlattenSize(block[..|block| - 1]);
    }
  }
}
