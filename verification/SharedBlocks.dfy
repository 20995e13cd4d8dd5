/**
 * Writers and readers of cxl_memory_sharing/lock_write.c and lock_read.c: blocks move under the lock server's
 * locks, through caches that prefetch and evict as they please.
 */
module SharedBlocks {
  import opened SharedMemory
  import opened Wrappers
  import L = LockProtocol

  const LINES: nat := 131072 // LOCK_BLOCK_SIZE / 64

  /** What a client does while it holds a lock. `next` is the first line not yet treated. */
  datatype Work =
    | NoWork
    | Writing(data: Block, next: nat)    // memcpy into the block
    | Flushing(data: Block, next: nat)   // cflush over the block
    | Flushed(data: Block)
    | Invalidating(next: nat)            // cflushopt over the block
    | Copying(got: Block)                // memcpy out of the block
    | Checked(got: Block)                // copy complete, CRC about to be compared

  datatype World = World(
    locks: L.Locks,
    hostOf: seq<nat>,         // the host each client runs on; hosts may run several
    store: Store,
    work: seq<Work>,
    owner: map<nat, nat>,     // the client in the middle of writing a block
    latest: map<nat, Block>)  // the block most recently written in full

  datatype Event =
    | Lock(step: L.Step)              // Ask, Serve or Receive
    | Begin(c: nat, data: Block)      // writelock returned; `data` was filled and sealed before
    | Tear(c: nat, v: Line)           // part of the next line is stored
    | Write(c: nat)                   // the next line is stored
    | StartFlush(c: nat)
    | FlushNext(c: nat)
    | Commit(c: nat)
    | BeginRead(c: nat)               // readlock returned
    | InvalidateNext(c: nat)
    | StartCopy(c: nat)
    | Load(c: nat)
    | EndCopy(c: nat)
    | Finish(c: nat)                  // releaselock
    | Prefetch(h: nat, a: Addr)
    | Evict(h: nat, a: Addr)

  /** The block a client holds, if it holds one in the given way. */
  function HeldBlock(w: World, c: nat): nat
    requires c < |w.locks.clients| && w.locks.clients[c].stage.Holding?
  {
    w.locks.clients[c].stage.held.block
  }

  predicate HoldsLock(w: World, c: nat, kind: L.Kind) {
    && c < |w.locks.clients| && c < |w.work| && c < |w.hostOf| && w.hostOf[c] < |w.store.caches|
    && w.locks.clients[c].stage.Holding? && w.locks.clients[c].stage.held.kind == kind
  }

  predicate Enabled(e: Event, w: World, sealed: Block -> bool) {
    match e
    case Lock(step) => !step.GiveBack? && L.Enabled(step, w.locks)
    case Begin(c, data) => HoldsLock(w, c, L.Write) && w.work[c].NoWork? && |data| == LINES && sealed(data)
    case Tear(c, _) => HoldsLock(w, c, L.Write) && w.work[c].Writing? && w.work[c].next < LINES
    case Write(c) => HoldsLock(w, c, L.Write) && w.work[c].Writing? && w.work[c].next < LINES == |w.work[c].data|
    case StartFlush(c) => HoldsLock(w, c, L.Write) && w.work[c].Writing? && w.work[c].next == LINES
    case FlushNext(c) => HoldsLock(w, c, L.Write) && w.work[c].Flushing? && w.work[c].next < LINES
    case Commit(c) => HoldsLock(w, c, L.Write) && w.work[c].Flushing? && w.work[c].next == LINES
    case BeginRead(c) => HoldsLock(w, c, L.Read) && w.work[c].NoWork?
    case InvalidateNext(c) => HoldsLock(w, c, L.Read) && w.work[c].Invalidating? && w.work[c].next < LINES
    case StartCopy(c) => HoldsLock(w, c, L.Read) && w.work[c].Invalidating? && w.work[c].next == LINES
    case Load(c) => HoldsLock(w, c, L.Read) && w.work[c].Copying? && |w.work[c].got| < LINES
    case EndCopy(c) => HoldsLock(w, c, L.Read) && w.work[c].Copying? && |w.work[c].got| == LINES
    case Finish(c) => (HoldsLock(w, c, L.Write) && w.work[c].Flushed?)
      || (HoldsLock(w, c, L.Read) && w.work[c].Checked?)
    case Prefetch(h, _) => h < |w.store.caches|
    case Evict(h, _) => h < |w.store.caches|
  }

  function Doing(w: World, c: nat, job: Work): World
    requires c < |w.work|
  {
    w.(work := w.work[c := job])
  }

  function NextAddr(w: World, c: nat, next: nat): Addr
    requires c < |w.locks.clients| && w.locks.clients[c].stage.Holding?
  {
    Addr(HeldBlock(w, c), next)
  }

  function Apply(e: Event, w: World, sealed: Block -> bool): World
    requires Enabled(e, w, sealed)
  {
    match e
    case Lock(step) => w.(locks := L.Apply(step, w.locks))
    case Begin(c, data) => Doing(w, c, Writing(data, 0)).(owner := w.owner[HeldBlock(w, c) := c])
    case Tear(c, v) => w.(store := Put(w.store, w.hostOf[c], NextAddr(w, c, w.work[c].next), v))
    case Write(c) =>
      var job := w.work[c];
      Doing(w.(store := Put(w.store, w.hostOf[c], NextAddr(w, c, job.next), job.data[job.next])), c,
        Writing(job.data, job.next + 1))
    case StartFlush(c) => Doing(w, c, Flushing(w.work[c].data, 0))
    case FlushNext(c) =>
      var job := w.work[c];
      Doing(w.(store := Flush(w.store, w.hostOf[c], NextAddr(w, c, job.next))), c, Flushing(job.data, job.next + 1))
    case Commit(c) =>
      var b := HeldBlock(w, c);
      Doing(w, c, Flushed(w.work[c].data)).(owner := w.owner - {b}, latest := w.latest[b := w.work[c].data])
    case BeginRead(c) => Doing(w, c, Invalidating(0))
    case InvalidateNext(c) =>
      var next := w.work[c].next;
      Doing(w.(store := Flush(w.store, w.hostOf[c], NextAddr(w, c, next))), c, Invalidating(next + 1))
    case StartCopy(c) => Doing(w, c, Copying([]))
    case Load(c) =>
      var got := w.work[c].got;
      var a := NextAddr(w, c, |got|);
      Doing(w.(store := Fetch(w.store, w.hostOf[c], a)), c, Copying(got + [Value(w.store, w.hostOf[c], a)]))
    case EndCopy(c) => Doing(w, c, Checked(w.work[c].got))
    case Finish(c) => Doing(w.(locks := L.Apply(L.GiveBack(c), w.locks)), c, NoWork)
    case Prefetch(h, a) => w.(store := Fetch(w.store, h, a))
    case Evict(h, a) => w.(store := Flush(w.store, h, a))
  }

  // What every event keeps.

  predicate Shaped(w: World) {
    && |w.work| == |w.locks.clients| == |w.hostOf|
    && forall c: nat :: c < |w.hostOf| ==> w.hostOf[c] < |w.store.caches|
  }

  /** A client in the middle of writing holds the write lock and owns its block; nobody else owns anything. */
  ghost predicate Owned(w: World, sealed: Block -> bool) {
    && Shaped(w)
    && (forall c: nat :: c < |w.work| && (w.work[c].Writing? || w.work[c].Flushing?) ==>
          && HoldsLock(w, c, L.Write) && HeldBlock(w, c) in w.owner && w.owner[HeldBlock(w, c)] == c
          && |w.work[c].data| == LINES && sealed(w.work[c].data) && w.work[c].next <= LINES)
    && (forall b: nat :: b in w.owner ==>
          && w.owner[b] < |w.work| && (w.work[w.owner[b]].Writing? || w.work[w.owner[b]].Flushing?)
          && HoldsLock(w, w.owner[b], L.Write) && HeldBlock(w, w.owner[b]) == b)
  }

  /** Lines a writer may have dirty: those it has stored or is storing, until it has flushed them. */
  predicate MayBeDirty(job: Work, line: nat) {
    match job
    case Writing(_, next) => line <= next && line < LINES
    case Flushing(_, next) => next <= line < LINES
    case _ => false
  }

  /** Dirty lines exist only at the host of the block's writer. */
  ghost predicate DirtyIsOwned(w: World) {
    forall h: nat, a :: Dirty(w.store, h, a) ==>
      && a.block in w.owner && w.owner[a.block] < |w.work| && w.owner[a.block] < |w.hostOf|
      && w.hostOf[w.owner[a.block]] == h && MayBeDirty(w.work[w.owner[a.block]], a.line)
  }

  predicate HasStored(job: Work, line: nat) {
    match job
    case Writing(_, next) => line < next
    case Flushing(_, _) => line < LINES
    case _ => false
  }

  /** A stored line is in the writer's cache, dirty, or already in memory. */
  ghost predicate StoredIsKept(w: World) {
    forall b: nat, k: nat ::
      b in w.owner && w.owner[b] < |w.work| && w.owner[b] < |w.hostOf| && HasStored(w.work[w.owner[b]], k)
        && k < |w.work[w.owner[b]].data|
      ==> StoredLine(w, w.owner[b], b, k)
  }

  predicate StoredLine(w: World, c: nat, b: nat, k: nat)
    requires c < |w.work| && c < |w.hostOf| && (w.work[c].Writing? || w.work[c].Flushing?) && k < |w.work[c].data|
  {
    (if Dirty(w.store, w.hostOf[c], Addr(b, k)) then Value(w.store, w.hostOf[c], Addr(b, k))
      else Mem(w.store, Addr(b, k)))
    == w.work[c].data[k]
  }

  /** Memory holds the latest full block wherever no writer is at work. */
  ghost predicate LatestInMemory(w: World, sealed: Block -> bool) {
    && (forall b: nat :: b in w.latest ==> |w.latest[b]| == LINES && sealed(w.latest[b]))
    && (forall b: nat, k: nat :: b in w.latest && b !in w.owner && k < LINES && k < |w.latest[b]| ==>
          Mem(w.store, Addr(b, k)) == w.latest[b][k])
  }

  /** Lines a reader has invalidated: what its host holds of them now is what memory holds. */
  predicate IsFresh(job: Work, line: nat) {
    match job
    case Invalidating(next) => line < next
    case Copying(_) => line < LINES
    case Checked(_) => line < LINES
    case _ => false
  }

  ghost predicate ReadersSeeMemory(w: World) {
    && (forall c: nat, k: nat :: c < |w.work| && HoldsLock(w, c, L.Read) && IsFresh(w.work[c], k) ==>
          Value(w.store, w.hostOf[c], Addr(HeldBlock(w, c), k)) == Mem(w.store, Addr(HeldBlock(w, c), k)))
    && (forall c: nat :: c < |w.work| && (w.work[c].Invalidating? || w.work[c].Copying? || w.work[c].Checked?) ==>
          HoldsLock(w, c, L.Read) && HeldBlock(w, c) in w.latest && HeldBlock(w, c) !in w.owner)
    && (forall c: nat :: c < |w.work| && w.work[c].Invalidating? ==> w.work[c].next <= LINES)
    && (forall c: nat ::
          (c < |w.work| && (w.work[c].Copying? || w.work[c].Checked?)
           && HoldsLock(w, c, L.Read) && HeldBlock(w, c) in w.latest) ==>
          w.work[c].got <= w.latest[HeldBlock(w, c)] && (w.work[c].Checked? ==> |w.work[c].got| == LINES))
  }

  /** Once a block's value lets readers in, some writer has finished it. */
  ghost predicate WrittenBeforeRead(w: World) {
    && (forall b: nat :: L.Lookup(w.locks.table, b) != L.NO_VALUE && L.Lookup(w.locks.table, b) != 1 ==> b in w.latest)
    && (forall c: nat :: c < |w.locks.clients| && w.locks.clients[c].releasing.Some? ==>
      w.locks.clients[c].releasing.value.block in w.latest)
    && (forall c: nat :: c < |w.work| && w.work[c].Flushed? ==> HoldsLock(w, c, L.Write) && HeldBlock(w, c) in w.latest)
  }

  ghost predicate Invariant(w: World, sealed: Block -> bool) {
    && L.Consistent(w.locks) && Owned(w, sealed) && DirtyIsOwned(w) && StoredIsKept(w)
    && LatestInMemory(w, sealed) && ReadersSeeMemory(w) && WrittenBeforeRead(w)
  }

  // Flushes and evictions, by any host, at any time.

  lemma FlushKeepsDirty(w: World, h: nat, a: Addr)
    requires DirtyIsOwned(w)
    ensures DirtyIsOwned(w.(store := Flush(w.store, h, a)))
  {
    AfterFlush(w.store, h, a);
  }

  lemma FlushKeepsStored(w: World, h: nat, a: Addr, sealed: Block -> bool)
    requires Owned(w, sealed) && DirtyIsOwned(w) && StoredIsKept(w)
    ensures StoredIsKept(w.(store := Flush(w.store, h, a)))
  {
    AfterFlush(w.store, h, a);
    var t := w.(store := Flush(w.store, h, a));
    forall b: nat, k: nat | b in t.owner && t.owner[b] < |t.work| && t.owner[b] < |t.hostOf|
      && HasStored(t.work[t.owner[b]], k) && k < |t.work[t.owner[b]].data|
      ensures StoredLine(t, t.owner[b], b, k)
    {
      assert StoredLine(w, w.owner[b], b, k);
    }
  }

  lemma FlushKeepsLatest(w: World, h: nat, a: Addr, sealed: Block -> bool)
    requires DirtyIsOwned(w) && LatestInMemory(w, sealed)
    ensures LatestInMemory(w.(store := Flush(w.store, h, a)), sealed)
  {
    AfterFlush(w.store, h, a);
  }

  lemma FlushKeepsReaders(w: World, h: nat, a: Addr)
    requires DirtyIsOwned(w) && ReadersSeeMemory(w)
    ensures ReadersSeeMemory(w.(store := Flush(w.store, h, a)))
  {
    AfterFlush(w.store, h, a);
  }

  lemma FlushKeeps(w: World, h: nat, a: Addr, sealed: Block -> bool)
    requires Invariant(w, sealed)
    ensures Invariant(w.(store := Flush(w.store, h, a)), sealed)
  {
    AfterFlush(w.store, h, a);
    FlushKeepsDirty(w, h, a);
    FlushKeepsStored(w, h, a, sealed);
    FlushKeepsLatest(w, h, a, sealed);
    FlushKeepsReaders(w, h, a);
  }

  /** Loads and prefetches, by any host, at any time. */
  lemma FetchKeeps(w: World, h: nat, a: Addr, sealed: Block -> bool)
    requires Invariant(w, sealed)
    ensures Invariant(w.(store := Fetch(w.store, h, a)), sealed)
  {
    AfterFetch(w.store, h, a);
    FetchKeepsStored(w, h, a);
    FetchKeepsReaders(w, h, a);
    assert DirtyIsOwned(w.(store := Fetch(w.store, h, a)));
  }

  lemma FetchKeepsReaders(w: World, h: nat, a: Addr)
    requires ReadersSeeMemory(w)
    ensures ReadersSeeMemory(w.(store := Fetch(w.store, h, a)))
  {
    AfterFetch(w.store, h, a);
  }

  lemma FetchKeepsStored(w: World, h: nat, a: Addr)
    requires StoredIsKept(w)
    ensures StoredIsKept(w.(store := Fetch(w.store, h, a)))
  {
    AfterFetch(w.store, h, a);
    var t := w.(store := Fetch(w.store, h, a));
    forall b: nat, k: nat | b in t.owner && t.owner[b] < |t.work| && t.owner[b] < |t.hostOf|
      && HasStored(t.work[t.owner[b]], k) && k < |t.work[t.owner[b]].data|
      ensures StoredLine(t, t.owner[b], b, k)
    {
      assert StoredLine(w, w.owner[b], b, k);
    }
  }

  // The writer.

  lemma OwnerIsWriter(w: World, c: nat, sealed: Block -> bool)
    requires Owned(w, sealed) && c < |w.work| && (w.work[c].Writing? || w.work[c].Flushing?)
    ensures HoldsLock(w, c, L.Write) && HeldBlock(w, c) in w.owner && w.owner[HeldBlock(w, c)] == c
    ensures |w.work[c].data| == LINES && w.work[c].next <= LINES
  {
  }

  lemma PutKeepsStored(w: World, c: nat, v: Line, sealed: Block -> bool)
    requires Owned(w, sealed) && StoredIsKept(w) && Enabled(Tear(c, v), w, sealed)
    ensures StoredIsKept(Apply(Tear(c, v), w, sealed))
  {
    OwnerIsWriter(w, c, sealed);
    AfterPut(w.store, w.hostOf[c], NextAddr(w, c, w.work[c].next), v);
    var t := Apply(Tear(c, v), w, sealed);
    forall b: nat, k: nat | b in t.owner && t.owner[b] < |t.work| && t.owner[b] < |t.hostOf|
      && HasStored(t.work[t.owner[b]], k) && k < |t.work[t.owner[b]].data|
      ensures StoredLine(t, t.owner[b], b, k)
    {
      assert StoredLine(w, w.owner[b], b, k);
    }
  }

  lemma PutKeepsReaders(w: World, c: nat, v: Line, sealed: Block -> bool)
    requires Owned(w, sealed) && ReadersSeeMemory(w) && Enabled(Tear(c, v), w, sealed)
    ensures ReadersSeeMemory(Apply(Tear(c, v), w, sealed))
  {
    OwnerIsWriter(w, c, sealed);
    AfterPut(w.store, w.hostOf[c], NextAddr(w, c, w.work[c].next), v);
  }

  /** A store of any bytes into the line under way, however torn, hurts nobody. */
  lemma PutKeeps(w: World, c: nat, v: Line, sealed: Block -> bool)
    requires Invariant(w, sealed) && Enabled(Tear(c, v), w, sealed)
    ensures Invariant(Apply(Tear(c, v), w, sealed), sealed)
  {
    OwnerIsWriter(w, c, sealed);
    AfterPut(w.store, w.hostOf[c], NextAddr(w, c, w.work[c].next), v);
    PutKeepsStored(w, c, v, sealed);
    PutKeepsReaders(w, c, v, sealed);
    PutKeepsDirty(w, c, v, sealed);
    assert LatestInMemory(Apply(Tear(c, v), w, sealed), sealed);
  }

  lemma PutKeepsDirty(w: World, c: nat, v: Line, sealed: Block -> bool)
    requires Owned(w, sealed) && DirtyIsOwned(w) && Enabled(Tear(c, v), w, sealed)
    ensures DirtyIsOwned(Apply(Tear(c, v), w, sealed))
  {
    OwnerIsWriter(w, c, sealed);
    AfterPut(w.store, w.hostOf[c], NextAddr(w, c, w.work[c].next), v);
  }

  /** The writer moves on: to the next line, from copying to flushing, or to the next line to flush. */
  predicate Advances(w: World, c: nat, job: Work) {
    && c < |w.work| && c < |w.hostOf| && c < |w.locks.clients|
    && (w.work[c].Writing? || w.work[c].Flushing?) && (job.Writing? || job.Flushing?)
    && job.data == w.work[c].data && job.next <= LINES
  }

  lemma AdvanceKeeps(w: World, c: nat, job: Work, sealed: Block -> bool)
    requires Invariant(w, sealed) && Advances(w, c, job)
    requires forall k: nat ::
               (MayBeDirty(w.work[c], k) && HoldsLock(w, c, L.Write)
                && Dirty(w.store, w.hostOf[c], Addr(HeldBlock(w, c), k))) ==> MayBeDirty(job, k)
    requires forall k: nat :: k < |job.data| && HasStored(job, k) && HoldsLock(w, c, L.Write) ==>
             StoredLine(w, c, HeldBlock(w, c), k)
    ensures Invariant(Doing(w, c, job), sealed)
  {
    OwnerIsWriter(w, c, sealed);
    AdvanceKeepsOwners(w, c, job, sealed);
    AdvanceKeepsOthers(w, c, job, sealed);
    AdvanceKeepsDirty(w, c, job, sealed);
    AdvanceKeepsStored(w, c, job, sealed);
  }

  lemma AdvanceKeepsOwners(w: World, c: nat, job: Work, sealed: Block -> bool)
    requires Owned(w, sealed) && Advances(w, c, job)
    ensures Owned(Doing(w, c, job), sealed)
  {
  }

  lemma AdvanceKeepsOthers(w: World, c: nat, job: Work, sealed: Block -> bool)
    requires ReadersSeeMemory(w) && LatestInMemory(w, sealed) && WrittenBeforeRead(w) && Advances(w, c, job)
    ensures var t := Doing(w, c, job);
            ReadersSeeMemory(t) && LatestInMemory(t, sealed) && WrittenBeforeRead(t)
  {
  }

  lemma AdvanceKeepsDirty(w: World, c: nat, job: Work, sealed: Block -> bool)
    requires Owned(w, sealed) && DirtyIsOwned(w) && Advances(w, c, job)
    requires forall k: nat ::
               (MayBeDirty(w.work[c], k) && HoldsLock(w, c, L.Write)
                && Dirty(w.store, w.hostOf[c], Addr(HeldBlock(w, c), k))) ==> MayBeDirty(job, k)
    ensures DirtyIsOwned(Doing(w, c, job))
  {
    OwnerIsWriter(w, c, sealed);
    var t := Doing(w, c, job);
    forall h: nat, a | Dirty(t.store, h, a)
      ensures a.block in t.owner && t.owner[a.block] < |t.work| && t.owner[a.block] < |t.hostOf|
      ensures t.hostOf[t.owner[a.block]] == h && MayBeDirty(t.work[t.owner[a.block]], a.line)
    {
      assert Dirty(w.store, h, a);
      if w.owner[a.block] == c {
        assert a == Addr(HeldBlock(w, c), a.line);
      }
    }
  }

  lemma AdvanceKeepsStored(w: World, c: nat, job: Work, sealed: Block -> bool)
    requires Owned(w, sealed) && StoredIsKept(w) && Advances(w, c, job)
    requires forall k: nat :: k < |job.data| && HasStored(job, k) && HoldsLock(w, c, L.Write) ==>
             StoredLine(w, c, HeldBlock(w, c), k)
    ensures StoredIsKept(Doing(w, c, job))
  {
    OwnerIsWriter(w, c, sealed);
    var t := Doing(w, c, job);
    forall b: nat, k: nat | b in t.owner && t.owner[b] < |t.work| && t.owner[b] < |t.hostOf|
      && HasStored(t.work[t.owner[b]], k) && k < |t.work[t.owner[b]].data|
      ensures StoredLine(t, t.owner[b], b, k)
    {
      if t.owner[b] != c {
        assert StoredLine(w, w.owner[b], b, k);
      } else {
        assert b == HeldBlock(w, c);
        assert StoredLine(w, c, HeldBlock(w, c), k);
      }
    }
  }

  lemma NextLineIsStored(w: World, c: nat, k: nat, sealed: Block -> bool)
    requires Owned(w, sealed) && StoredIsKept(w) && Enabled(Write(c), w, sealed) && k <= w.work[c].next
    ensures var m := Apply(Tear(c, w.work[c].data[w.work[c].next]), w, sealed);
            StoredLine(m, c, HeldBlock(m, c), k)
  {
    OwnerIsWriter(w, c, sealed);
    var job := w.work[c];
    AfterPut(w.store, w.hostOf[c], NextAddr(w, c, job.next), job.data[job.next]);
    if k < job.next {
      assert StoredLine(w, w.owner[HeldBlock(w, c)], HeldBlock(w, c), k);
    }
  }

  lemma WriteKeeps(w: World, c: nat, sealed: Block -> bool)
    requires Invariant(w, sealed) && Enabled(Write(c), w, sealed)
    ensures Invariant(Apply(Write(c), w, sealed), sealed)
  {
    OwnerIsWriter(w, c, sealed);
    var job := w.work[c];
    var m := Apply(Tear(c, job.data[job.next]), w, sealed);
    PutKeeps(w, c, job.data[job.next], sealed);
    forall k: nat | k < job.next + 1
      ensures StoredLine(m, c, HeldBlock(m, c), k)
    {
      NextLineIsStored(w, c, k, sealed);
    }
    assert Apply(Write(c), w, sealed) == Doing(m, c, Writing(m.work[c].data, m.work[c].next + 1));
    StoredMovesOn(m, c, sealed);
  }

  lemma StoredMovesOn(m: World, c: nat, sealed: Block -> bool)
    requires Invariant(m, sealed) && HoldsLock(m, c, L.Write) && m.work[c].Writing?
             && m.work[c].next < LINES == |m.work[c].data|
    requires forall k: nat :: k < m.work[c].next + 1 ==> StoredLine(m, c, HeldBlock(m, c), k)
    ensures Invariant(Doing(m, c, Writing(m.work[c].data, m.work[c].next + 1)), sealed)
  {
    AdvanceKeeps(m, c, Writing(m.work[c].data, m.work[c].next + 1), sealed);
  }

  lemma StartFlushKeeps(w: World, c: nat, sealed: Block -> bool)
    requires Invariant(w, sealed) && Enabled(StartFlush(c), w, sealed)
    ensures Invariant(Apply(StartFlush(c), w, sealed), sealed)
  {
    OwnerIsWriter(w, c, sealed);
    AdvanceKeeps(w, c, Flushing(w.work[c].data, 0), sealed);
  }

  lemma FlushNextKeeps(w: World, c: nat, sealed: Block -> bool)
    requires Invariant(w, sealed) && Enabled(FlushNext(c), w, sealed)
    ensures Invariant(Apply(FlushNext(c), w, sealed), sealed)
  {
    OwnerIsWriter(w, c, sealed);
    var job := w.work[c];
    var m := w.(store := Flush(w.store, w.hostOf[c], NextAddr(w, c, job.next)));
    assert Invariant(m, sealed) && HoldsLock(m, c, L.Write)
      && !Holds(m.store, m.hostOf[c], NextAddr(m, c, job.next)) by {
      FlushForgets(w, c, L.Write, job.next, sealed);
    }
    assert Apply(FlushNext(c), w, sealed) == Doing(m, c, Flushing(m.work[c].data, m.work[c].next + 1));
    FlushedMovesOn(m, c, sealed);
  }

  lemma FlushedMovesOn(m: World, c: nat, sealed: Block -> bool)
    requires Invariant(m, sealed) && HoldsLock(m, c, L.Write) && m.work[c].Flushing? && m.work[c].next < LINES
    requires !Holds(m.store, m.hostOf[c], NextAddr(m, c, m.work[c].next))
    ensures Invariant(Doing(m, c, Flushing(m.work[c].data, m.work[c].next + 1)), sealed)
  {
    OwnerIsWriter(m, c, sealed);
    forall k: nat | k < |m.work[c].data| ensures StoredLine(m, c, HeldBlock(m, c), k) {
      assert StoredLine(m, m.owner[HeldBlock(m, c)], HeldBlock(m, c), k);
    }
    AdvanceKeeps(m, c, Flushing(m.work[c].data, m.work[c].next + 1), sealed);
  }

  /** A client with the write lock shares its block with nobody. */
  lemma WriterIsAlone(w: World, c: nat, d: nat)
    requires L.Consistent(w.locks) && HoldsLock(w, c, L.Write) && d != c
    ensures HoldsLock(w, d, L.Write) || HoldsLock(w, d, L.Read) ==> HeldBlock(w, d) != HeldBlock(w, c)
  {
    if d < |w.locks.clients| {
      L.WriterIsAlone(w.locks, c, d, HeldBlock(w, c));
    }
  }

  lemma FreshWriter(w: World, c: nat, sealed: Block -> bool)
    requires Invariant(w, sealed) && HoldsLock(w, c, L.Write) && w.work[c].NoWork?
    ensures HeldBlock(w, c) !in w.owner
    ensures forall d: nat :: d < |w.work| && (w.work[d].Invalidating? || w.work[d].Copying? || w.work[d].Checked?) ==>
              HeldBlock(w, d) != HeldBlock(w, c)
  {
    if HeldBlock(w, c) in w.owner {
      WriterIsAlone(w, c, w.owner[HeldBlock(w, c)]);
    }
    forall d: nat | d < |w.work| && (w.work[d].Invalidating? || w.work[d].Copying? || w.work[d].Checked?)
      ensures HeldBlock(w, d) != HeldBlock(w, c)
    {
      WriterIsAlone(w, c, d);
    }
  }

  lemma BeginKeeps(w: World, c: nat, data: Block, sealed: Block -> bool)
    requires Invariant(w, sealed) && Enabled(Begin(c, data), w, sealed)
    ensures Invariant(Apply(Begin(c, data), w, sealed), sealed)
  {
    FreshWriter(w, c, sealed);
    BeginKeepsOwners(w, c, data, sealed);
    BeginKeepsStored(w, c, data, sealed);
    BeginKeepsReaders(w, c, data, sealed);
    assert LatestInMemory(Apply(Begin(c, data), w, sealed), sealed);
  }

  lemma BeginKeepsOwners(w: World, c: nat, data: Block, sealed: Block -> bool)
    requires Owned(w, sealed) && DirtyIsOwned(w) && Enabled(Begin(c, data), w, sealed) && HeldBlock(w, c) !in w.owner
    ensures Owned(Apply(Begin(c, data), w, sealed), sealed) && DirtyIsOwned(Apply(Begin(c, data), w, sealed))
  {
  }

  lemma BeginKeepsReaders(w: World, c: nat, data: Block, sealed: Block -> bool)
    requires ReadersSeeMemory(w) && Enabled(Begin(c, data), w, sealed)
    requires forall d: nat :: d < |w.work| && (w.work[d].Invalidating? || w.work[d].Copying? || w.work[d].Checked?) ==>
               HeldBlock(w, d) != HeldBlock(w, c)
    ensures ReadersSeeMemory(Apply(Begin(c, data), w, sealed))
  {
  }

  lemma BeginKeepsStored(w: World, c: nat, data: Block, sealed: Block -> bool)
    requires Owned(w, sealed) && StoredIsKept(w) && Enabled(Begin(c, data), w, sealed) && HeldBlock(w, c) !in w.owner
    ensures StoredIsKept(Apply(Begin(c, data), w, sealed))
  {
    var t := Apply(Begin(c, data), w, sealed);
    forall b: nat, k: nat | b in t.owner && t.owner[b] < |t.work| && t.owner[b] < |t.hostOf|
      && HasStored(t.work[t.owner[b]], k) && k < |t.work[t.owner[b]].data|
      ensures StoredLine(t, t.owner[b], b, k)
    {
      assert b != HeldBlock(w, c);
      assert StoredLine(w, w.owner[b], b, k);
    }
  }

  /** When every line is flushed the whole block is in memory, and that is the block the next readers get. */
  lemma CommitReachesMemory(w: World, c: nat, k: nat, sealed: Block -> bool)
    requires Invariant(w, sealed) && Enabled(Commit(c), w, sealed) && k < LINES && k < |w.work[c].data|
    ensures Mem(w.store, Addr(HeldBlock(w, c), k)) == w.work[c].data[k]
  {
    OwnerIsWriter(w, c, sealed);
    assert StoredLine(w, w.owner[HeldBlock(w, c)], HeldBlock(w, c), k);
  }

  lemma CommitKeepsMemory(w: World, c: nat, sealed: Block -> bool)
    requires Invariant(w, sealed) && Enabled(Commit(c), w, sealed)
    ensures var t := Apply(Commit(c), w, sealed);
            Owned(t, sealed) && DirtyIsOwned(t) && LatestInMemory(t, sealed)
  {
    OwnerIsWriter(w, c, sealed);
    forall k: nat | k < LINES && k < |w.work[c].data|
      ensures Mem(w.store, Addr(HeldBlock(w, c), k)) == w.work[c].data[k]
    {
      CommitReachesMemory(w, c, k, sealed);
    }
  }

  lemma CommitKeepsStored(w: World, c: nat, sealed: Block -> bool)
    requires Owned(w, sealed) && StoredIsKept(w) && Enabled(Commit(c), w, sealed)
    ensures StoredIsKept(Apply(Commit(c), w, sealed))
  {
    OwnerIsWriter(w, c, sealed);
    var t := Apply(Commit(c), w, sealed);
    forall b: nat, k: nat | b in t.owner && t.owner[b] < |t.work| && t.owner[b] < |t.hostOf|
      && HasStored(t.work[t.owner[b]], k) && k < |t.work[t.owner[b]].data|
      ensures StoredLine(t, t.owner[b], b, k)
    {
      assert StoredLine(w, w.owner[b], b, k);
    }
  }

  lemma CommitKeeps(w: World, c: nat, sealed: Block -> bool)
    requires Invariant(w, sealed) && Enabled(Commit(c), w, sealed)
    ensures Invariant(Apply(Commit(c), w, sealed), sealed)
  {
    OwnerIsWriter(w, c, sealed);
    CommitKeepsMemory(w, c, sealed);
    CommitKeepsStored(w, c, sealed);
    CommitKeepsReaders(w, c, sealed);
    CommitKeepsWritten(w, c, sealed);
  }

  lemma CommitKeepsReaders(w: World, c: nat, sealed: Block -> bool)
    requires Owned(w, sealed) && ReadersSeeMemory(w) && Enabled(Commit(c), w, sealed)
    ensures ReadersSeeMemory(Apply(Commit(c), w, sealed))
  {
    OwnerIsWriter(w, c, sealed);
  }

  lemma CommitKeepsWritten(w: World, c: nat, sealed: Block -> bool)
    requires Owned(w, sealed) && WrittenBeforeRead(w) && Enabled(Commit(c), w, sealed)
    ensures WrittenBeforeRead(Apply(Commit(c), w, sealed))
  {
    OwnerIsWriter(w, c, sealed);
  }

  // The reader.

  lemma ReaderFindsBlock(w: World, c: nat, sealed: Block -> bool)
    requires Invariant(w, sealed) && HoldsLock(w, c, L.Read)
    ensures HeldBlock(w, c) in w.latest && HeldBlock(w, c) !in w.owner
  {
    var b := HeldBlock(w, c);
    assert L.Counted(w.locks, b);
    assert c in L.Owners(w.locks.clients, L.Grant(L.Read, b));
    if b in w.owner {
      WriterIsAlone(w, w.owner[b], c);
    }
  }

  lemma BeginReadKeeps(w: World, c: nat, sealed: Block -> bool)
    requires Invariant(w, sealed) && Enabled(BeginRead(c), w, sealed)
    ensures Invariant(Apply(BeginRead(c), w, sealed), sealed)
  {
    ReaderFindsBlock(w, c, sealed);
    var t := Apply(BeginRead(c), w, sealed);
    ReaderKeepsWriters(w, c, Invalidating(0), sealed);
    assert ReadersSeeMemory(t);
  }

  lemma InvalidateKeeps(w: World, c: nat, sealed: Block -> bool)
    requires Invariant(w, sealed) && Enabled(InvalidateNext(c), w, sealed)
    ensures Invariant(Apply(InvalidateNext(c), w, sealed), sealed)
  {
    var next := w.work[c].next;
    var m := w.(store := Flush(w.store, w.hostOf[c], NextAddr(w, c, next)));
    assert Invariant(m, sealed)
      && !Holds(m.store, m.hostOf[c], NextAddr(m, c, next)) by { FlushForgets(w, c, L.Read, next, sealed); }
    assert Apply(InvalidateNext(c), w, sealed) == Doing(m, c, Invalidating(next + 1));
    InvalidatedKeeps(m, c, next, sealed);
  }

  lemma FlushForgets(w: World, c: nat, kind: L.Kind, next: nat, sealed: Block -> bool)
    requires Invariant(w, sealed) && HoldsLock(w, c, kind)
    ensures var m := w.(store := Flush(w.store, w.hostOf[c], NextAddr(w, c, next)));
            Invariant(m, sealed) && HoldsLock(m, c, kind) && !Holds(m.store, m.hostOf[c], NextAddr(m, c, next))
  {
    AfterFlush(w.store, w.hostOf[c], NextAddr(w, c, next));
    FlushKeeps(w, w.hostOf[c], NextAddr(w, c, next), sealed);
  }

  lemma InvalidatedKeeps(m: World, c: nat, next: nat, sealed: Block -> bool)
    requires Invariant(m, sealed) && HoldsLock(m, c, L.Read) && m.work[c] == Invalidating(next) && next < LINES
    requires !Holds(m.store, m.hostOf[c], NextAddr(m, c, next))
    ensures Invariant(Doing(m, c, Invalidating(next + 1)), sealed)
  {
    ReaderKeepsWriters(m, c, Invalidating(next + 1), sealed);
    InvalidatedIsFresh(m, c, next);
  }

  lemma InvalidatedIsFresh(m: World, c: nat, next: nat)
    requires ReadersSeeMemory(m) && HoldsLock(m, c, L.Read) && m.work[c] == Invalidating(next) && next < LINES
    requires !Holds(m.store, m.hostOf[c], NextAddr(m, c, next))
    ensures ReadersSeeMemory(Doing(m, c, Invalidating(next + 1)))
  {
  }

  lemma StartCopyKeeps(w: World, c: nat, sealed: Block -> bool)
    requires Invariant(w, sealed) && Enabled(StartCopy(c), w, sealed)
    ensures Invariant(Apply(StartCopy(c), w, sealed), sealed)
  {
    ReaderKeepsWriters(w, c, Copying([]), sealed);
    assert ReadersSeeMemory(Apply(StartCopy(c), w, sealed));
  }

  /** The next line copied out is the next line of the latest full block. */
  lemma LoadReadsLatest(w: World, c: nat, sealed: Block -> bool)
    requires Invariant(w, sealed) && Enabled(Load(c), w, sealed)
    ensures var got := w.work[c].got;
            && HeldBlock(w, c) in w.latest && |got| < |w.latest[HeldBlock(w, c)]|
            && Value(w.store, w.hostOf[c], NextAddr(w, c, |got|)) == w.latest[HeldBlock(w, c)][|got|]
  {
    assert IsFresh(w.work[c], |w.work[c].got|);
  }

  lemma LoadedIsPrefix(m: World, c: nat, got: Block)
    requires ReadersSeeMemory(m) && HoldsLock(m, c, L.Read) && m.work[c].Copying?
    requires HeldBlock(m, c) in m.latest && got <= m.latest[HeldBlock(m, c)]
    ensures ReadersSeeMemory(Doing(m, c, Copying(got)))
  {
  }

  lemma LoadKeeps(w: World, c: nat, sealed: Block -> bool)
    requires Invariant(w, sealed) && Enabled(Load(c), w, sealed)
    ensures Invariant(Apply(Load(c), w, sealed), sealed)
  {
    var got := w.work[c].got;
    var a := NextAddr(w, c, |got|);
    var v := Value(w.store, w.hostOf[c], a);
    var m := w.(store := Fetch(w.store, w.hostOf[c], a));
    LoadReadsLatest(w, c, sealed);
    FetchKeeps(w, w.hostOf[c], a, sealed);
    ReaderKeepsWriters(m, c, Copying(got + [v]), sealed);
    LoadedIsPrefix(m, c, got + [v]);
  }

  lemma EndCopyKeeps(w: World, c: nat, sealed: Block -> bool)
    requires Invariant(w, sealed) && Enabled(EndCopy(c), w, sealed)
    ensures Invariant(Apply(EndCopy(c), w, sealed), sealed)
  {
    ReaderKeepsWriters(w, c, Checked(w.work[c].got), sealed);
    assert ReadersSeeMemory(Apply(EndCopy(c), w, sealed));
  }

  // Locks.

  lemma BusyHoldsLock(w: World, c: nat, sealed: Block -> bool)
    requires Invariant(w, sealed) && c < |w.work| && !w.work[c].NoWork?
    ensures w.locks.clients[c].stage.Holding?
  {
  }

  /** Lock messages move no data: a client at work keeps its stage. */
  lemma LockKeepsMemory(w: World, locks: L.Locks, sealed: Block -> bool)
    requires Invariant(w, sealed) && |locks.clients| == |w.locks.clients|
    requires forall c: nat :: c < |w.work| && !w.work[c].NoWork? ==> locks.clients[c].stage == w.locks.clients[c].stage
    ensures var t := w.(locks := locks);
            Owned(t, sealed) && DirtyIsOwned(t) && StoredIsKept(t) && LatestInMemory(t, sealed)
  {
    var t := w.(locks := locks);
    forall b: nat, k: nat | b in t.owner && t.owner[b] < |t.work| && t.owner[b] < |t.hostOf|
      && HasStored(t.work[t.owner[b]], k) && k < |t.work[t.owner[b]].data|
      ensures StoredLine(t, t.owner[b], b, k)
    {
      assert StoredLine(w, w.owner[b], b, k);
    }
  }

  lemma LockKeepsReaders(w: World, locks: L.Locks)
    requires ReadersSeeMemory(w) && |locks.clients| == |w.locks.clients|
    requires forall c: nat :: c < |w.work| && c < |w.locks.clients| && !w.work[c].NoWork? ==>
             locks.clients[c].stage == w.locks.clients[c].stage
    ensures ReadersSeeMemory(w.(locks := locks))
  {
  }

  lemma ServeKeepsWritten(w: World, c: nat, sealed: Block -> bool)
    requires Invariant(w, sealed) && L.Enabled(L.Serve(c), w.locks)
    ensures WrittenBeforeRead(w.(locks := L.Apply(L.Serve(c), w.locks)))
  {
    assert L.Disciplined(w.locks.clients[c]);
    L.HeadMessage(w.locks.clients[c]);
    var g := L.Decode(w.locks.clients[c].up[0]);
    assert L.Counted(w.locks, g.block);
  }

  lemma LockKeeps(w: World, step: L.Step, sealed: Block -> bool)
    requires Invariant(w, sealed) && Enabled(Lock(step), w, sealed)
    ensures Invariant(Apply(Lock(step), w, sealed), sealed)
  {
    var locks := L.Apply(step, w.locks);
    L.StepKeeps(step, w.locks);
    forall c: nat | c < |w.work| && !w.work[c].NoWork?
      ensures locks.clients[c].stage == w.locks.clients[c].stage
    {
      BusyHoldsLock(w, c, sealed);
    }
    LockKeepsMemory(w, locks, sealed);
    LockKeepsReaders(w, locks);
    if step.Serve? {
      ServeKeepsWritten(w, step.c, sealed);
    } else {
      AskKeepsWritten(w, step, sealed);
    }
  }

  lemma AskKeepsWritten(w: World, step: L.Step, sealed: Block -> bool)
    requires Invariant(w, sealed) && Enabled(Lock(step), w, sealed) && !step.Serve?
    ensures WrittenBeforeRead(Apply(Lock(step), w, sealed))
  {
    if step.c < |w.work| && !w.work[step.c].NoWork? {
      BusyHoldsLock(w, step.c, sealed);
    }
  }

  /** releaselock, only ever sent once the block is in memory or the copy complete. */
  lemma FinishKeeps(w: World, c: nat, sealed: Block -> bool)
    requires Invariant(w, sealed) && Enabled(Finish(c), w, sealed)
    ensures Invariant(Apply(Finish(c), w, sealed), sealed)
  {
    var idle := Doing(w, c, NoWork);
    var locks := L.Apply(L.GiveBack(c), w.locks);
    assert HeldBlock(w, c) in w.latest;
    assert Apply(Finish(c), w, sealed) == idle.(locks := locks);
    L.StepKeeps(L.GiveBack(c), w.locks);
    ReaderKeepsWriters(w, c, NoWork, sealed);
    IdleKeepsReaders(w, c);
    LockKeepsMemory(idle, locks, sealed);
    LockKeepsReaders(idle, locks);
    FinishKeepsWritten(w, c);
  }

  lemma IdleKeepsReaders(w: World, c: nat)
    requires ReadersSeeMemory(w) && c < |w.work|
    ensures ReadersSeeMemory(Doing(w, c, NoWork))
  {
  }

  lemma FinishKeepsWritten(w: World, c: nat)
    requires Shaped(w) && WrittenBeforeRead(w) && c < |w.work| && w.locks.clients[c].stage.Holding?
             && HeldBlock(w, c) in w.latest
    ensures WrittenBeforeRead(Doing(w, c, NoWork).(locks := L.Apply(L.GiveBack(c), w.locks)))
  {
  }

  /** Whatever a client that is not writing does, the writers and memory do not notice. */
  lemma ReaderKeepsWriters(w: World, c: nat, job: Work, sealed: Block -> bool)
    requires Invariant(w, sealed) && c < |w.work|
    requires !w.work[c].Writing? && !w.work[c].Flushing? && !job.Writing? && !job.Flushing?
    requires job.Flushed? ==> w.work[c].Flushed?
    ensures var t := Doing(w, c, job);
            Owned(t, sealed) && DirtyIsOwned(t) && StoredIsKept(t) && LatestInMemory(t, sealed) && WrittenBeforeRead(t)
  {
    var t := Doing(w, c, job);
    forall b: nat | b in w.owner ensures w.owner[b] != c {}
    forall b: nat, k: nat | b in t.owner && t.owner[b] < |t.work| && t.owner[b] < |t.hostOf|
      && HasStored(t.work[t.owner[b]], k) && k < |t.work[t.owner[b]].data|
      ensures StoredLine(t, t.owner[b], b, k)
    {
      assert StoredLine(w, w.owner[b], b, k);
    }
  }

  lemma EventKeeps(e: Event, w: World, sealed: Block -> bool)
    requires Invariant(w, sealed) && Enabled(e, w, sealed)
    ensures Invariant(Apply(e, w, sealed), sealed)
  {
    match e
    case Lock(step) => LockKeeps(w, step, sealed);
    case Begin(c, data) => BeginKeeps(w, c, data, sealed);
    case Tear(c, v) => PutKeeps(w, c, v, sealed);
    case Write(c) => WriteKeeps(w, c, sealed);
    case StartFlush(c) => StartFlushKeeps(w, c, sealed);
    case FlushNext(c) => FlushNextKeeps(w, c, sealed);
    case Commit(c) => CommitKeeps(w, c, sealed);
    case BeginRead(c) => BeginReadKeeps(w, c, sealed);
    case InvalidateNext(c) => InvalidateKeeps(w, c, sealed);
    case StartCopy(c) => StartCopyKeeps(w, c, sealed);
    case Load(c) => LoadKeeps(w, c, sealed);
    case EndCopy(c) => EndCopyKeeps(w, c, sealed);
    case Finish(c) => FinishKeeps(w, c, sealed);
    case Prefetch(h, a) => FetchKeeps(w, h, a, sealed);
    case Evict(h, a) => FlushKeeps(w, h, a, sealed);
  }

  /** Nobody has asked for a lock or touched a line yet; memory may hold anything, caches any clean lines. */
  ghost predicate Start(w: World) {
    && Shaped(w) && L.Start(w.locks) && w.owner == map[] && w.latest == map[]
    && (forall job <- w.work :: job.NoWork?)
    && (forall h: nat, a :: !Dirty(w.store, h, a))
  }

  lemma StartHolds(w: World, sealed: Block -> bool)
    requires Start(w)
    ensures Invariant(w, sealed)
  {
    L.StartIsConsistent(w.locks);
    forall c: nat | c < |w.work| ensures w.work[c].NoWork? { assert w.work[c] in w.work; }
    forall c: nat | c < |w.locks.clients|
      ensures w.locks.clients[c].releasing.None? { assert w.locks.clients[c] in w.locks.clients; }
  }

  function Run(w: World, es: seq<Event>, sealed: Block -> bool): Option<World>
    decreases |es|
  {
    if es == [] then Some(w)
    else
      var before := Run(w, es[..|es| - 1], sealed);
      if before.Some? && Enabled(es[|es| - 1], before.value, sealed)
        then Some(Apply(es[|es| - 1], before.value, sealed)) else None
  }

  lemma {:induction false} EveryRunKeeps(origin: World, es: seq<Event>, sealed: Block -> bool)
    requires Start(origin) && Run(origin, es, sealed).Some?
    ensures Invariant(Run(origin, es, sealed).value, sealed)
    decreases |es|
  {
    if es == [] {
      StartHolds(origin, sealed);
    } else {
      EveryRunKeeps(origin, es[..|es| - 1], sealed);
      EventKeeps(es[|es| - 1], Run(origin, es[..|es| - 1], sealed).value, sealed);
    }
  }

  /**
   * Whatever caches prefetch and evict, and however many clients and hosts there are: a reader that has copied a
   * block got the block most recently written in full by one writer, sealed as that writer sealed it, and until it
   * releases the lock its host keeps seeing that block in shared memory. A block nobody has finished writing is
   * never read.
   */
  lemma ReadersGetLatest(origin: World, es: seq<Event>, w: World, c: nat, sealed: Block -> bool)
    requires Start(origin) && Run(origin, es, sealed) == Some(w)
    requires c < |w.work| && w.work[c].Checked?
    ensures HoldsLock(w, c, L.Read) && HeldBlock(w, c) in w.latest
    ensures w.work[c].got == w.latest[HeldBlock(w, c)] && sealed(w.work[c].got) && |w.work[c].got| == LINES
    ensures forall k: nat :: k < LINES ==> Value(w.store, w.hostOf[c], Addr(HeldBlock(w, c), k)) == w.work[c].got[k]
  {
    EveryRunKeeps(origin, es, sealed);
  }
}
