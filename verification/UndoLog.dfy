/**
 * Undo-log transactions over persistent memory, as simple_fifo_queue/queue_pmemobj.cpp and
 * cbs_req/cbs_req_pmemobj.cpp use them: allocations and frees take effect at commit, ranges are snapshotted before
 * they are changed, and a crash before commit puts the snapshots back.
 */
module UndoLog {
  import opened Wrappers

  datatype Tx<L, V> = Tx(
    base: map<L, V>,   // memory when the transaction began
    now: map<L, V>,    // memory as loads see it
    log: map<L, V>,    // snapshots
    stored: set<L>,    // locations stored to so far
    freed: set<L>)

  datatype Step<L, V> =
    | Alloc(junk: map<L, V>)      // the new object's locations, holding anything
    | Snapshot(range: set<L>)
    | Store(values: map<L, V>)
    | Free(range: set<L>)

  function Begin<L, V>(m: map<L, V>): Tx<L, V> {
    Tx(m, m, map[], {}, {})
  }

  function Part<L, V>(m: map<L, V>, range: set<L>): map<L, V> {
    map l | l in range && l in m :: m[l]
  }

  predicate Enabled<L, V>(a: Step<L, V>, t: Tx<L, V>) {
    match a
    case Alloc(junk) => junk.Keys !! t.now.Keys
    case Snapshot(range) => range <= t.now.Keys
    case Store(values) => values.Keys <= t.now.Keys
    case Free(range) => range <= t.now.Keys
  }

  function Apply<L, V>(a: Step<L, V>, t: Tx<L, V>): Tx<L, V>
    requires Enabled(a, t)
  {
    match a
    case Alloc(junk) => t.(now := t.now + junk)
    case Snapshot(range) => t.(log := Part(t.now, range) + t.log)
    case Store(values) => t.(now := t.now + values, stored := t.stored + values.Keys)
    case Free(range) => t.(freed := t.freed + range)
  }

  function Run<L, V>(t: Tx<L, V>, steps: seq<Step<L, V>>): Option<Tx<L, V>>
    decreases |steps|
  {
    if steps == [] then Some(t)
    else
      var before := Run(t, steps[..|steps| - 1]);
      if before.Some? && Enabled(steps[|steps| - 1], before.value) then Some(Apply(steps[|steps| - 1], before.value))
        else None
  }

  function Committed<L, V>(t: Tx<L, V>): map<L, V> {
    t.now - t.freed
  }

  /** Memory after a crash: a location stored to may hold anything, the others what they held. */
  predicate CrashImage<L, V(==)>(t: Tx<L, V>, image: map<L, V>) {
    image.Keys == t.now.Keys && forall l <- image.Keys :: l !in t.stored ==> image[l] == t.now[l]
  }

  /** Recovery: snapshots go back, and what was allocated since goes. */
  function RolledBack<L, V>(t: Tx<L, V>, image: map<L, V>): map<L, V>
  {
    map l | l in t.base && l in image :: if l in t.log then t.log[l] else image[l]
  }

  /** Every location that existed and was stored to was snapshotted while it held its first value. */
  predicate Protected<L, V(==)>(t: Tx<L, V>) {
    forall l <- t.stored :: l in t.base ==> l in t.log && t.log[l] == t.base[l]
  }

  /** What the transaction machine itself keeps, whatever the code does. */
  predicate Sane<L, V(==)>(t: Tx<L, V>) {
    && t.base.Keys <= t.now.Keys && t.stored <= t.now.Keys && t.freed <= t.now.Keys
    && (forall l <- t.base :: l !in t.stored ==> t.now[l] == t.base[l] && (l in t.log ==> t.log[l] == t.base[l]))
  }

  lemma {:induction false} RunIsSane<L, V>(m: map<L, V>, steps: seq<Step<L, V>>)
    requires Run(Begin(m), steps).Some?
    ensures Sane(Run(Begin(m), steps).value) && Run(Begin(m), steps).value.base == m
    decreases |steps|
  {
    if steps != [] {
      RunIsSane(m, steps[..|steps| - 1]);
    }
  }

  lemma ProtectedRollsBack<L, V>(t: Tx<L, V>, image: map<L, V>)
    requires Sane(t) && Protected(t) && CrashImage(t, image)
    ensures RolledBack(t, image) == t.base
  {
  }

  lemma UnprotectedStays<L, V>(t: Tx<L, V>, l: L, other: V) returns (image: map<L, V>)
    requires Sane(t) && l in t.stored && l in t.base && (l !in t.log || t.log[l] != t.base[l]) && other != t.base[l]
    ensures CrashImage(t, image) && RolledBack(t, image) != t.base
  {
    image := t.now[l := other];
    assert RolledBack(t, image)[l] != t.base[l];
  }

  /** A transaction rolls back from every crash if and only if its stores to old locations are protected. */
  lemma RollsBackIff<L(!new), V(!new)>(t: Tx<L, V>, another: V -> V)
    requires Sane(t) && forall v :: another(v) != v
    ensures Protected(t) <==> forall image :: CrashImage(t, image) ==> RolledBack(t, image) == t.base
  {
    forall image | Protected(t) && CrashImage(t, image)
      ensures RolledBack(t, image) == t.base
    {
      ProtectedRollsBack(t, image);
    }
    if !Protected(t) {
      var l :| l in t.stored && l in t.base && (l !in t.log || t.log[l] != t.base[l]);
      var image := UnprotectedStays(t, l, another(t.base[l]));
    }
  }

  /** A crash during recovery, with any of the snapshots put back or torn, and recovery again. */
  lemma RollsBackAgain<L, V>(t: Tx<L, V>, image: map<L, V>, again: map<L, V>)
    requires Sane(t) && CrashImage(t, image) && again.Keys == image.Keys
    requires forall l <- again.Keys :: l !in t.log ==> again[l] == image[l]
    ensures RolledBack(t, again) == RolledBack(t, image)
  {
  }

  /** The discipline a transaction's code follows: nothing old is stored to, or snapshotted late, without a snapshot. */
  predicate Guarded<L, V>(a: Step<L, V>, t: Tx<L, V>) {
    Enabled(a, t) && (a.Store? ==> forall l <- a.values :: l in t.base ==> l in t.log)
  }

  function GuardedRun<L, V>(t: Tx<L, V>, steps: seq<Step<L, V>>): Option<Tx<L, V>>
    decreases |steps|
  {
    if steps == [] then Some(t)
    else
      var before := GuardedRun(t, steps[..|steps| - 1]);
      if before.Some? && Guarded(steps[|steps| - 1], before.value) then Some(Apply(steps[|steps| - 1], before.value))
        else None
  }

  /** Wherever a crash strikes a guarded transaction, memory goes back to what it was. */
  lemma {:induction false} GuardedIsProtected<L, V>(m: map<L, V>, steps: seq<Step<L, V>>)
    requires GuardedRun(Begin(m), steps).Some?
    ensures var t := GuardedRun(Begin(m), steps).value;
            Run(Begin(m), steps) == Some(t) && Sane(t) && t.base == m && Protected(t)
    decreases |steps|
  {
    if steps != [] {
      GuardedIsProtected(m, steps[..|steps| - 1]);
    }
  }

  lemma GuardedNext<L, V>(t: Tx<L, V>, steps: seq<Step<L, V>>, a: Step<L, V>)
    requires GuardedRun(t, steps).Some? && Guarded(a, GuardedRun(t, steps).value)
    ensures GuardedRun(t, steps + [a]) == Some(Apply(a, GuardedRun(t, steps).value))
  {
    assert (steps + [a])[..|steps|] == steps;
  }

  lemma {:induction false} GuardedConcat<L, V>(t: Tx<L, V>, xs: seq<Step<L, V>>, ys: seq<Step<L, V>>)
    requires GuardedRun(t, xs).Some? && GuardedRun(GuardedRun(t, xs).value, ys).Some?
    ensures GuardedRun(t, xs + ys) == GuardedRun(GuardedRun(t, xs).value, ys)
    decreases |ys|
  {
    if ys == [] {
      assert xs + ys == xs;
    } else {
      var n := |ys| - 1;
      GuardedConcat(t, xs, ys[..n]);
      GuardedNext(t, xs + ys[..n], ys[n]);
      assert xs + ys[..n] + [ys[n]] == xs + ys;
    }
  }

  /** Snapshot and store of one location. */
  function UpdatePlan<L, V>(l: L, v: V): seq<Step<L, V>> {
    [Snapshot({l}), Store(map[l := v])]
  }

  function Updated<L, V>(t: Tx<L, V>, l: L, v: V): Tx<L, V>
    requires l in t.now
  {
    t.(log := Part(t.now, {l}) + t.log, now := t.now[l := v], stored := t.stored + {l})
  }

  lemma UpdateRuns<L, V>(t: Tx<L, V>, l: L, v: V)
    requires l in t.now
    ensures GuardedRun(t, UpdatePlan(l, v)) == Some(Updated(t, l, v))
  {
    var logged := Apply(Snapshot({l}), t);
    var first: seq<Step<L, V>> := [Snapshot({l})];
    assert first[..0] == [] && GuardedRun(t, first) == Some(logged);
    GuardedNext(t, first, Store(map[l := v]));
    assert first + [Store(map[l := v])] == UpdatePlan(l, v);
    StoreOfOne(logged, l, v);
  }

  lemma StoreRuns<L, V>(t: Tx<L, V>, steps: seq<Step<L, V>>, r: Tx<L, V>, l: L, v: V)
    requires GuardedRun(t, steps) == Some(r) && l in r.now && (l in r.base ==> l in r.log)
    ensures GuardedRun(t, steps + [Store(map[l := v])])
            == Some(r.(now := r.now[l := v], stored := r.stored + {l}))
  {
    GuardedNext(t, steps, Store(map[l := v]));
    StoreOfOne(r, l, v);
  }

  lemma StoreOfOne<L, V>(t: Tx<L, V>, l: L, v: V)
    requires l in t.now
    ensures Apply(Store(map[l := v]), t) == t.(now := t.now[l := v], stored := t.stored + {l})
  {
    assert t.now + map[l := v] == t.now[l := v] && map[l := v].Keys == {l};
  }

  /** All crash points of a transaction that can run to its end, and everything memory may hold there. */
  ghost predicate CrashSafe<L(!new), V(!new)>(m: map<L, V>, steps: seq<Step<L, V>>) {
    && Run(Begin(m), steps).Some?
    && forall k: nat, image ::
      k <= |steps| && Run(Begin(m), steps[..k]).Some? && CrashImage(Run(Begin(m), steps[..k]).value, image) ==>
      RolledBack(Run(Begin(m), steps[..k]).value, image) == m
  }

  lemma {:induction false} GuardedPrefix<L, V>(t: Tx<L, V>, steps: seq<Step<L, V>>, k: nat)
    requires GuardedRun(t, steps).Some? && k <= |steps|
    ensures GuardedRun(t, steps[..k]).Some?
    decreases |steps|
  {
    if k < |steps| {
      GuardedPrefix(t, steps[..|steps| - 1], k);
      assert steps[..|steps| - 1][..k] == steps[..k];
    } else {
      assert steps[..k] == steps;
    }
  }

  lemma GuardedIsCrashSafe<L(!new), V(!new)>(m: map<L, V>, steps: seq<Step<L, V>>)
    requires GuardedRun(Begin(m), steps).Some?
    ensures CrashSafe(m, steps)
  {
    GuardedIsProtected(m, steps);
    forall k: nat, image | k <= |steps| && Run(Begin(m), steps[..k]).Some?
      && CrashImage(Run(Begin(m), steps[..k]).value, image)
      ensures RolledBack(Run(Begin(m), steps[..k]).value, image) == m
    {
      GuardedPrefix(Begin(m), steps, k);
      GuardedIsProtected(m, steps[..k]);
      ProtectedRollsBack(Run(Begin(m), steps[..k]).value, image);
    }
  }

  /**
   * What a crash leaves: memory at the crash point, and what a second crash during recovery made of it. Snapshots
   * may then be back, not back or torn.
   */
  datatype Outage<L, V> = Outage(k: nat, image: map<L, V>, again: map<L, V>)

  predicate Possible<L, V(==)>(m: map<L, V>, steps: seq<Step<L, V>>, o: Outage<L, V>) {
    o.k <= |steps| && Run(Begin(m), steps[..o.k]).Some? &&
    var t := Run(Begin(m), steps[..o.k]).value;
    && CrashImage(t, o.image) && o.again.Keys == o.image.Keys
    && forall l <- o.again :: l !in t.log ==> o.again[l] == o.image[l]
  }

  /** Memory after recovery from an outage. */
  function Restarted<L, V>(m: map<L, V>, steps: seq<Step<L, V>>, o: Outage<L, V>): map<L, V>
    requires Possible(m, steps, o)
  {
    RolledBack(Run(Begin(m), steps[..o.k]).value, o.again)
  }

  lemma OutageChangesNothing<L(!new), V(!new)>(m: map<L, V>, steps: seq<Step<L, V>>, o: Outage<L, V>)
    requires CrashSafe(m, steps) && Possible(m, steps, o)
    ensures Restarted(m, steps, o) == m
  {
    RunIsSane(m, steps[..o.k]);
    RollsBackAgain(Run(Begin(m), steps[..o.k]).value, o.image, o.again);
  }

  /**
   * A pool and the transaction open on it. A transaction begun inside another one is part of it: only the end of the
   * outermost commits. `trail` is how the open transaction, or the one ended last, got where it is.
   */
  class Pool<L(==, !new), V(!new)> {
    var mem: map<L, V>
    var tx: Tx<L, V>
    var depth: nat
    ghost var trail: seq<Step<L, V>>

    ghost predicate Valid()
      reads this
    {
      depth > 0 ==> GuardedRun(Begin(tx.base), trail) == Some(tx) && tx.now == mem
    }

    ghost predicate Open()
      reads this
    {
      Valid() && depth > 0
    }

    /** What the open transaction leaves to its code: memory without what it has freed. */
    ghost function Visible(): map<L, V>
      reads this
    {
      if depth > 0 then Committed(tx) else mem
    }

    constructor (m: map<L, V>)
      ensures Valid() && mem == m && depth == 0
    {
      mem, tx, depth, trail := m, Begin(m), 0, [];
    }

    method TxBegin()
      requires Valid()
      modifies this
      ensures Open() && mem == old(mem) && depth == old(depth) + 1 && Visible() == old(Visible())
      ensures if old(depth) == 0 then tx == Begin(mem) && trail == [] else tx == old(tx) && trail == old(trail)
    {
      if depth == 0 {
        tx, trail := Begin(mem), [];
        assert mem - {} == mem;
      }
      depth := depth + 1;
    }

    ghost method Record(a: Step<L, V>)
      requires GuardedRun(Begin(tx.base), trail) == Some(tx) && Guarded(a, tx)
      modifies this`trail
      ensures trail == old(trail) + [a] && GuardedRun(Begin(tx.base), trail) == Some(Apply(a, tx))
    {
      GuardedNext(Begin(tx.base), trail, a);
      trail := trail + [a];
    }

    /** pmemobj_tx_alloc: the allocator picks an unused object, and finds anything in it. */
    method TxAlloc(junk: map<L, V>)
      requires Open() && junk.Keys !! mem.Keys
      modifies this
      ensures Open() && depth == old(depth) && trail == old(trail) + [Alloc(junk)]
      ensures mem == old(mem) + junk && tx == old(tx).(now := mem)
    {
      Record(Alloc(junk));
      mem := mem + junk;
      tx := tx.(now := mem);
    }

    /** pmemobj_tx_add_range_direct. */
    method TxAddRange(range: set<L>)
      requires Open() && range <= mem.Keys
      modifies this
      ensures Open() && depth == old(depth) && trail == old(trail) + [Snapshot(range)]
      ensures mem == old(mem) && tx == old(tx).(log := Part(mem, range) + old(tx.log))
    {
      Record(Snapshot(range));
      tx := tx.(log := Part(mem, range) + tx.log);
    }

    method StoreTo(values: map<L, V>)
      requires Open() && Guarded(Store(values), tx)
      modifies this
      ensures Open() && depth == old(depth) && trail == old(trail) + [Store(values)]
      ensures mem == old(mem) + values && tx == old(tx).(now := mem, stored := old(tx).stored + values.Keys)
    {
      Record(Store(values));
      mem := mem + values;
      tx := tx.(now := mem, stored := tx.stored + values.Keys);
    }

    /** A store to a single location. */
    method Set(l: L, v: V)
      requires Open() && l in mem && (l in tx.base ==> l in tx.log)
      modifies this
      ensures Open() && depth == old(depth) && trail == old(trail) + [Store(map[l := v])]
      ensures mem == old(mem)[l := v] && tx == old(tx).(now := mem, stored := old(tx).stored + {l})
    {
      StoreTo(map[l := v]);
      assert old(mem) + map[l := v] == old(mem)[l := v];
      assert map[l := v].Keys == {l};
    }

    /** Snapshot and store of a single location. */
    method Update(l: L, v: V)
      requires Open() && l in mem
      modifies this
      ensures Open() && depth == old(depth) && trail == old(trail) + UpdatePlan(l, v)
      ensures mem == old(mem)[l := v] && tx == Updated(old(tx), l, v)
    {
      TxAddRange({l});
      Set(l, v);
    }

    method TxFree(range: set<L>)
      requires Open() && range <= mem.Keys
      modifies this
      ensures Open() && depth == old(depth) && trail == old(trail) + [Free(range)]
      ensures mem == old(mem) && tx == old(tx).(freed := old(tx.freed) + range)
    {
      Record(Free(range));
      tx := tx.(freed := tx.freed + range);
    }

    /** TX_END: for the outermost transaction frees take effect, and from here on there is no way back. */
    method TxEnd()
      requires Open()
      modifies this`mem, this`depth
      ensures Valid() && depth == old(depth) - 1 && CrashSafe(tx.base, trail)
      ensures Visible() == old(Visible()) && mem == if depth == 0 then Committed(tx) else old(mem)
    {
      GuardedIsCrashSafe(tx.base, trail);
      depth := depth - 1;
      if depth == 0 {
        mem := mem - tx.freed;
      }
    }

    /** Power fails and the pool is opened again. */
    method PowerFailure(image: map<L, V>)
      requires Valid() && (depth > 0 ==> CrashImage(tx, image))
      modifies this
      ensures Valid() && depth == 0 && mem == if old(depth) > 0 then old(tx.base) else old(mem)
    {
      if depth > 0 {
        GuardedIsProtected(tx.base, trail);
        ProtectedRollsBack(tx, image);
        mem, depth := RolledBack(tx, image), 0;
      }
    }
  }
}
