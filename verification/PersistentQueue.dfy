/** The linked FIFO queue of simple_fifo_queue/queue_pmemobj.cpp, in undo-logged transactions. */
module PersistentQueue {
  import opened UndoLog
  import opened Wrappers

  /** Node 0 is TOID_NULL. */
  datatype Loc = Head | Tail | ValueOf(node: int) | NextOf(node: int)

  type Memory = map<Loc, int>

  function At(nodes: seq<nat>, k: nat): int {
    if k < |nodes| then nodes[k] else 0
  }

  /** `nodes` are the queue's, from head to tail; memory holds nothing else. */
  predicate IsQueue(m: Memory, nodes: seq<nat>) {
    && Head in m && Tail in m && m[Head] == At(nodes, 0) && m[Tail] == (if nodes == [] then 0 else nodes[|nodes| - 1])
    && (forall k: nat {:trigger NextOf(nodes[k])} :: k < |nodes| ==>
      NextOf(nodes[k]) in m && m[NextOf(nodes[k])] == At(nodes, k + 1))
    && (forall k: nat :: k < |nodes| ==> nodes[k] != 0 && ValueOf(nodes[k]) in m)
    && (forall k: nat, l: nat :: k < l < |nodes| ==> nodes[k] != nodes[l])
    && (forall l <- m :: l.ValueOf? || l.NextOf? ==> l.node in nodes)
  }

  function Contents(m: Memory, nodes: seq<nat>): seq<int>
    requires IsQueue(m, nodes)
  {
    seq(|nodes|, k requires 0 <= k < |nodes| => m[ValueOf(nodes[k])])
  }

  /** The list a head pointer leads to is the only one: the contents are a function of memory alone. */
  lemma {:induction false} NodesAreDetermined(m: Memory, a: seq<nat>, b: seq<nat>, k: nat)
    requires IsQueue(m, a) && IsQueue(m, b) && k <= |a|
    ensures k <= |b| && a[..k] == b[..k] && At(a, k) == At(b, k)
  {
    if k > 0 {
      NodesAreDetermined(m, a, b, k - 1);
      assert a[..k] == a[..k - 1] + [a[k - 1]];
      assert m[NextOf(a[k - 1])] == At(a, k);
      assert m[NextOf(b[k - 1])] == At(b, k);
    }
  }

  /** Memory after an enqueue. */
  function Enqueued(m: Memory, node: nat, value: int): Memory
    requires Head in m && Tail in m
  {
    m[ValueOf(node) := value][NextOf(node) := 0][if m[Head] == 0 then Head else NextOf(m[Tail]) := node][Tail := node]
  }

  lemma EnqueueAppends(m: Memory, nodes: seq<nat>, node: nat, value: int)
    requires IsQueue(m, nodes) && node != 0 && node !in nodes
    ensures var t := Enqueued(m, node, value);
            IsQueue(t, nodes + [node]) && Contents(t, nodes + [node]) == Contents(m, nodes) + [value]
  {
  }

  /** Memory after a dequeue. */
  function Dequeued(m: Memory): Memory
    requires Head in m && Tail in m && NextOf(m[Head]) in m
  {
    var next := m[NextOf(m[Head])];
    (if m[Head] == m[Tail] then m[Head := next][Tail := next]
      else m[Head := next]) - {ValueOf(m[Head]), NextOf(m[Head])}
  }

  lemma DequeueTakesFirst(m: Memory, nodes: seq<nat>)
    requires IsQueue(m, nodes) && nodes != []
    ensures NextOf(m[Head]) in m && IsQueue(Dequeued(m), nodes[1..])
    ensures m[ValueOf(m[Head])] == Contents(m, nodes)[0] && Contents(Dequeued(m), nodes[1..]) == Contents(m, nodes)[1..]
  {
  }

  // The operations as steps of a transaction, from memory `m` as the transaction sees it.

  datatype Op = Enque(value: int, node: nat, junk: int) | Deque

  function NewNodePlan(node: nat, value: int, junk: int): seq<Step<Loc, int>> {
    [Alloc(map[ValueOf(node) := junk, NextOf(node) := junk]), Store(map[ValueOf(node) := value]),
     Store(map[NextOf(node) := 0])]
  }

  function LinkPlan(m: Memory, node: nat): seq<Step<Loc, int>>
    requires Head in m && Tail in m
  {
    if m[Head] == 0 then [Snapshot({Head, Tail}), Store(map[Head := node]), Store(map[Tail := node])]
    else UpdatePlan(NextOf(m[Tail]), node) + UpdatePlan(Tail, node)
  }

  function UnlinkPlan(m: Memory): seq<Step<Loc, int>>
    requires Head in m && Tail in m && NextOf(m[Head]) in m
  {
    var next := m[NextOf(m[Head])];
    UpdatePlan(Head, next) + (if m[Head] == m[Tail] then UpdatePlan(Tail, next) else [])
  }

  function Plan(m: Memory, op: Op): seq<Step<Loc, int>>
    requires Head in m && Tail in m && (m[Head] != 0 ==> NextOf(m[Head]) in m)
  {
    match op
    case Enque(value, node, junk) => NewNodePlan(node, value, junk) + LinkPlan(m, node)
    case Deque => if m[Head] == 0 then [] else UnlinkPlan(m) + [Free({ValueOf(m[Head]), NextOf(m[Head])})]
  }

  /** The allocator gives out no object in use. */
  predicate Unused(m: Memory, op: Op) {
    op.Enque? ==> op.node != 0 && ValueOf(op.node) !in m && NextOf(op.node) !in m
  }

  function After(m: Memory, op: Op): Memory
    requires Head in m && Tail in m && (m[Head] != 0 ==> NextOf(m[Head]) in m)
  {
    match op
    case Enque(value, node, _) => Enqueued(m, node, value)
    case Deque => if m[Head] == 0 then m else Dequeued(m)
  }

  /** Committing a store is storing to what is committed. */
  lemma CommitStore(m: Memory, freed: set<Loc>, l: Loc, v: int)
    requires l !in freed
    ensures m[l := v] - freed == (m - freed)[l := v]
  {
  }

  /** A transaction that may go on: what it has seen and freed is in memory. */
  predicate Steady(t: Tx<Loc, int>) {
    t.base.Keys <= t.now.Keys && t.freed <= t.now.Keys
  }

  lemma NewNodeRuns(t: Tx<Loc, int>, node: nat, value: int, junk: int)
    requires Steady(t) && ValueOf(node) !in t.now && NextOf(node) !in t.now
    ensures var r := GuardedRun(t, NewNodePlan(node, value, junk));
            && r.Some? && r.value.base == t.base && r.value.freed == t.freed && r.value.log == t.log
            && r.value.now == t.now[ValueOf(node) := value][NextOf(node) := 0]
  {
    var plan := NewNodePlan(node, value, junk);
    var t1 := t.(now := t.now + map[ValueOf(node) := junk, NextOf(node) := junk]);
    assert plan[..0] == [] && plan[..1][..0] == [];
    assert GuardedRun(t, plan[..1]) == Some(t1);
    StoreRuns(t, plan[..1], t1, ValueOf(node), value);
    var t2 := t1.(now := t1.now[ValueOf(node) := value], stored := t.stored + {ValueOf(node)});
    assert plan[..1] + [plan[1]] == plan[..2];
    assert GuardedRun(t, plan[..2]) == Some(t2);
    StoreRuns(t, plan[..2], t2, NextOf(node), 0);
    assert plan[..2] + [plan[2]] == plan;
  }

  lemma FirstLinkRuns(t: Tx<Loc, int>, node: nat)
    requires Head in t.now && Tail in t.now
    ensures var r := GuardedRun(t, [Snapshot({Head, Tail}), Store(map[Head := node]), Store(map[Tail := node])]);
            && r.Some? && r.value.base == t.base && r.value.freed == t.freed
            && r.value.now == t.now[Head := node][Tail := node]
  {
    var plan := [Snapshot({Head, Tail}), Store(map[Head := node]), Store(map[Tail := node])];
    var t1 := t.(log := Part(t.now, {Head, Tail}) + t.log);
    assert plan[..0] == [] && plan[..1][..0] == [];
    assert GuardedRun(t, plan[..1]) == Some(t1);
    StoreRuns(t, plan[..1], t1, Head, node);
    var t2 := t1.(now := t.now[Head := node], stored := t.stored + {Head});
    assert plan[..1] + [plan[1]] == plan[..2];
    assert GuardedRun(t, plan[..2]) == Some(t2);
    StoreRuns(t, plan[..2], t2, Tail, node);
    assert plan[..2] + [plan[2]] == plan;
  }

  lemma LinkRuns(t: Tx<Loc, int>, m: Memory, node: nat)
    requires Head in m && Tail in m && Head in t.now && Tail in t.now && (m[Head] != 0 ==> NextOf(m[Tail]) in t.now)
    ensures var r := GuardedRun(t, LinkPlan(m, node));
            && r.Some? && r.value.base == t.base && r.value.freed == t.freed
            && r.value.now == t.now[if m[Head] == 0 then Head else NextOf(m[Tail]) := node][Tail := node]
  {
    if m[Head] == 0 {
      FirstLinkRuns(t, node);
    } else {
      UpdateRuns(t, NextOf(m[Tail]), node);
      UpdateRuns(Updated(t, NextOf(m[Tail]), node), Tail, node);
      GuardedConcat(t, UpdatePlan(NextOf(m[Tail]), node), UpdatePlan(Tail, node));
    }
  }

  lemma UnlinkRuns(t: Tx<Loc, int>, m: Memory)
    requires Head in m && Tail in m && NextOf(m[Head]) in m && Head in t.now && Tail in t.now
    ensures var r := GuardedRun(t, UnlinkPlan(m)); var next := m[NextOf(m[Head])];
            && r.Some? && r.value.base == t.base && r.value.freed == t.freed
            && r.value.now == if m[Head] == m[Tail] then t.now[Head := next][Tail := next] else t.now[Head := next]
  {
    var next := m[NextOf(m[Head])];
    UpdateRuns(t, Head, next);
    if m[Head] == m[Tail] {
      UpdateRuns(Updated(t, Head, next), Tail, next);
      GuardedConcat(t, UpdatePlan(Head, next), UpdatePlan(Tail, next));
    } else {
      assert UpdatePlan(Head, next) + [] == UpdatePlan(Head, next);
    }
  }

  /** The steps of an enqueue are guarded, and commit exactly its memory. */
  lemma EnqueueRuns(t: Tx<Loc, int>, nodes: seq<nat>, op: Op)
    requires Steady(t) && IsQueue(Committed(t), nodes) && op.Enque? && Unused(t.now, op)
    ensures var r := GuardedRun(t, Plan(Committed(t), op));
            r.Some? && r.value.base == t.base && Steady(r.value) && Committed(r.value) == After(Committed(t), op)
  {
    var m := Committed(t);
    var node, value := op.node, op.value;
    NewNodeRuns(t, node, value, op.junk);
    var t1 := GuardedRun(t, NewNodePlan(node, value, op.junk)).value;
    LinkRuns(t1, m, node);
    GuardedConcat(t, NewNodePlan(node, value, op.junk), LinkPlan(m, node));
    var link := if m[Head] == 0 then Head else NextOf(m[Tail]);
    assert link in m && ValueOf(node) !in t.freed && NextOf(node) !in t.freed;
    CommitStore(t.now, t.freed, ValueOf(node), value);
    CommitStore(t.now[ValueOf(node) := value], t.freed, NextOf(node), 0);
    CommitStore(t1.now, t.freed, link, node);
    CommitStore(t1.now[link := node], t.freed, Tail, node);
  }

  lemma FreeRuns(t: Tx<Loc, int>, range: set<Loc>)
    requires range <= t.now.Keys
    ensures GuardedRun(t, [Free(range)]) == Some(t.(freed := t.freed + range))
    ensures Committed(t.(freed := t.freed + range)) == Committed(t) - range
  {
    var plan: seq<Step<Loc, int>> := [Free(range)];
    assert plan[..0] == [];
  }

  /** The steps of a dequeue likewise; on an empty queue there are none. */
  lemma DequeueRuns(t: Tx<Loc, int>, nodes: seq<nat>)
    requires Steady(t) && IsQueue(Committed(t), nodes)
    ensures var r := GuardedRun(t, Plan(Committed(t), Deque));
            r.Some? && r.value.base == t.base && Steady(r.value) && Committed(r.value) == After(Committed(t), Deque)
  {
    var m := Committed(t);
    if m[Head] != 0 {
      assert NextOf(nodes[0]) in m;
      UnlinkRuns(t, m);
      var t1 := GuardedRun(t, UnlinkPlan(m)).value;
      var range := {ValueOf(m[Head]), NextOf(m[Head])};
      FreeRuns(t1, range);
      GuardedConcat(t, UnlinkPlan(m), [Free(range)]);
      var next := m[NextOf(m[Head])];
      CommitStore(t.now, t.freed, Head, next);
      CommitStore(t.now[Head := next], t.freed, Tail, next);
    }
  }

  lemma OpRuns(t: Tx<Loc, int>, nodes: seq<nat>, op: Op)
    requires Steady(t) && IsQueue(Committed(t), nodes) && Unused(t.now, op)
    ensures var r := GuardedRun(t, Plan(Committed(t), op));
            r.Some? && r.value.base == t.base && Steady(r.value) && Committed(r.value) == After(Committed(t), op)
  {
    if op.Enque? {
      EnqueueRuns(t, nodes, op);
    } else {
      DequeueRuns(t, nodes);
    }
  }

  // Runs with crashes. A process makes one operation, as the program does, and the next one opens the pool again.

  datatype Act =
    | Whole(op: Op)
    | Broken(op: Op, outage: Outage<Loc, int>) // a crash inside it, and perhaps a second one inside the recovery

  /** The memory an operation can start on. */
  predicate HasHead(m: Memory) {
    Head in m && Tail in m && (m[Head] != 0 ==> NextOf(m[Head]) in m)
  }

  predicate CanHappen(m: Memory, act: Act) {
    && HasHead(m) && Unused(m, act.op)
    && match act
       case Whole(op) => Run(Begin(m), Plan(m, op)).Some?
       case Broken(op, outage) => Possible(m, Plan(m, op), outage)
  }

  /** Memory for the next process: what the transaction committed, or what recovery made of the crash. */
  function Left(m: Memory, act: Act): Memory
    requires CanHappen(m, act)
  {
    match act
    case Whole(op) => Committed(Run(Begin(m), Plan(m, op)).value)
    case Broken(op, outage) => Restarted(m, Plan(m, op), outage)
  }

  function RunActs(m: Memory, acts: seq<Act>): Option<Memory>
    decreases |acts|
  {
    if acts == [] then Some(m)
    else
      var before := RunActs(m, acts[..|acts| - 1]);
      if before.Some? && CanHappen(before.value, acts[|acts| - 1]) then Some(Left(before.value, acts[|acts| - 1]))
      else None
  }

  /** A plain FIFO list. Operations that broke off never were. */
  function Fifo(q: seq<int>, acts: seq<Act>): seq<int>
    decreases |acts|
  {
    if acts == [] then q
    else
      var before := Fifo(q, acts[..|acts| - 1]);
      match acts[|acts| - 1]
      case Whole(Enque(value, _, _)) => before + [value]
      case Whole(Deque) => if before == [] then [] else before[1..]
      case Broken(_, _) => before
  }

  lemma FromBegin(m: Memory, nodes: seq<nat>, op: Op)
    requires IsQueue(m, nodes) && Unused(m, op)
    ensures HasHead(m) && CrashSafe(m, Plan(m, op))
    ensures Run(Begin(m), Plan(m, op)).Some? && Committed(Run(Begin(m), Plan(m, op)).value) == After(m, op)
  {
    assert nodes != [] ==> NextOf(nodes[0]) in m;
    assert Committed(Begin(m)) == m;
    OpRuns(Begin(m), nodes, op);
    GuardedIsProtected(m, Plan(m, op));
    GuardedIsCrashSafe(m, Plan(m, op));
  }

  /** Wherever an operation breaks off, and wherever its recovery does, memory is what it was before it. */
  lemma BrokenIsNothing(m: Memory, nodes: seq<nat>, op: Op, outage: Outage<Loc, int>)
    requires IsQueue(m, nodes) && CanHappen(m, Broken(op, outage))
    ensures Left(m, Broken(op, outage)) == m
  {
    FromBegin(m, nodes, op);
    OutageChangesNothing(m, Plan(m, op), outage);
  }

  /** A list that is well formed never keeps an operation from happening. */
  lemma NothingBlocks(m: Memory, nodes: seq<nat>, op: Op)
    requires IsQueue(m, nodes) && Unused(m, op)
    ensures CanHappen(m, Whole(op)) && Left(m, Whole(op)) == After(m, op)
  {
    FromBegin(m, nodes, op);
  }

  lemma OpIsFifo(m: Memory, nodes: seq<nat>, op: Op) returns (after: seq<nat>)
    requires IsQueue(m, nodes) && Unused(m, op)
    ensures HasHead(m) && IsQueue(After(m, op), after)
    ensures Contents(After(m, op), after)
         == match op
            case Enque(value, _, _) => Contents(m, nodes) + [value]
            case Deque => if nodes == [] then [] else Contents(m, nodes)[1..]
  {
    assert nodes != [] ==> NextOf(nodes[0]) in m;
    match op
    case Enque(value, node, _) =>
      EnqueueAppends(m, nodes, node, value);
      after := nodes + [node];
    case Deque =>
      after := nodes;
      if nodes != [] {
        DequeueTakesFirst(m, nodes);
        after := nodes[1..];
      }
  }

  lemma ActIsFifo(m: Memory, nodes: seq<nat>, act: Act) returns (after: seq<nat>)
    requires IsQueue(m, nodes) && CanHappen(m, act)
    ensures IsQueue(Left(m, act), after)
    ensures Contents(Left(m, act), after)
         == match act
            case Whole(Enque(value, _, _)) => Contents(m, nodes) + [value]
            case Whole(Deque) => if nodes == [] then [] else Contents(m, nodes)[1..]
            case Broken(_, _) => Contents(m, nodes)
  {
    match act
    case Whole(op) =>
      NothingBlocks(m, nodes, op);
      after := OpIsFifo(m, nodes, op);
    case Broken(op, outage) =>
      BrokenIsNothing(m, nodes, op, outage);
      after := nodes;
  }

  /**
   * Any run of the linked queue, with crashes at any step of any transaction, whatever memory then holds, and crashes
   * during recovery, leaves a well-formed list that holds what a plain FIFO list would.
   */
  lemma {:induction false} RunsAreFifo(m: Memory, nodes: seq<nat>, acts: seq<Act>) returns (after: seq<nat>)
    requires IsQueue(m, nodes) && RunActs(m, acts).Some?
    ensures IsQueue(RunActs(m, acts).value, after)
    ensures Contents(RunActs(m, acts).value, after) == Fifo(Contents(m, nodes), acts)
    decreases |acts|
  {
    after := nodes;
    if acts != [] {
      after := RunsAreFifo(m, nodes, acts[..|acts| - 1]);
      after := ActIsFifo(RunActs(m, acts[..|acts| - 1]).value, after, acts[|acts| - 1]);
    }
  }

  class Queue {
    const pool: Pool<Loc, int>
    ghost var nodes: seq<nat>

    ghost predicate Valid()
      reads this, pool
    {
      pool.Valid() && IsQueue(pool.Visible(), nodes)
    }

    constructor (pool: Pool<Loc, int>)
      requires pool.Valid() && pool.depth == 0 && pool.mem == map[Head := 0, Tail := 0]
      ensures Valid() && this.pool == pool && Contents(pool.Visible(), nodes) == []
    {
      this.pool, nodes := pool, [];
    }

    /** The steps of the open transaction so far, or none. */
    ghost function Before(): seq<Step<Loc, int>>
      reads pool
    {
      if pool.depth > 0 then pool.trail else []
    }

    lemma TxIsSteady()
      requires pool.Open()
      ensures Steady(pool.tx) && pool.tx.now == pool.mem && pool.Visible() == Committed(pool.tx)
    {
      GuardedIsProtected(pool.tx.base, pool.trail);
    }

    /** The transaction is where the steps of the operation lead. */
    lemma TxFollows(base: Memory, before: seq<Step<Loc, int>>, t: Tx<Loc, int>, op: Op)
      requires pool.Open() && pool.tx.base == base && GuardedRun(Begin(base), before) == Some(t)
      requires Steady(t) && IsQueue(Committed(t), nodes) && Unused(t.now, op)
      requires pool.trail == before + Plan(Committed(t), op)
      ensures HasHead(Committed(t)) && Committed(pool.tx) == After(Committed(t), op)
    {
      OpRuns(t, nodes, op);
      GuardedConcat(Begin(base), before, Plan(Committed(t), op));
    }

    method NewNode(node: nat, value: int, junk: int)
      requires pool.Open() && ValueOf(node) !in pool.mem && NextOf(node) !in pool.mem
      modifies pool
      ensures pool.Open() && pool.depth == old(pool.depth)
      ensures pool.mem == old(pool.mem)[ValueOf(node) := value][NextOf(node) := 0]
      ensures pool.tx.base == old(pool.tx.base) && pool.trail == old(pool.trail) + NewNodePlan(node, value, junk)
    {
      TxIsSteady();
      NewNodeIs(pool.mem, pool.trail, node, value, junk);
      pool.TxAlloc(map[ValueOf(node) := junk, NextOf(node) := junk]);
      pool.Set(ValueOf(node), value);
      pool.Set(NextOf(node), 0);
    }

    static lemma NewNodeIs(m: Memory, trail: seq<Step<Loc, int>>, node: nat, value: int, junk: int)
      ensures (m + map[ValueOf(node) := junk, NextOf(node) := junk])[ValueOf(node) := value][NextOf(node) := 0]
           == m[ValueOf(node) := value][NextOf(node) := 0]
      ensures var plan := NewNodePlan(node, value, junk);
              trail + [plan[0]] + [plan[1]] + [plan[2]] == trail + plan
    {
    }

    /** The stores that link the new node, in an empty queue and in another. */
    method Link(ghost m: Memory, node: nat)
      requires pool.Open() && HasHead(m) && Head in pool.mem && Tail in pool.mem
      requires m[Head] != 0 ==> NextOf(m[Tail]) in pool.mem
      requires pool.mem[Head] == m[Head] && pool.mem[Tail] == m[Tail]
      modifies pool
      ensures pool.Open() && pool.depth == old(pool.depth)
      ensures pool.tx.base == old(pool.tx.base) && pool.trail == old(pool.trail) + LinkPlan(m, node)
    {
      var head, tail := pool.mem[Head], pool.mem[Tail];
      if head == 0 {
        pool.TxAddRange({Head, Tail});
        pool.Set(Head, node);
        pool.Set(Tail, node);
      } else {
        pool.Update(NextOf(tail), node);
        pool.Update(Tail, node);
      }
    }

    /**
     * queue_enque, when the allocator finds `node`, holding anything. Outside any other transaction it commits; inside
     * one it is part of that one.
     */
    method Enque(value: int, node: nat, junk: int)
      requires Valid() && node != 0 && ValueOf(node) !in pool.mem && NextOf(node) !in pool.mem
      modifies this, pool
      ensures Valid() && pool.depth == old(pool.depth)
      ensures Contents(pool.Visible(), nodes) == old(Contents(pool.Visible(), nodes)) + [value]
      ensures pool.Visible() == Enqueued(old(pool.Visible()), node, value)
      ensures pool.trail == old(Before()) + Plan(old(pool.Visible()), Op.Enque(value, node, junk))
      ensures pool.tx.base == (if old(pool.depth) > 0 then old(pool.tx.base) else old(pool.mem))
      ensures CrashSafe(pool.tx.base, pool.trail)
    {
      EnqueueAppends(pool.Visible(), nodes, node, value);
      pool.TxBegin();
      EnqueSteps(value, node, junk);
      pool.TxEnd();
      nodes := nodes + [node];
    }

    /** Its steps, inside the transaction. */
    method EnqueSteps(value: int, node: nat, junk: int)
      requires pool.Open() && IsQueue(pool.Visible(), nodes)
      requires node != 0 && ValueOf(node) !in pool.mem && NextOf(node) !in pool.mem
      modifies pool
      ensures pool.Open() && pool.depth == old(pool.depth) && pool.tx.base == old(pool.tx.base)
      ensures pool.Visible() == Enqueued(old(pool.Visible()), node, value)
      ensures pool.trail == old(pool.trail) + Plan(old(pool.Visible()), Op.Enque(value, node, junk))
    {
      TxIsSteady();
      ghost var m, t, before := pool.Visible(), pool.tx, pool.trail;
      assert nodes != [] ==> NextOf(nodes[|nodes| - 1]) in m;
      NewNode(node, value, junk);
      Link(m, node);
      assert pool.trail == before + Plan(m, Op.Enque(value, node, junk));
      TxFollows(t.base, before, t, Op.Enque(value, node, junk));
    }

    /**
     * queue_deque. On an empty queue it returns from inside the transaction, which then stays open: nothing that the
     * process does afterwards is committed.
     */
    method Deque() returns (code: int, value: int)
      requires Valid()
      modifies this, pool
      ensures Valid() && pool.depth == old(pool.depth) + (if old(nodes) == [] then 1 else 0)
      ensures if old(nodes) == [] then code == -1 && pool.Visible() == old(pool.Visible()) && nodes == []
              else code == 0 && [value] + Contents(pool.Visible(), nodes) == old(Contents(pool.Visible(), nodes))
      ensures pool.trail == old(Before()) + Plan(old(pool.Visible()), Op.Deque)
      ensures pool.tx.base == (if old(pool.depth) > 0 then old(pool.tx.base) else old(pool.mem))
      ensures CrashSafe(pool.tx.base, pool.trail)
    {
      value := 0;
      pool.TxBegin();
      TxIsSteady();
      var head := pool.mem[Head];
      if head == 0 {
        GuardedIsCrashSafe(pool.tx.base, pool.trail);
        return -1, value;
      }
      DequeueTakesFirst(pool.Visible(), nodes);
      value := pool.mem[ValueOf(head)];
      DequeSteps();
      pool.TxEnd();
      nodes := nodes[1..];
      code := 0;
    }

    /** Its steps, inside the transaction. */
    method DequeSteps()
      requires pool.Open() && IsQueue(pool.Visible(), nodes) && nodes != []
      modifies pool
      ensures pool.Open() && pool.depth == old(pool.depth) && pool.tx.base == old(pool.tx.base)
      ensures HasHead(old(pool.Visible())) && pool.Visible() == Dequeued(old(pool.Visible()))
      ensures pool.trail == old(pool.trail) + Plan(old(pool.Visible()), Op.Deque)
    {
      TxIsSteady();
      ghost var m, t, before := pool.Visible(), pool.tx, pool.trail;
      var head := pool.mem[Head];
      assert NextOf(nodes[0]) in m;
      Unlink(m);
      pool.TxFree({ValueOf(head), NextOf(head)});
      assert pool.trail == before + Plan(m, Op.Deque);
      TxFollows(t.base, before, t, Op.Deque);
    }

    /** The stores that take the first node out of the list. */
    method Unlink(ghost m: Memory)
      requires pool.Open() && HasHead(m) && m[Head] != 0 && m == pool.Visible()
      modifies pool
      ensures pool.Open() && pool.depth == old(pool.depth) && pool.mem.Keys == old(pool.mem.Keys)
      ensures pool.tx.base == old(pool.tx.base) && pool.trail == old(pool.trail) + UnlinkPlan(m)
    {
      var head, tail := pool.mem[Head], pool.mem[Tail];
      pool.Update(Head, pool.mem[NextOf(head)]);
      if head == tail {
        pool.Update(Tail, pool.mem[NextOf(tail)]);
      }
    }

    lemma VisibleIsInMemory()
      requires pool.Valid()
      ensures forall l <- pool.Visible() :: l in pool.mem && pool.mem[l] == pool.Visible()[l]
    {
    }

    /** queue_show: the values from head to tail; it changes nothing. */
    method Show() returns (code: int, values: seq<int>)
      requires Valid()
      ensures code == (if nodes == [] then -1 else 0) && values == Contents(pool.Visible(), nodes)
    {
      VisibleIsInMemory();
      values := [];
      var head := pool.mem[Head];
      if head == 0 {
        return -1, values;
      }
      while head != 0
        invariant |values| <= |nodes| && head == At(nodes, |values|)
        invariant forall k: nat :: k < |values| ==> values[k] == Contents(pool.Visible(), nodes)[k]
        decreases |nodes| - |values|
      {
        assert NextOf(nodes[|values|]) in pool.Visible() && ValueOf(nodes[|values|]) in pool.Visible();
        values := values + [pool.mem[ValueOf(head)]];
        head := pool.mem[NextOf(head)];
      }
      code := 0;
    }

    /**
     * After a dequeue of the empty queue an enqueue of the same process seems to succeed, and whenever power fails
     * from then on, recovery takes it back.
     */
    method EnqueAfterEmptyDeque(value: int, node: nat, junk: int)
      requires Valid() && pool.depth == 0 && nodes == []
      requires node != 0 && ValueOf(node) !in pool.mem && NextOf(node) !in pool.mem
      modifies this, pool
      ensures Valid() && pool.Open() && Contents(pool.Visible(), nodes) == [value]
      ensures forall image :: CrashImage(pool.tx, image) ==> RolledBack(pool.tx, image) == old(pool.mem)
    {
      ghost var m := pool.mem;
      var code, none := Deque();
      TxIsSteady();
      Enque(value, node, junk);
      GuardedIsProtected(pool.tx.base, pool.trail);
      forall image | CrashImage(pool.tx, image) ensures RolledBack(pool.tx, image) == m {
        ProtectedRollsBack(pool.tx, image);
      }
    }
  }
}
