/** The lock server of cxl_memory_sharing/lock_service.c and its clients, joined by FIFO sockets. */
module LockProtocol {
  import opened Wrappers

  datatype Kind = Release | Read | Write | Error

  /** What a client owns: one kind of lock on one block. */
  datatype Grant = Grant(kind: Kind, block: nat)

  const NO_VALUE: int := -1 // what getKeyValue answers for a block the table has never seen

  function Code(kind: Kind): nat {
    match kind
    case Release => 0
    case Read => 1
    case Write => 2
    case Error => 3
  }

  /** uuid << 2 | kind. */
  function Message(g: Grant): nat {
    4 * g.block + Code(g.kind)
  }

  /** The block is x >> 2 and the kind its two low bits. */
  function Decode(x: nat): Grant {
    Grant(if x % 4 == 0 then Release else if x % 4 == 1 then Read else if x % 4 == 2 then Write else Error, x / 4)
  }

  lemma DecodeMessage(g: Grant)
    ensures Decode(Message(g)) == g
  {
  }

  function Lookup(table: map<int, int>, key: int): int {
    if key in table then table[key] else NO_VALUE
  }

  /** handle_lock on one table entry: the new value, and the reply if one is sent. */
  function Handle(value: int, kind: Kind): (int, Option<int>) {
    match kind
    case Write =>
      if value == NO_VALUE || value == 0 then (1, Some(1)) else (value, Some(0))
    case Read =>
      if value == 1 || value == NO_VALUE then (value, Some(0)) else ((value / 2 + 1) * 2, Some(1))
    case Release =>
      if value == 1 then (0, None)
      else if value != 0 && value != NO_VALUE then ((value / 2 - 1) * 2, None)
      else (value, None)
    case Error => (value, Some(0)) // the server stops on an assertion; no client below sends it
  }

  /** handle_lock writes the entry back only when it changes it. */
  function Updated(table: map<int, int>, g: Grant): map<int, int> {
    var value := Lookup(table, g.block);
    if Handle(value, g.kind).0 == value then table else table[g.block as int := Handle(value, g.kind).0]
  }

  datatype Stage = Idle | Asking(want: Grant) | Holding(held: Grant)

  /** One client: its program counter, its two sockets, and the grant a release still in flight gives back. */
  datatype Client = Client(stage: Stage, up: seq<nat>, down: seq<int>, releasing: Option<Grant>)

  datatype Locks = Locks(table: map<int, int>, clients: seq<Client>)

  datatype Step =
    | Ask(c: nat, want: Grant)  // send in readlock or writelock
    | Serve(c: nat)             // the server handles one message of client c
    | Receive(c: nat)           // the client reads its reply, and asks again when refused
    | GiveBack(c: nat)          // send in releaselock

  predicate Start(s: Locks) {
    s.table == map[] && forall c <- s.clients :: c == Client(Idle, [], [], None)
  }

  predicate Enabled(a: Step, s: Locks) {
    a.c < |s.clients| &&
    var client := s.clients[a.c];
    match a
    case Ask(_, want) => client.stage.Idle? && (want.kind.Read? || want.kind.Write?)
    case Serve(_) => client.up != []
    case Receive(_) => client.stage.Asking? && client.down != []
    case GiveBack(_) => client.stage.Holding?
  }

  function Served(client: Client, reply: Option<int>): Client
    requires client.up != []
  {
    client.(up := client.up[1..], down := client.down + (if reply.Some? then [reply.value] else []),
            releasing := if Decode(client.up[0]).kind.Release? then None else client.releasing)
  }

  function Received(client: Client): Client
    requires client.stage.Asking? && client.down != []
  {
    if client.down[0] == 1 then client.(stage := Holding(client.stage.want), down := client.down[1..])
    else client.(up := client.up + [Message(client.stage.want)], down := client.down[1..])
  }

  function Apply(a: Step, s: Locks): Locks
    requires Enabled(a, s)
  {
    var client := s.clients[a.c];
    match a
    case Ask(c, want) =>
      s.(clients := s.clients[c := client.(stage := Asking(want), up := client.up + [Message(want)])])
    case Serve(c) =>
      var g := Decode(client.up[0]);
      Locks(Updated(s.table, g), s.clients[c := Served(client, Handle(Lookup(s.table, g.block), g.kind).1)])
    case Receive(c) => s.(clients := s.clients[c := Received(client)])
    case GiveBack(c) =>
      var held := client.stage.held;
      s.(clients := s.clients[c := client.(stage := Idle, up := client.up + [Message(held.(kind := Release))],
                                           releasing := Some(held))])
  }

  /** The grant outstanding at a client: held, promised by a reply in flight, or given back by a release in flight. */
  function Outstanding(client: Client): Option<Grant> {
    if client.stage.Holding? then Some(client.stage.held)
    else if client.stage.Asking? && client.down == [1] then Some(client.stage.want)
    else client.releasing
  }

  function InFlightRelease(client: Client): seq<nat> {
    if client.releasing.Some? then [Message(client.releasing.value.(kind := Release))] else []
  }

  /** Sockets carry at most one release followed by one request, or one reply. */
  predicate Disciplined(client: Client) {
    && (client.releasing.Some? ==> client.releasing.value.kind.Read? || client.releasing.value.kind.Write?)
    && match client.stage
       case Idle => client.up == InFlightRelease(client) && client.down == []
       case Holding(g) => client.up == [] && client.down == [] && client.releasing.None?
         && (g.kind.Read? || g.kind.Write?)
       case Asking(g) =>
         && (g.kind.Read? || g.kind.Write?)
         && (if client.down == [] then client.up == InFlightRelease(client) + [Message(g)]
             else (client.down == [0] || client.down == [1]) && client.up == [] && client.releasing.None?)
  }

  function Owners(clients: seq<Client>, g: Grant): set<nat> {
    set c: nat | c < |clients| && Outstanding(clients[c]) == Some(g)
  }

  /** The stored value counts the grants: 1 is one writer, 2k is k readers, and nothing else is ever stored. */
  predicate Counted(s: Locks, block: nat) {
    var value, writers, readers := Lookup(s.table, block), |Owners(s.clients, Grant(Write, block))|,
      |Owners(s.clients, Grant(Read, block))|;
    (block in s.table <==> value != NO_VALUE) &&
    if value == NO_VALUE then writers == 0 && readers == 0
    else if value == 1 then writers == 1 && readers == 0
    else value == 2 * readers && writers == 0
  }

  ghost predicate Consistent(s: Locks) {
    && (forall c: nat :: c < |s.clients| ==> Disciplined(s.clients[c]))
    && (forall block: nat :: Counted(s, block))
  }

  lemma OwnersAfter(clients: seq<Client>, c: nat, client: Client, g: Grant)
    requires c < |clients|
    ensures Owners(clients[c := client], g)
         == if Outstanding(client) == Some(g) then Owners(clients, g) + {c} else Owners(clients, g) - {c}
  {
  }

  lemma SizeAfter(clients: seq<Client>, c: nat, client: Client, g: Grant)
    requires c < |clients|
    ensures |Owners(clients[c := client], g)|
         == |Owners(clients, g)| + (if Outstanding(client) == Some(g) then 1 else 0)
            - (if Outstanding(clients[c]) == Some(g) then 1 else 0)
  {
    OwnersAfter(clients, c, client, g);
  }

  /** A step that moves no grant and stores nothing leaves every count alone. */
  lemma SameGrants(s: Locks, c: nat, client: Client)
    requires Consistent(s) && c < |s.clients| && Disciplined(client)
    requires Outstanding(client) == Outstanding(s.clients[c])
    ensures Consistent(s.(clients := s.clients[c := client]))
  {
    var t := s.(clients := s.clients[c := client]);
    forall block: nat
      ensures Counted(t, block)
    {
      assert Counted(s, block);
      SizeAfter(s.clients, c, client, Grant(Write, block));
      SizeAfter(s.clients, c, client, Grant(Read, block));
    }
  }

  lemma AskKeeps(s: Locks, c: nat, want: Grant)
    requires Consistent(s) && Enabled(Ask(c, want), s)
    ensures Consistent(Apply(Ask(c, want), s))
  {
    var client := s.clients[c];
    assert Disciplined(client);
    SameGrants(s, c, client.(stage := Asking(want), up := client.up + [Message(want)]));
  }

  lemma ReceiveKeeps(s: Locks, c: nat)
    requires Consistent(s) && Enabled(Receive(c), s)
    ensures Consistent(Apply(Receive(c), s))
  {
    assert Disciplined(s.clients[c]);
    SameGrants(s, c, Received(s.clients[c]));
  }

  lemma GiveBackKeeps(s: Locks, c: nat)
    requires Consistent(s) && Enabled(GiveBack(c), s)
    ensures Consistent(Apply(GiveBack(c), s))
  {
    var client := s.clients[c];
    assert Disciplined(client);
    var held := client.stage.held;
    SameGrants(s, c, client.(stage := Idle, up := client.up + [Message(held.(kind := Release))],
                             releasing := Some(held)));
  }

  /** The message at the head of a client's socket says what the client has outstanding. */
  lemma HeadMessage(client: Client)
    requires Disciplined(client) && client.up != []
    ensures if client.releasing.Some?
            then && Decode(client.up[0]) == client.releasing.value.(kind := Release)
                 && Outstanding(client) == client.releasing
            else && client.stage.Asking? && client.down == [] && Decode(client.up[0]) == client.stage.want
                 && Outstanding(client) == None
  {
    if client.releasing.Some? {
      DecodeMessage(client.releasing.value.(kind := Release));
    } else if client.stage.Asking? {
      DecodeMessage(client.stage.want);
    }
  }

  lemma ServedIsDisciplined(client: Client, reply: Option<int>)
    requires Disciplined(client) && client.up != []
    requires reply.Some? <==> !Decode(client.up[0]).kind.Release?
    requires reply.Some? ==> reply.value == 0 || reply.value == 1
    ensures Disciplined(Served(client, reply))
    ensures Outstanding(Served(client, reply))
         == if reply == Some(1) then Some(Decode(client.up[0])) else None
  {
    HeadMessage(client);
  }

  /** handle_lock keeps the count of the block it touches, whatever it answers. */
  lemma ServeKeepsCount(s: Locks, c: nat, block: nat)
    requires Consistent(s) && Enabled(Serve(c), s)
    ensures Counted(Apply(Serve(c), s), block)
  {
    var client := s.clients[c];
    var g := Decode(client.up[0]);
    var outcome := Handle(Lookup(s.table, g.block), g.kind);
    var after := Served(client, outcome.1);
    assert Disciplined(client) && Counted(s, block);
    HeadMessage(client);
    ServedIsDisciplined(client, outcome.1);
    SizeAfter(s.clients, c, after, Grant(Write, block));
    SizeAfter(s.clients, c, after, Grant(Read, block));
    if client.releasing.Some? {
      assert c in Owners(s.clients, client.releasing.value);
    }
  }

  lemma ServeKeeps(s: Locks, c: nat)
    requires Consistent(s) && Enabled(Serve(c), s)
    ensures Consistent(Apply(Serve(c), s))
  {
    var client := s.clients[c];
    var g := Decode(client.up[0]);
    assert Disciplined(client);
    HeadMessage(client);
    ServedIsDisciplined(client, Handle(Lookup(s.table, g.block), g.kind).1);
    var t := Apply(Serve(c), s);
    forall block: nat
      ensures Counted(t, block)
    {
      ServeKeepsCount(s, c, block);
    }
  }

  /** Nobody holds `block` in the given way, or has its grant or its release in flight. */
  predicate NobodyHas(clients: seq<Client>, kind: Kind, block: nat) {
    forall c: nat :: c < |clients| ==> Outstanding(clients[c]) != Some(Grant(kind, block))
  }

  lemma NobodyIsCounted(clients: seq<Client>, kind: Kind, block: nat)
    ensures NobodyHas(clients, kind, block) <==> |Owners(clients, Grant(kind, block))| == 0
  {
    var owners := Owners(clients, Grant(kind, block));
    assert forall c: nat :: c < |clients| && Outstanding(clients[c]) == Some(Grant(kind, block)) ==> c in owners;
    assert |owners| == 0 <==> owners == {};
  }

  /**
   * Whom the server grants what. A write request is answered 1 if and only if the block is free, a read request if and
   * only if the block has been written before and no writer has it; every other request is answered 0, and a release
   * is not answered.
   */
  lemma ServeGrants(s: Locks, c: nat)
    requires Consistent(s) && Enabled(Serve(c), s)
    ensures var x, was, now := s.clients[c].up[0], s.clients[c].down, Apply(Serve(c), s).clients[c].down;
            && (x % 4 == 2 ==> now == was + [if NobodyHas(s.clients, Write, x / 4) && NobodyHas(s.clients, Read, x / 4)
                                              then 1 else 0])
            && (x % 4 == 1 ==> now == was + [if x / 4 in s.table && NobodyHas(s.clients, Write, x / 4) then 1 else 0])
            && (x % 4 == 0 ==> now == was)
            && x % 4 != 3
  {
    var client := s.clients[c];
    var block := client.up[0] / 4;
    assert Disciplined(client) && Counted(s, block);
    HeadMessage(client);
    NobodyIsCounted(s.clients, Write, block);
    NobodyIsCounted(s.clients, Read, block);
  }

  /** A client goes on with its lock only when it is granted; refused, it sends the same request again. */
  lemma RefusedAsksAgain(s: Locks, c: nat)
    requires Consistent(s) && Enabled(Receive(c), s)
    ensures var was, now := s.clients[c], Apply(Receive(c), s).clients[c];
            && (was.down == [1] || was.down == [0]) && now.down == []
            && (was.down == [1] ==> now.stage == Holding(was.stage.want) && now.up == [])
            && (was.down == [0] ==> now.stage == was.stage && now.up == [Message(was.stage.want)])
  {
    assert Disciplined(s.clients[c]);
  }

  /** A request that finds its block free is granted: served and received, the client holds its lock. */
  lemma FreeBlockIsGranted(s: Locks, c: nat)
    requires Consistent(s) && Enabled(Serve(c), s) && s.clients[c].stage.Asking? && s.clients[c].releasing.None?
    requires NobodyHas(s.clients, Write, s.clients[c].stage.want.block)
    requires if s.clients[c].stage.want.kind.Write? then NobodyHas(s.clients, Read, s.clients[c].stage.want.block)
             else s.clients[c].stage.want.block in s.table
    ensures Enabled(Receive(c), Apply(Serve(c), s))
    ensures Apply(Receive(c), Apply(Serve(c), s)).clients[c].stage == Holding(s.clients[c].stage.want)
  {
    assert Disciplined(s.clients[c]);
    HeadMessage(s.clients[c]);
    ServeGrants(s, c);
  }

  /** The table learns a block from the first write request for it, and never forgets it. */
  lemma WritesAreRemembered(s: Locks, c: nat, block: nat)
    requires Consistent(s) && Enabled(Serve(c), s)
    ensures block in Apply(Serve(c), s).table <==>
            block in s.table || (s.clients[c].up[0] % 4 == 2 && s.clients[c].up[0] / 4 == block)
  {
    assert Disciplined(s.clients[c]) && Counted(s, block);
    HeadMessage(s.clients[c]);
    if s.clients[c].releasing.Some? {
      assert c in Owners(s.clients, s.clients[c].releasing.value);
    }
  }

  lemma StepKeeps(a: Step, s: Locks)
    requires Consistent(s) && Enabled(a, s)
    ensures Consistent(Apply(a, s))
  {
    match a
    case Ask(c, want) => AskKeeps(s, c, want);
    case Serve(c) => ServeKeeps(s, c);
    case Receive(c) => ReceiveKeeps(s, c);
    case GiveBack(c) => GiveBackKeeps(s, c);
  }

  lemma StartIsConsistent(s: Locks)
    requires Start(s)
    ensures Consistent(s)
  {
    forall c: nat | c < |s.clients|
      ensures Disciplined(s.clients[c])
    {
      assert s.clients[c] in s.clients;
    }
    forall block: nat
      ensures Counted(s, block)
    {
      forall c: nat | c < |s.clients|
        ensures Outstanding(s.clients[c]) == None
      {
        assert s.clients[c] in s.clients;
      }
      assert Owners(s.clients, Grant(Write, block)) == {} && Owners(s.clients, Grant(Read, block)) == {};
    }
  }

  function Run(s: Locks, steps: seq<Step>): Option<Locks> {
    if steps == [] then Some(s)
    else
      var before := Run(s, steps[..|steps| - 1]);
      if before.Some? && Enabled(steps[|steps| - 1], before.value) then Some(Apply(steps[|steps| - 1], before.value))
        else None
  }

  lemma {:induction false} EveryRunIsConsistent(origin: Locks, steps: seq<Step>)
    requires Start(origin) && Run(origin, steps).Some?
    ensures Consistent(Run(origin, steps).value)
    decreases |steps|
  {
    if steps == [] {
      StartIsConsistent(origin);
    } else {
      EveryRunIsConsistent(origin, steps[..|steps| - 1]);
      StepKeeps(steps[|steps| - 1], Run(origin, steps[..|steps| - 1]).value);
    }
  }

  lemma SoleMember(owners: set<nat>, c: nat, d: nat)
    requires |owners| == 1 && c in owners && d in owners
    ensures c == d
  {
    assert |owners - {c}| == 0;
  }

  /** Mutual exclusion: an outstanding write grant on a block is the only grant on it. */
  lemma WriterIsAlone(s: Locks, c: nat, d: nat, block: nat)
    requires Consistent(s) && c < |s.clients| && d < |s.clients| && c != d
    requires Outstanding(s.clients[c]) == Some(Grant(Write, block))
    ensures Outstanding(s.clients[d]).Some? ==> Outstanding(s.clients[d]).value.block != block
    ensures Lookup(s.table, block) == 1
  {
    assert Counted(s, block);
    var writers, readers := Owners(s.clients, Grant(Write, block)), Owners(s.clients, Grant(Read, block));
    assert c in writers && |writers| > 0;
    assert readers == {};
    OutstandingKinds(s.clients[d]);
    if d in writers {
      SoleMember(writers, c, d);
    }
    assert d !in readers && d !in writers;
  }

  lemma OutstandingKinds(client: Client)
    requires Disciplined(client)
    ensures Outstanding(client).Some? ==> Outstanding(client).value.kind.Read? || Outstanding(client).value.kind.Write?
  {
  }

  /** No run of any number of clients has a holder beside a writer of the same block. */
  lemma MutualExclusion(origin: Locks, steps: seq<Step>, s: Locks, c: nat, d: nat)
    requires Start(origin) && Run(origin, steps) == Some(s)
    requires c < |s.clients| && d < |s.clients| && c != d
    requires s.clients[c].stage.Holding? && s.clients[d].stage.Holding?
    requires s.clients[c].stage.held.kind.Write?
    ensures s.clients[c].stage.held.block != s.clients[d].stage.held.block
  {
    EveryRunIsConsistent(origin, steps);
    WriterIsAlone(s, c, d, s.clients[c].stage.held.block);
  }

  /** What the stored value says, in both directions: 1 is exactly one write grant, 2k exactly k read grants. */
  lemma ValueCountsGrants(origin: Locks, steps: seq<Step>, s: Locks, block: nat)
    requires Start(origin) && Run(origin, steps) == Some(s)
    ensures Lookup(s.table, block) == 1 <==> |Owners(s.clients, Grant(Write, block))| == 1
    ensures Lookup(s.table, block) != 1 ==> |Owners(s.clients, Grant(Write, block))| == 0
    ensures Lookup(s.table, block) > 1 ==> Lookup(s.table, block) == 2 * |Owners(s.clients, Grant(Read, block))|
    ensures Lookup(s.table, block) <= 1 ==> |Owners(s.clients, Grant(Read, block))| == 0
    ensures block in s.table ==> s.table[block] == 1 || (s.table[block] >= 0 && s.table[block] % 2 == 0)
  {
    EveryRunIsConsistent(origin, steps);
    assert Counted(s, block);
  }
}
