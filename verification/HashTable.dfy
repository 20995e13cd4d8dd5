/** The chained hash table of cxl_memory_sharing/hash_kv.c and the lock server's handler that works on it. */
module HashTables {
  import opened Wrappers
  import L = LockProtocol

  class Node {
    const key: nat
    var value: int
    var next: Node?

    constructor (key: nat, value: int, next: Node?)
      ensures this.key == key && this.value == value && this.next == next
    {
      this.key, this.value, this.next := key, value, next;
    }
  }

  function HashFunction(key: nat): nat {
    key % 256
  }

  function At(chain: seq<Node>, k: nat): Node? {
    if k < |chain| then chain[k] else null
  }

  /** `chain` is what a traversal from `head` visits before it meets null. */
  ghost predicate Linked(head: Node?, chain: seq<Node>)
    reads chain
  {
    head == At(chain, 0) && forall k: nat {:trigger chain[k].next} :: k < |chain| ==> chain[k].next == At(chain, k + 1)
  }

  ghost predicate Occurs(chain: seq<Node>, key: int) {
    exists k: nat :: k < |chain| && chain[k].key == key
  }

  /** A key is in its own bucket, and in no other node. */
  ghost predicate KeysInPlace(chains: seq<seq<Node>>) {
    && (forall i: nat, k: nat :: i < |chains| && k < |chains[i]| ==> chains[i][k].key % 256 == i)
    && (forall i: nat, j: nat, k: nat :: i < |chains| && j < k < |chains[i]| ==> chains[i][j].key != chains[i][k].key)
  }

  ghost predicate HasKey(chains: seq<seq<Node>>, key: int) {
    key >= 0 && HashFunction(key) < |chains| && Occurs(chains[HashFunction(key)], key)
  }

  /** A node whose key is new may go in front of its bucket. */
  lemma PrependKeeps(chains: seq<seq<Node>>, n: Node)
    requires KeysInPlace(chains) && HashFunction(n.key) < |chains| && !HasKey(chains, n.key)
    ensures var i := HashFunction(n.key);
            && KeysInPlace(chains[i := [n] + chains[i]])
            && forall key :: HasKey(chains[i := [n] + chains[i]], key) <==> key == n.key || HasKey(chains, key)
  {
    var i := HashFunction(n.key);
    var after := chains[i := [n] + chains[i]];
    assert after[i][0] == n;
    forall key | HasKey(chains, key)
      ensures HasKey(after, key)
    {
      var k: nat :| k < |chains[HashFunction(key)]| && chains[HashFunction(key)][k].key == key;
      assert HashFunction(key) == i ==> after[i][k + 1].key == key;
    }
  }

  class HashTable {
    const list: array<Node?>
    ghost var chains: seq<seq<Node>>   // the nodes of every bucket
    ghost var nodes: set<Node>         // all of them
    ghost var contents: map<int, int>  // the mapping the table stands for

    ghost predicate Shaped()
      reads this, list, nodes
    {
      && list.Length == |chains| == 256
      && (forall i: nat, k: nat :: i < |chains| && k < |chains[i]| ==> chains[i][k] in nodes)
      && (forall i: nat :: i < |chains| ==> Linked(list[i], chains[i]))
    }

    ghost predicate Stands()
      reads this, nodes
    {
      && (forall i: nat, k: nat :: i < |chains| && k < |chains[i]| ==>
            && chains[i][k] in nodes && chains[i][k].key in contents
              && contents[chains[i][k].key] == chains[i][k].value)
      && (forall key :: key in contents ==> HasKey(chains, key))
    }

    ghost predicate Valid()
      reads this, list, nodes
    {
      Shaped() && KeysInPlace(chains) && Stands()
    }

    /** createHashTable. */
    constructor ()
      ensures Valid() && contents == map[] && fresh(list) && nodes == {}
    {
      list := new Node?[256](_ => null);
      chains := seq(256, _ => []);
      nodes := {};
      contents := map[];
    }

    method GetKeyValue(key: nat) returns (value: int)
      requires Valid()
      ensures value == L.Lookup(contents, key)
    {
      var index := HashFunction(key);
      var node := list[index];
      ghost var chain := chains[index];
      ghost var k := 0;
      while node != null
        invariant k <= |chain| && node == At(chain, k)
        invariant forall j: nat :: j < k ==> chain[j].key != key
        decreases |chain| - k
      {
        if node.key == key {
          return node.value;
        }
        node := node.next;
        k := k + 1;
      }
      return -1;
    }

    method SetKeyValue(key: nat, value: int)
      requires Valid()
      modifies this, list, nodes
      ensures Valid() && contents == old(contents)[key as int := value]
      ensures fresh(nodes - old(nodes))
    {
      var index := HashFunction(key);
      var node := list[index];
      ghost var chain := chains[index];
      ghost var k := 0;
      while node != null
        invariant k <= |chain| && node == At(chain, k)
        invariant forall j: nat :: j < k ==> chain[j].key != key
        decreases |chain| - k
      {
        if node.key == key {
          Replace(node, value, index, k);
          return;
        }
        node := node.next;
        k := k + 1;
      }
      Insert(key, value);
    }

    /** The key is found: its node takes the new value. */
    method Replace(node: Node, value: int, ghost i: nat, ghost k: nat)
      requires Valid() && i < |chains| && k < |chains[i]| && node == chains[i][k]
      modifies this, node
      ensures Valid() && contents == old(contents)[node.key as int := value] && nodes == old(nodes)
    {
      node.value := value;
      contents := contents[node.key as int := value];
      assert Shaped();
    }

    /** It is not: a new node goes in front of the chain of its bucket. */
    method Insert(key: nat, value: int)
      requires Valid() && !HasKey(chains, key)
      modifies this, list
      ensures Valid() && contents == old(contents)[key as int := value]
      ensures fresh(nodes - old(nodes))
    {
      var index := HashFunction(key);
      var newNode := new Node(key, value, list[index]);
      list[index] := newNode;
      chains := chains[index := [newNode] + chains[index]];
      nodes := nodes + {newNode};
      contents := contents[key as int := value];
      forall i: nat | i < |chains|
        ensures Linked(list[i], chains[i])
      {
        assert old(Linked(list[i], chains[i]));
        assert i == index ==> chains[i][0] == newNode && chains[i][1..] == old(chains[i]);
      }
      PrependKeeps(old(chains), newNode);
    }
  }

  /** handle_lock: one message of a client, answered from the table. ERROR_LOCK stops the server. */
  method HandleLock(table: HashTable, x: nat) returns (reply: Option<int>)
    requires table.Valid() && !L.Decode(x).kind.Error?
    modifies table, table.list, table.nodes
    ensures table.Valid() && fresh(table.nodes - old(table.nodes))
    ensures table.contents == L.Updated(old(table.contents), L.Decode(x))
    ensures reply == L.Handle(L.Lookup(old(table.contents), L.Decode(x).block), L.Decode(x).kind).1
    ensures var value := if x / 4 in old(table.contents) then old(table.contents)[x / 4] else -1;
            reply == match x % 4
                     case 0 => None
                     case 1 => Some(if value == -1 || value == 1 then 0 else 1)
                     case _ => Some(if value == -1 || value == 0 then 1 else 0)
  {
    var indicator := x % 4;
    var lock := 0;
    var block := x / 4;
    var value := table.GetKeyValue(block);
    if indicator == 2 {
      if value == -1 || value == 0 {
        value := 1;
        table.SetKeyValue(block, value);
        lock := 1;
      } else {
        lock := 0;
      }
    }
    if indicator == 1 {
      if value == 1 || value == -1 {
        lock := 0;
      } else {
        value := (value / 2 + 1) * 2;
        table.SetKeyValue(block, value);
        lock := 1;
      }
    }
    if indicator == 0 {
      if value == 1 {
        value := 0;
        table.SetKeyValue(block, value);
      } else if value != 0 && value != -1 {
        value := (value / 2 - 1) * 2;
        table.SetKeyValue(block, value);
      }
    }
    return if indicator != 0 then Some(lock) else None;
  }
}
