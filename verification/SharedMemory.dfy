/** Memory shared by hosts whose caches are not coherent, line by line (cxl_memory_sharing). */
module SharedMemory {
  type byte = bv8
  type Line = seq<byte>
  type Block = seq<Line>

  datatype Addr = Addr(block: nat, line: nat)

  datatype Cached = Cached(value: Line, dirty: bool)

  datatype Store = Store(mem: map<Addr, Line>, caches: seq<map<Addr, Cached>>)

  function Mem(s: Store, a: Addr): Line {
    if a in s.mem then s.mem[a] else []
  }

  predicate Dirty(s: Store, h: nat, a: Addr) {
    h < |s.caches| && a in s.caches[h] && s.caches[h][a].dirty
  }

  predicate Holds(s: Store, h: nat, a: Addr) {
    h < |s.caches| && a in s.caches[h]
  }

  function Value(s: Store, h: nat, a: Addr): Line {
    if Holds(s, h, a) then s.caches[h][a].value else Mem(s, a)
  }

  /** clflushopt, and equally an eviction: a dirty line is written back, and the host forgets the line. */
  function Flush(s: Store, h: nat, a: Addr): Store {
    if !Holds(s, h, a) then s
    else Store(if s.caches[h][a].dirty then s.mem[a := s.caches[h][a].value] else s.mem,
               s.caches[h := s.caches[h] - {a}])
  }

  /** A load or a prefetch: a missing line comes in clean from memory, whatever other hosts hold. */
  function Fetch(s: Store, h: nat, a: Addr): Store {
    if h >= |s.caches| || Holds(s, h, a) then s
    else s.(caches := s.caches[h := s.caches[h][a := Cached(Mem(s, a), false)]])
  }

  /** A store: the line becomes dirty in this host alone. */
  function Put(s: Store, h: nat, a: Addr, v: Line): Store {
    if h >= |s.caches| then s else s.(caches := s.caches[h := s.caches[h][a := Cached(v, true)]])
  }

  lemma AfterFlush(s: Store, h: nat, a: Addr)
    ensures var t := Flush(s, h, a);
            && |t.caches| == |s.caches| && !Holds(t, h, a)
            && (forall b :: Mem(t, b) == if b == a && Dirty(s, h, a) then Value(s, h, a) else Mem(s, b))
            && (forall g: nat, b :: (g, b) != (h, a) ==>
              Holds(t, g, b) == Holds(s, g, b) && Dirty(t, g, b) == Dirty(s, g, b))
            && (forall g: nat, b :: (g, b) != (h, a) && Holds(s, g, b) ==> Value(t, g, b) == Value(s, g, b))
  {
  }

  lemma AfterFetch(s: Store, h: nat, a: Addr)
    ensures var t := Fetch(s, h, a);
            && |t.caches| == |s.caches| && t.mem == s.mem
            && (forall g: nat, b :: Dirty(t, g, b) == Dirty(s, g, b) && Value(t, g, b) == Value(s, g, b))
  {
  }

  /** And from then on the host holds the line, so that later stores of others pass it by. */
  lemma FetchedIsHeld(s: Store, h: nat, a: Addr, g: nat, b: Addr)
    ensures Holds(Fetch(s, h, a), g, b) <==> Holds(s, g, b) || (g == h < |s.caches| && b == a)
  {
  }

  lemma AfterPut(s: Store, h: nat, a: Addr, v: Line)
    requires h < |s.caches|
    ensures var t := Put(s, h, a, v);
            && |t.caches| == |s.caches| && t.mem == s.mem
            && Dirty(t, h, a) && Value(t, h, a) == v
            && (forall g: nat, b :: (g, b) != (h, a) ==>
              Dirty(t, g, b) == Dirty(s, g, b) && Value(t, g, b) == Value(s, g, b))
  {
  }
}
