/** The two-level page index of cbs_req/cbs_req_pmemobj.cpp, in undo-logged transactions. */
module PageIndex {
  import opened UndoLog
  import opened Wrappers

  type Page = seq<bv8>

  const BLOCKS: nat := 1048576 // DISK_BLOCK_NUM

  /** Object 0 is the null object. */
  datatype Loc =
    | BlockAt(b: nat)            // in the root: the object of block b
    | PageAt(block: nat, p: nat) // in a block object: the object of page p
    | Count(block: nat)          // in a block object: cached_page_cnt
    | Bytes(page: nat)           // a page object

  datatype Val = Oid(oid: nat) | Num(n: nat) | Data(bytes: Page)

  type Memory = map<Loc, Val>

  function OidIn(m: Memory, l: Loc): nat {
    if l in m && m[l].Oid? then m[l].oid else 0
  }

  function PageOid(m: Memory, b: nat, p: nat): nat {
    if OidIn(m, BlockAt(b)) == 0 then 0 else OidIn(m, PageAt(OidIn(m, BlockAt(b)), p))
  }

  /** How many of the first n pages of a block object are there. */
  function Cached(m: Memory, block: nat, n: nat): nat
    decreases n, block
  {
    if n == 0 then 0 else Cached(m, block, n - 1) + (if OidIn(m, PageAt(block, n - 1)) != 0 then 1 else 0)
  }

  predicate IsBlock(m: Memory, block: nat) {
    && (forall p: nat :: p < 1024 ==> PageAt(block, p) in m && m[PageAt(block, p)].Oid?)
    && Count(block) in m && m[Count(block)] == Num(Cached(m, block, 1024))
  }

  predicate IsIndex(m: Memory) {
    && (forall b: nat :: b < BLOCKS ==> BlockAt(b) in m && m[BlockAt(b)].Oid?)
    && (forall b: nat :: b < BLOCKS && OidIn(m, BlockAt(b)) != 0 ==> IsBlock(m, OidIn(m, BlockAt(b))))
    && (forall b: nat, c: nat ::
          b < BLOCKS && c < BLOCKS && OidIn(m, BlockAt(b)) == OidIn(m, BlockAt(c)) != 0 ==> b == c)
    && (forall b: nat, p: nat :: b < BLOCKS && p < 1024 && PageOid(m, b, p) != 0 ==>
          Bytes(PageOid(m, b, p)) in m && m[Bytes(PageOid(m, b, p))].Data?)
    && (forall b: nat, p: nat, c: nat, q: nat ::
          b < BLOCKS && p < 1024 && c < BLOCKS && q < 1024 && PageOid(m, b, p) == PageOid(m, c, q) != 0 ==>
            b == c && p == q)
  }

  /** What a request sees. */
  function Lookup(m: Memory, b: nat, p: nat): Option<Page>
    requires IsIndex(m) && b < BLOCKS && p < 1024
  {
    if PageOid(m, b, p) == 0 then None else Some(m[Bytes(PageOid(m, b, p))].bytes)
  }

  function BlockLocs(block: nat): set<Loc> {
    (set p | 0 <= p < 1024 :: PageAt(block, p)) + {Count(block)}
  }

  /** The object of a new block, zeroed. */
  function ZeroBlock(block: nat): Memory {
    map l | l in BlockLocs(block) :: if l.Count? then Num(0) else Oid(0)
  }

  predicate Unused(m: Memory, block: nat, page: nat) {
    block != 0 && page != 0 && BlockLocs(block) !! m.Keys && Bytes(page) !in m
  }

  function WithBlock(m: Memory, b: nat, block: nat): Memory {
    (m + ZeroBlock(block))[BlockAt(b) := Oid(block)]
  }

  function WithPage(m: Memory, block: nat, p: nat, content: Page, page: nat): Memory {
    m[Bytes(page) := Data(content)][PageAt(block, p) := Oid(page)][Count(block) := Num(Cached(m, block, 1024) + 1)]
  }

  /** Memory after write_req, when the allocator finds `block` and `page`. */
  function Written(m: Memory, b: nat, p: nat, content: Page, block: nat, page: nat): Memory {
    var o := OidIn(m, BlockAt(b));
    if o == 0 then WithPage(WithBlock(m, b, block), block, p, content, page)
    else if OidIn(m, PageAt(o, p)) == 0 then WithPage(m, o, p, content, page)
    else m[Bytes(OidIn(m, PageAt(o, p))) := Data(content)]
  }

  lemma {:induction false} SameCached(m: Memory, t: Memory, block: nat, n: nat)
    requires forall p: nat :: p < n ==> OidIn(t, PageAt(block, p)) == OidIn(m, PageAt(block, p))
    ensures Cached(t, block, n) == Cached(m, block, n)
    decreases n
  {
    if n > 0 {
      SameCached(m, t, block, n - 1);
    }
  }

  lemma {:induction false} OneMoreCached(m: Memory, t: Memory, block: nat, n: nat, p: nat)
    requires p < n && OidIn(m, PageAt(block, p)) == 0 != OidIn(t, PageAt(block, p))
    requires forall q: nat :: q < n && q != p ==> OidIn(t, PageAt(block, q)) == OidIn(m, PageAt(block, q))
    ensures Cached(t, block, n) == Cached(m, block, n) + 1
    decreases n
  {
    if p == n - 1 {
      SameCached(m, t, block, n - 1);
    } else {
      OneMoreCached(m, t, block, n - 1, p);
    }
  }

  lemma {:induction false} NoneCached(m: Memory, block: nat, n: nat)
    requires forall p: nat :: p < n ==> OidIn(m, PageAt(block, p)) == 0
    ensures Cached(m, block, n) == 0
    decreases n
  {
    if n > 0 {
      NoneCached(m, block, n - 1);
    }
  }

  /** A block whose pages and count have not changed is still a block. */
  lemma SameBlock(m: Memory, t: Memory, block: nat)
    requires IsBlock(m, block) && Count(block) in t && t[Count(block)] == m[Count(block)]
    requires forall p: nat :: p < 1024 ==> PageAt(block, p) in t && t[PageAt(block, p)] == m[PageAt(block, p)]
    ensures IsBlock(t, block)
  {
    SameCached(m, t, block, 1024);
  }

  /** A page that was there: only its bytes change. */
  lemma OverwriteKeeps(m: Memory, b: nat, p: nat, content: Page)
    requires IsIndex(m) && b < BLOCKS && p < 1024 && PageOid(m, b, p) != 0
    ensures var t := m[Bytes(PageOid(m, b, p)) := Data(content)];
            && IsIndex(t)
            && (forall c: nat, q: nat :: c < BLOCKS && q < 1024 ==>
                  Lookup(t, c, q) == if c == b && q == p then Some(content) else Lookup(m, c, q))
  {
    var t := m[Bytes(PageOid(m, b, p)) := Data(content)];
    assert forall c: nat :: OidIn(t, BlockAt(c)) == OidIn(m, BlockAt(c));
    assert forall c: nat, q: nat :: PageOid(t, c, q) == PageOid(m, c, q);
    forall c: nat | c < BLOCKS && OidIn(t, BlockAt(c)) != 0
      ensures IsBlock(t, OidIn(t, BlockAt(c)))
    {
      SameBlock(m, t, OidIn(m, BlockAt(c)));
    }
  }

  /** A block that was there gets a page. */
  lemma PageKeeps(m: Memory, b: nat, p: nat, content: Page, page: nat)
    requires IsIndex(m) && b < BLOCKS && p < 1024 && OidIn(m, BlockAt(b)) != 0 && PageOid(m, b, p) == 0
    requires page != 0 && Bytes(page) !in m
    ensures var t := WithPage(m, OidIn(m, BlockAt(b)), p, content, page);
            && IsIndex(t)
            && (forall c: nat, q: nat :: c < BLOCKS && q < 1024 ==>
                  Lookup(t, c, q) == if c == b && q == p then Some(content) else Lookup(m, c, q))
  {
    var t := WithPage(m, OidIn(m, BlockAt(b)), p, content, page);
    PageOids(m, b, p, content, page);
    forall c: nat | c < BLOCKS && OidIn(t, BlockAt(c)) != 0
      ensures IsBlock(t, OidIn(t, BlockAt(c)))
    {
      PageKeepsBlock(m, b, p, content, page, c);
    }
  }

  lemma PageOids(m: Memory, b: nat, p: nat, content: Page, page: nat)
    requires IsIndex(m) && b < BLOCKS && p < 1024 && OidIn(m, BlockAt(b)) != 0
    ensures var t := WithPage(m, OidIn(m, BlockAt(b)), p, content, page);
            && (forall c: nat :: OidIn(t, BlockAt(c)) == OidIn(m, BlockAt(c)))
            && (forall c: nat, q: nat :: c < BLOCKS && q < 1024 ==>
                  PageOid(t, c, q) == if c == b && q == p then page else PageOid(m, c, q))
  {
  }

  lemma PageKeepsBlock(m: Memory, b: nat, p: nat, content: Page, page: nat, c: nat)
    requires IsIndex(m) && b < BLOCKS && p < 1024 && OidIn(m, BlockAt(b)) != 0 && PageOid(m, b, p) == 0 && page != 0
    requires c < BLOCKS && OidIn(m, BlockAt(c)) != 0
    ensures IsBlock(WithPage(m, OidIn(m, BlockAt(b)), p, content, page), OidIn(m, BlockAt(c)))
  {
    var o := OidIn(m, BlockAt(b));
    var t := WithPage(m, o, p, content, page);
    if c == b {
      OneMoreCached(m, t, o, 1024, p);
    } else {
      SameBlock(m, t, OidIn(m, BlockAt(c)));
    }
  }

  lemma NewBlockOids(m: Memory, b: nat, block: nat)
    requires IsIndex(m) && b < BLOCKS && OidIn(m, BlockAt(b)) == 0 && block != 0 && BlockLocs(block) !! m.Keys
    ensures var t := WithBlock(m, b, block);
            && OidIn(t, BlockAt(b)) == block
            && (forall c: nat :: c < BLOCKS && c != b ==> OidIn(t, BlockAt(c)) == OidIn(m, BlockAt(c)) != block)
            && (forall q: nat :: q < 1024 ==> PageAt(block, q) in t && t[PageAt(block, q)] == Oid(0))
  {
    assert Count(block) in BlockLocs(block);
    assert forall q: nat :: q < 1024 ==> PageAt(block, q) in BlockLocs(block);
  }

  lemma NewBlockKeepsBlock(m: Memory, b: nat, block: nat, c: nat)
    requires IsIndex(m) && b < BLOCKS && OidIn(m, BlockAt(b)) == 0 && block != 0 && BlockLocs(block) !! m.Keys
    requires c < BLOCKS && OidIn(WithBlock(m, b, block), BlockAt(c)) != 0
    ensures IsBlock(WithBlock(m, b, block), OidIn(WithBlock(m, b, block), BlockAt(c)))
  {
    NewBlockOids(m, b, block);
    if c == b {
      NoneCached(WithBlock(m, b, block), block, 1024);
    } else {
      OtherBlockStays(m, WithBlock(m, b, block), block, OidIn(m, BlockAt(c)));
    }
  }

  lemma NewBlockKeepsPage(m: Memory, b: nat, block: nat, c: nat, q: nat)
    requires IsIndex(m) && b < BLOCKS && OidIn(m, BlockAt(b)) == 0 && block != 0 && BlockLocs(block) !! m.Keys
    requires c < BLOCKS && q < 1024
    ensures PageOid(WithBlock(m, b, block), c, q) == PageOid(m, c, q)
  {
    NewBlockOids(m, b, block);
    if c != b && OidIn(m, BlockAt(c)) != 0 {
      OtherBlockStays(m, WithBlock(m, b, block), block, OidIn(m, BlockAt(c)));
    }
  }

  /** A block that was not there gets an object with no pages. */
  lemma BlockKeeps(m: Memory, b: nat, block: nat)
    requires IsIndex(m) && b < BLOCKS && OidIn(m, BlockAt(b)) == 0 && block != 0 && BlockLocs(block) !! m.Keys
    ensures var t := WithBlock(m, b, block);
            && IsIndex(t) && OidIn(t, BlockAt(b)) == block
            && (forall c: nat, q: nat :: c < BLOCKS && q < 1024 ==>
                  PageOid(t, c, q) == PageOid(m, c, q) && Lookup(t, c, q) == Lookup(m, c, q))
  {
    var t := WithBlock(m, b, block);
    NewBlockOids(m, b, block);
    forall c: nat | c < BLOCKS && OidIn(t, BlockAt(c)) != 0
      ensures IsBlock(t, OidIn(t, BlockAt(c)))
    {
      NewBlockKeepsBlock(m, b, block, c);
    }
    forall c: nat, q: nat | c < BLOCKS && q < 1024
      ensures PageOid(t, c, q) == PageOid(m, c, q)
    {
      NewBlockKeepsPage(m, b, block, c, q);
    }
  }

  lemma OtherBlockStays(m: Memory, t: Memory, block: nat, other: nat)
    requires IsBlock(m, other) && other != block
    requires forall l :: l in m && !l.BlockAt? && l !in BlockLocs(block) ==> l in t && t[l] == m[l]
    ensures IsBlock(t, other) && forall q: nat :: q < 1024 ==> t[PageAt(other, q)] == m[PageAt(other, q)]
  {
    SameBlock(m, t, other);
  }

  /** write_req stores the page under its request alone, and every count stays the number of pages there. */
  lemma WriteKeeps(m: Memory, b: nat, p: nat, content: Page, block: nat, page: nat)
    requires IsIndex(m) && b < BLOCKS && p < 1024 && Unused(m, block, page)
    ensures var t := Written(m, b, p, content, block, page);
            && IsIndex(t)
            && (forall c: nat, q: nat :: c < BLOCKS && q < 1024 ==>
                  Lookup(t, c, q) == if c == b && q == p then Some(content) else Lookup(m, c, q))
  {
    if OidIn(m, BlockAt(b)) == 0 {
      BlockKeeps(m, b, block);
      PageKeeps(WithBlock(m, b, block), b, p, content, page);
    } else if PageOid(m, b, p) == 0 {
      PageKeeps(m, b, p, content, page);
    } else {
      OverwriteKeeps(m, b, p, content);
    }
  }

  /** Every page object is some request's, and every block object some block's. */
  ghost predicate AllInUse(m: Memory) {
    && (forall page: nat :: Bytes(page) in m ==> exists b: nat, p: nat :: HasPage(m, b, p, page))
    && (forall block: nat :: Count(block) in m ==> exists b: nat :: HasBlock(m, b, block))
  }

  predicate HasPage(m: Memory, b: nat, p: nat, page: nat) {
    b < BLOCKS && p < 1024 && PageOid(m, b, p) == page != 0
  }

  predicate HasBlock(m: Memory, b: nat, block: nat) {
    b < BLOCKS && OidIn(m, BlockAt(b)) == block != 0
  }

  lemma AddPageLeaksNothing(m: Memory, b: nat, p: nat, content: Page, page: nat)
    requires IsIndex(m) && AllInUse(m) && b < BLOCKS && p < 1024 && OidIn(m, BlockAt(b)) != 0
    requires PageOid(m, b, p) == 0 && page != 0
    ensures AllInUse(WithPage(m, OidIn(m, BlockAt(b)), p, content, page))
  {
    var t := WithPage(m, OidIn(m, BlockAt(b)), p, content, page);
    PageOids(m, b, p, content, page);
    forall q: nat | Bytes(q) in t
      ensures exists c: nat, r: nat :: HasPage(t, c, r, q)
    {
      if q == page {
        assert HasPage(t, b, p, q);
      } else {
        var c: nat, r: nat :| HasPage(m, c, r, q);
        assert HasPage(t, c, r, q);
      }
    }
    forall o: nat | Count(o) in t
      ensures exists c: nat :: HasBlock(t, c, o)
    {
      if o == OidIn(m, BlockAt(b)) {
        assert HasBlock(t, b, o);
      } else {
        var c: nat :| HasBlock(m, c, o);
        assert HasBlock(t, c, o);
      }
    }
  }

  lemma AddBlockLeaksNothing(m: Memory, b: nat, block: nat)
    requires IsIndex(m) && AllInUse(m) && b < BLOCKS && OidIn(m, BlockAt(b)) == 0 && block != 0
    requires BlockLocs(block) !! m.Keys
    ensures AllInUse(WithBlock(m, b, block))
  {
    var t := WithBlock(m, b, block);
    BlockKeeps(m, b, block);
    NewBlockOids(m, b, block);
    forall q: nat | Bytes(q) in t
      ensures exists c: nat, r: nat :: HasPage(t, c, r, q)
    {
      var c: nat, r: nat :| HasPage(m, c, r, q);
      assert HasPage(t, c, r, q);
    }
    forall o: nat | Count(o) in t
      ensures exists c: nat :: HasBlock(t, c, o)
    {
      if o == block {
        assert HasBlock(t, b, o);
      } else {
        var c: nat :| HasBlock(m, c, o);
        assert HasBlock(t, c, o);
      }
    }
  }

  /** A write leaves no object behind: overwriting allocates nothing, and what is allocated is linked. */
  lemma WriteLeaksNothing(m: Memory, b: nat, p: nat, content: Page, block: nat, page: nat)
    requires IsIndex(m) && AllInUse(m) && b < BLOCKS && p < 1024 && Unused(m, block, page)
    ensures AllInUse(Written(m, b, p, content, block, page))
  {
    if OidIn(m, BlockAt(b)) == 0 {
      AddBlockLeaksNothing(m, b, block);
      BlockKeeps(m, b, block);
      AddPageLeaksNothing(WithBlock(m, b, block), b, p, content, page);
    } else if PageOid(m, b, p) == 0 {
      AddPageLeaksNothing(m, b, p, content, page);
    } else {
      OverwriteLeaksNothing(m, b, p, content);
    }
  }

  lemma OverwriteLeaksNothing(m: Memory, b: nat, p: nat, content: Page)
    requires IsIndex(m) && AllInUse(m) && b < BLOCKS && p < 1024 && PageOid(m, b, p) != 0
    ensures AllInUse(m[Bytes(PageOid(m, b, p)) := Data(content)])
  {
    var t := m[Bytes(PageOid(m, b, p)) := Data(content)];
    forall q: nat | Bytes(q) in t
      ensures exists c: nat, r: nat :: HasPage(t, c, r, q)
    {
      var c: nat, r: nat :| HasPage(m, c, r, q);
      assert HasPage(t, c, r, q);
    }
    forall o: nat | Count(o) in t
      ensures exists c: nat :: HasBlock(t, c, o)
    {
      var c: nat :| HasBlock(m, c, o);
      assert HasBlock(t, c, o);
    }
  }

  // write_req as steps of a transaction.

  /** A request and what the allocator finds for it: two objects, holding anything, should it be asked for them. */
  datatype Writing = Writing(b: nat, p: nat, content: Page, block: nat, page: nat, junkBlock: Memory, junkPage: Page)

  predicate CanWrite(m: Memory, w: Writing) {
    w.b < BLOCKS && w.p < 1024 && Unused(m, w.block, w.page) && w.junkBlock.Keys == BlockLocs(w.block)
  }

  /** Allocation of a block object and the memset over it. */
  function NewBlockPlan(block: nat, junk: Memory): seq<Step<Loc, Val>> {
    [Alloc(junk), Store(ZeroBlock(block))]
  }

  /** Allocation of a page object and the memcpy into it. */
  function NewPagePlan(page: nat, junk: Page, content: Page): seq<Step<Loc, Val>> {
    [Alloc(map[Bytes(page) := Data(junk)]), Store(map[Bytes(page) := Data(content)])]
  }

  function LinkPlan(block: nat, p: nat, page: nat, count: nat): seq<Step<Loc, Val>> {
    UpdatePlan(PageAt(block, p), Oid(page)) + UpdatePlan(Count(block), Num(count))
  }

  function AddBlockPlan(w: Writing): seq<Step<Loc, Val>> {
    NewBlockPlan(w.block, w.junkBlock) + NewPagePlan(w.page, w.junkPage, w.content) +
    UpdatePlan(BlockAt(w.b), Oid(w.block)) + LinkPlan(w.block, w.p, w.page, 1)
  }

  function AddPagePlan(block: nat, count: nat, w: Writing): seq<Step<Loc, Val>> {
    NewPagePlan(w.page, w.junkPage, w.content) + LinkPlan(block, w.p, w.page, count)
  }

  function WritePlan(m: Memory, w: Writing): seq<Step<Loc, Val>> {
    var o := OidIn(m, BlockAt(w.b));
    if o == 0 then AddBlockPlan(w)
    else if PageOid(m, w.b, w.p) == 0 then AddPagePlan(o, Cached(m, o, 1024) + 1, w)
    else UpdatePlan(Bytes(PageOid(m, w.b, w.p)), Data(w.content))
  }

  function After(m: Memory, w: Writing): Memory {
    Written(m, w.b, w.p, w.content, w.block, w.page)
  }

  /** A transaction that has neither lost nor freed anything. */
  predicate Steady(t: Tx<Loc, Val>) {
    t.base.Keys <= t.now.Keys && t.freed == {}
  }

  lemma NewBlockRuns(t: Tx<Loc, Val>, block: nat, junk: Memory)
    requires Steady(t) && junk.Keys == BlockLocs(block) && BlockLocs(block) !! t.now.Keys
    ensures var r := GuardedRun(t, NewBlockPlan(block, junk));
            r.Some? && Steady(r.value) && r.value.base == t.base && r.value.now == t.now + ZeroBlock(block)
  {
    var plan := NewBlockPlan(block, junk);
    var t1 := t.(now := t.now + junk);
    assert plan[..0] == [] && plan[..1][..0] == [];
    assert GuardedRun(t, plan[..1]) == Some(t1);
    GuardedNext(t, plan[..1], plan[1]);
    assert plan[..1] + [plan[1]] == plan;
    assert t.now + junk + ZeroBlock(block) == t.now + ZeroBlock(block);
  }

  lemma NewPageRuns(t: Tx<Loc, Val>, page: nat, junk: Page, content: Page)
    requires Steady(t) && Bytes(page) !in t.now
    ensures var r := GuardedRun(t, NewPagePlan(page, junk, content));
            r.Some? && Steady(r.value) && r.value.base == t.base && r.value.now == t.now[Bytes(page) := Data(content)]
  {
    var plan := NewPagePlan(page, junk, content);
    var t1 := t.(now := t.now + map[Bytes(page) := Data(junk)]);
    assert plan[..0] == [] && plan[..1][..0] == [];
    assert GuardedRun(t, plan[..1]) == Some(t1);
    StoreRuns(t, plan[..1], t1, Bytes(page), Data(content));
    assert plan[..1] + [plan[1]] == plan;
    assert t1.now[Bytes(page) := Data(content)] == t.now[Bytes(page) := Data(content)];
  }

  lemma LinkRuns(t: Tx<Loc, Val>, block: nat, p: nat, page: nat, count: nat)
    requires Steady(t) && PageAt(block, p) in t.now && Count(block) in t.now
    ensures var r := GuardedRun(t, LinkPlan(block, p, page, count));
            && r.Some? && Steady(r.value) && r.value.base == t.base
            && r.value.now == t.now[PageAt(block, p) := Oid(page)][Count(block) := Num(count)]
  {
    UpdateRuns(t, PageAt(block, p), Oid(page));
    UpdateRuns(Updated(t, PageAt(block, p), Oid(page)), Count(block), Num(count));
    GuardedConcat(t, UpdatePlan(PageAt(block, p), Oid(page)), UpdatePlan(Count(block), Num(count)));
  }

  lemma AddPageRuns(t: Tx<Loc, Val>, block: nat, count: nat, w: Writing)
    requires Steady(t) && PageAt(block, w.p) in t.now && Count(block) in t.now && Bytes(w.page) !in t.now
    ensures var r := GuardedRun(t, AddPagePlan(block, count, w));
            && r.Some? && Steady(r.value) && r.value.base == t.base
            && r.value.now
               == t.now[Bytes(w.page) := Data(w.content)][PageAt(block, w.p) := Oid(w.page)][Count(block) := Num(count)]
  {
    NewPageRuns(t, w.page, w.junkPage, w.content);
    LinkRuns(GuardedRun(t, NewPagePlan(w.page, w.junkPage, w.content)).value, block, w.p, w.page, count);
    GuardedConcat(t, NewPagePlan(w.page, w.junkPage, w.content), LinkPlan(block, w.p, w.page, count));
  }

  lemma AddBlockRuns(t: Tx<Loc, Val>, w: Writing)
    requires Steady(t) && CanWrite(t.now, w) && BlockAt(w.b) in t.now && OidIn(t.now, BlockAt(w.b)) == 0
    ensures var r := GuardedRun(t, AddBlockPlan(w));
            r.Some? && Steady(r.value) && r.value.base == t.base && r.value.now == After(t.now, w)
  {
    var block, page, update := NewBlockPlan(w.block, w.junkBlock), NewPagePlan(w.page, w.junkPage, w.content),
                               UpdatePlan(BlockAt(w.b), Oid(w.block));
    NewBlockRuns(t, w.block, w.junkBlock);
    var t1 := GuardedRun(t, block).value;
    NewPageRuns(t1, w.page, w.junkPage, w.content);
    GuardedConcat(t, block, page);
    var t2 := GuardedRun(t1, page).value;
    UpdateRuns(t2, BlockAt(w.b), Oid(w.block));
    GuardedConcat(t, block + page, update);
    var t3 := Updated(t2, BlockAt(w.b), Oid(w.block));
    assert PageAt(w.block, w.p) in BlockLocs(w.block) && Count(w.block) in BlockLocs(w.block);
    LinkRuns(t3, w.block, w.p, w.page, 1);
    GuardedConcat(t, block + page + update, LinkPlan(w.block, w.p, w.page, 1));
    AddBlockIs(t.now, w.b, w.p, w.content, w.block, w.page);
  }

  /** The steps of write_req are guarded, and lead to exactly its memory. */
  lemma WriteRuns(m: Memory, w: Writing)
    requires IsIndex(m) && CanWrite(m, w)
    ensures var r := GuardedRun(Begin(m), WritePlan(m, w));
            r.Some? && r.value.freed == {} && r.value.now == After(m, w)
  {
    var o := OidIn(m, BlockAt(w.b));
    if o == 0 {
      AddBlockRuns(Begin(m), w);
    } else if PageOid(m, w.b, w.p) == 0 {
      AddPageRuns(Begin(m), o, Cached(m, o, 1024) + 1, w);
    } else {
      UpdateRuns(Begin(m), Bytes(PageOid(m, w.b, w.p)), Data(w.content));
    }
  }

  lemma FromBegin(m: Memory, w: Writing)
    requires IsIndex(m) && CanWrite(m, w)
    ensures CrashSafe(m, WritePlan(m, w))
    ensures Run(Begin(m), WritePlan(m, w)).Some? && Committed(Run(Begin(m), WritePlan(m, w)).value) == After(m, w)
  {
    WriteRuns(m, w);
    GuardedIsProtected(m, WritePlan(m, w));
    GuardedIsCrashSafe(m, WritePlan(m, w));
  }

  // Runs with crashes.

  /** The root object as the pool creates it. */
  function ZeroRoot(): Memory {
    map b: nat | b < BLOCKS :: BlockAt(b) := Oid(0)
  }

  datatype Act =
    | Whole(w: Writing)
    | Broken(w: Writing, outage: Outage<Loc, Val>) // a crash inside it, and perhaps a second one inside the recovery

  predicate CanHappen(m: Memory, act: Act) {
    && CanWrite(m, act.w)
    && match act
       case Whole(w) => Run(Begin(m), WritePlan(m, w)).Some?
       case Broken(w, outage) => Possible(m, WritePlan(m, w), outage)
  }

  /** Memory after it: what the transaction committed, or what recovery made of the crash. */
  function Left(m: Memory, act: Act): Memory
    requires CanHappen(m, act)
  {
    match act
    case Whole(w) => Committed(Run(Begin(m), WritePlan(m, w)).value)
    case Broken(w, outage) => Restarted(m, WritePlan(m, w), outage)
  }

  function RunActs(m: Memory, acts: seq<Act>): Option<Memory>
    decreases |acts|
  {
    if acts == [] then Some(m)
    else
      var before, act := RunActs(m, acts[..|acts| - 1]), acts[|acts| - 1];
      if before.Some? && CanHappen(before.value, act) then Some(Left(before.value, act)) else None
  }

  /** What was last written to a page as a whole, if anything. */
  function LastWritten(acts: seq<Act>, b: nat, p: nat): Option<Page>
    decreases |acts|
  {
    if acts == [] then None
    else
      var act := acts[|acts| - 1];
      if act.Whole? && act.w.b == b && act.w.p == p then Some(act.w.content) else LastWritten(acts[..|acts| - 1], b, p)
  }

  /** Wherever a write breaks off, and wherever its recovery does, memory is what it was before it. */
  lemma BrokenIsNothing(m: Memory, w: Writing, outage: Outage<Loc, Val>)
    requires IsIndex(m) && CanHappen(m, Broken(w, outage))
    ensures Left(m, Broken(w, outage)) == m
  {
    FromBegin(m, w);
    OutageChangesNothing(m, WritePlan(m, w), outage);
  }

  lemma NothingBlocks(m: Memory, w: Writing)
    requires IsIndex(m) && CanWrite(m, w)
    ensures CanHappen(m, Whole(w)) && Left(m, Whole(w)) == After(m, w)
  {
    FromBegin(m, w);
  }

  lemma RootIsIndex()
    ensures IsIndex(ZeroRoot())
    ensures forall b: nat, p: nat :: b < BLOCKS && p < 1024 ==> Lookup(ZeroRoot(), b, p) == None
  {
    var m := ZeroRoot();
    assert forall b: nat :: b < BLOCKS ==> OidIn(m, BlockAt(b)) == 0;
  }

  /**
   * Any run of writes, with crashes at any step of any transaction, whatever memory then holds, and crashes during
   * recovery, leaves an index in which every page reads as it was last written.
   */
  lemma {:induction false} RunsReadLastWritten(acts: seq<Act>, m: Memory)
    requires RunActs(ZeroRoot(), acts) == Some(m)
    ensures IsIndex(m)
    ensures forall b: nat, p: nat :: b < BLOCKS && p < 1024 ==> Lookup(m, b, p) == LastWritten(acts, b, p)
    decreases |acts|
  {
    if acts == [] {
      RootIsIndex();
    } else {
      var before, act := RunActs(ZeroRoot(), acts[..|acts| - 1]).value, acts[|acts| - 1];
      RunsReadLastWritten(acts[..|acts| - 1], before);
      match act
      case Whole(w) =>
        NothingBlocks(before, w);
        WriteKeeps(before, w.b, w.p, w.content, w.block, w.page);
      case Broken(w, outage) =>
        BrokenIsNothing(before, w, outage);
    }
  }

  /** Nor does any such run, wherever its transactions break off. */
  lemma {:induction false} RunsLeakNothing(acts: seq<Act>, m: Memory)
    requires RunActs(ZeroRoot(), acts) == Some(m)
    ensures AllInUse(m)
    decreases |acts|
  {
    if acts != [] {
      var before, act := RunActs(ZeroRoot(), acts[..|acts| - 1]).value, acts[|acts| - 1];
      RunsReadLastWritten(acts[..|acts| - 1], before);
      RunsLeakNothing(acts[..|acts| - 1], before);
      match act
      case Whole(w) =>
        NothingBlocks(before, w);
        WriteLeaksNothing(before, w.b, w.p, w.content, w.block, w.page);
      case Broken(w, outage) =>
        BrokenIsNothing(before, w, outage);
    }
  }

  class Index {
    const pool: Pool<Loc, Val>

    ghost predicate Valid()
      reads this, pool
    {
      pool.Valid() && pool.depth == 0 && IsIndex(pool.mem)
    }

    constructor (pool: Pool<Loc, Val>)
      requires pool.Valid() && pool.depth == 0 && IsIndex(pool.mem)
      ensures Valid() && this.pool == pool
    {
      this.pool := pool;
    }

    lemma BaseStays()
      requires pool.Open()
      ensures pool.tx.base.Keys <= pool.mem.Keys
    {
      GuardedIsProtected(pool.tx.base, pool.trail);
    }

    method NewBlock(block: nat, junk: Memory)
      requires pool.Open() && junk.Keys == BlockLocs(block) && BlockLocs(block) !! pool.mem.Keys
      modifies pool
      ensures pool.Open() && pool.depth == old(pool.depth) && pool.mem == old(pool.mem) + ZeroBlock(block)
      ensures pool.tx.base == old(pool.tx.base) && pool.trail == old(pool.trail) + NewBlockPlan(block, junk)
    {
      BaseStays();
      pool.TxAlloc(junk);
      pool.StoreTo(ZeroBlock(block));
    }

    method NewPage(page: nat, junk: Page, content: Page)
      requires pool.Open() && Bytes(page) !in pool.mem
      modifies pool
      ensures pool.Open() && pool.depth == old(pool.depth) && pool.mem == old(pool.mem)[Bytes(page) := Data(content)]
      ensures pool.tx.base == old(pool.tx.base) && pool.trail == old(pool.trail) + NewPagePlan(page, junk, content)
    {
      BaseStays();
      pool.TxAlloc(map[Bytes(page) := Data(junk)]);
      pool.Set(Bytes(page), Data(content));
    }

    /** write_req. */
    method WriteReq(req: nat, content: Page, block: nat, page: nat, junkBlock: Memory, junkPage: Page)
      requires Valid() && req / 1024 < BLOCKS && Unused(pool.mem, block, page) && junkBlock.Keys == BlockLocs(block)
      modifies pool
      ensures Valid() && pool.mem == Written(old(pool.mem), req / 1024, req % 1024, content, block, page)
      ensures var w := Writing(req / 1024, req % 1024, content, block, page, junkBlock, junkPage);
              pool.trail == WritePlan(old(pool.mem), w) && CrashSafe(old(pool.mem), pool.trail)
      ensures forall c: nat, q: nat :: c < BLOCKS && q < 1024 ==>
                Lookup(pool.mem, c, q) == if 1024 * c + q == req then Some(content) else Lookup(old(pool.mem), c, q)
    {
      ghost var w, m := Writing(req / 1024, req % 1024, content, block, page, junkBlock, junkPage), pool.mem;
      WriteKeeps(m, w.b, w.p, content, block, page);
      WriteRuns(m, w);
      pool.TxBegin();
      WriteSteps(req / 1024, req % 1024, content, block, page, junkBlock, junkPage, w);
      assert Committed(pool.tx) == pool.tx.now;
      pool.TxEnd();
    }

    /** Its steps, inside the transaction. */
    method WriteSteps(b: nat, p: nat, content: Page, block: nat, page: nat, junkBlock: Memory, junkPage: Page,
      ghost w: Writing)
      requires pool.Open() && pool.tx == Begin(pool.mem) && pool.trail == []
      requires w == Writing(b, p, content, block, page, junkBlock, junkPage)
      requires IsIndex(pool.mem) && CanWrite(pool.mem, w)
      modifies pool
      ensures pool.Open() && pool.depth == old(pool.depth) && pool.tx.base == old(pool.tx.base)
      ensures pool.trail == WritePlan(old(pool.mem), w)
    {
      var blockOid := pool.mem[BlockAt(b)].oid;
      if blockOid == 0 {
        AddBlock(b, p, content, block, page, junkBlock, junkPage, w);
      } else {
        var pageOid := pool.mem[PageAt(blockOid, p)].oid;
        assert PageOid(pool.mem, b, p) == pageOid;
        if pageOid == 0 {
          NewPage(page, junkPage, content);
          Link(blockOid, p, page);
        } else {
          pool.Update(Bytes(pageOid), Data(content));
        }
      }
    }

    /** The new page goes into its block, and the count goes up by one. */
    method Link(block: nat, p: nat, page: nat)
      requires pool.Open() && PageAt(block, p) in pool.mem && Count(block) in pool.mem && pool.mem[Count(block)].Num?
      modifies pool
      ensures pool.Open() && pool.depth == old(pool.depth) && pool.tx.base == old(pool.tx.base)
      ensures pool.trail == old(pool.trail) + LinkPlan(block, p, page, old(pool.mem[Count(block)].n) + 1)
    {
      pool.Update(PageAt(block, p), Oid(page));
      pool.Update(Count(block), Num(pool.mem[Count(block)].n + 1));
    }

    method NewObjects(block: nat, page: nat, junkBlock: Memory, junkPage: Page, content: Page, ghost p: nat)
      requires pool.Open() && junkBlock.Keys == BlockLocs(block) && BlockLocs(block) !! pool.mem.Keys
      requires Bytes(page) !in pool.mem && p < 1024
      modifies pool
      ensures pool.Open() && pool.depth == old(pool.depth) && pool.tx.base == old(pool.tx.base)
      ensures old(pool.mem.Keys) <= pool.mem.Keys && PageAt(block, p) in pool.mem
      ensures Count(block) in pool.mem && pool.mem[Count(block)] == Num(0)
      ensures pool.trail == old(pool.trail) + (NewBlockPlan(block, junkBlock) + NewPagePlan(page, junkPage, content))
    {
      NewBlock(block, junkBlock);
      NewPage(page, junkPage, content);
      assert PageAt(block, p) in BlockLocs(block) && Count(block) in BlockLocs(block);
    }

    /** The branch for a block that is not there. */
    method AddBlock(b: nat, p: nat, content: Page, block: nat, page: nat, junkBlock: Memory, junkPage: Page,
      ghost w: Writing)
      requires pool.Open() && pool.trail == [] && w == Writing(b, p, content, block, page, junkBlock, junkPage)
      requires CanWrite(pool.mem, w) && BlockAt(b) in pool.mem
      modifies pool
      ensures pool.Open() && pool.depth == old(pool.depth) && pool.tx.base == old(pool.tx.base)
      ensures pool.trail == AddBlockPlan(w)
    {
      NewObjects(block, page, junkBlock, junkPage, content, p);
      assert pool.trail == NewBlockPlan(block, junkBlock) + NewPagePlan(page, junkPage, content);
      pool.Update(BlockAt(b), Oid(block));
      Link(block, p, page);
    }

    /** read_req. */
    method ReadReq(req: nat) returns (page: Option<Page>)
      requires Valid() && req / 1024 < BLOCKS
      ensures page == Lookup(pool.mem, req / 1024, req % 1024)
    {
      var blockOid := pool.mem[BlockAt(req / 1024)].oid;
      if blockOid == 0 {
        return None;
      }
      var pageOid := pool.mem[PageAt(blockOid, req % 1024)].oid;
      if pageOid == 0 {
        return None;
      }
      return Some(pool.mem[Bytes(pageOid)].bytes);
    }
  }

  lemma AddBlockIs(m: Memory, b: nat, p: nat, content: Page, block: nat, page: nat)
    requires OidIn(m, BlockAt(b)) == 0
    ensures var filled := (m + ZeroBlock(block))[Bytes(page) := Data(content)][BlockAt(b) := Oid(block)];
            filled[PageAt(block, p) := Oid(page)][Count(block) := Num(1)] == Written(m, b, p, content, block, page)
  {
    assert forall q: nat :: q < 1024 ==> PageAt(block, q) in BlockLocs(block);
    NoneCached(WithBlock(m, b, block), block, 1024);
    assert (m + ZeroBlock(block))[Bytes(page) := Data(content)][BlockAt(b) := Oid(block)]
        == WithBlock(m, b, block)[Bytes(page) := Data(content)];
  }
}
