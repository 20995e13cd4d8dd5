/**
 * The crash-consistent page cache of cbs_req/cbs_req_pmem.cpp: what is persistent, what the scan at start-up makes
 * of it, and what every operation and every crash does to the pages requests see.
 */
module PageCaches {
  type byte = bv8
  type Page = seq<byte>

  const REQUESTS: nat := 1073741824 // DISK_BLOCK_NUM blocks of BLOCK_PAGE_NUM pages
  const MAGIC: nat := 0xabcd_abcd

  /** page_meta_t, without its padding. */
  datatype PageMeta = PageMeta(valid: bool, sn: nat, req: nat)

  const ZERO: PageMeta := PageMeta(false, 0, 0)

  /** The metadata an 8-byte word stands for: valid in bit 0, sn in bits 1 to 31, the request in bits 32 to 63. */
  function FromWord(w: nat): PageMeta {
    PageMeta(w % 2 == 1, w / 2 % 0x8000_0000, w / 0x1_0000_0000)
  }

  /** req_id<<32 | sn<<1 | 1. */
  function Word(req: nat, sn: nat): nat {
    req * 0x1_0000_0000 + sn * 2 + 1
  }

  lemma WordStandsFor(req: nat, sn: nat)
    requires sn < 0x8000_0000
    ensures FromWord(Word(req, sn)) == PageMeta(true, sn, req) && FromWord(0) == ZERO
    ensures Word(req, sn) % 2 == 1 && Word(req, sn) / 2 % 0x8000_0000 == sn && Word(req, sn) / 0x1_0000_0000 == req
  {
  }

  // Persistent memory, and what a crash can leave of it.

  datatype Pmem = Pmem(metas: seq<PageMeta>, pages: seq<Page>)

  /** One persist: the metadata of a page, atomically, or a page. */
  datatype Persist = Meta(i: nat, meta: PageMeta) | Content(i: nat, page: Page)

  function Persisted(pm: Pmem, p: Persist): Pmem {
    match p
    case Meta(i, meta) => if i < |pm.metas| then pm.(metas := pm.metas[i := meta]) else pm
    case Content(i, page) => if i < |pm.pages| then pm.(pages := pm.pages[i := page]) else pm
  }

  function PersistAll(pm: Pmem, plan: seq<Persist>): Pmem
    decreases |plan|
  {
    if plan == [] then pm else Persisted(PersistAll(pm, plan[..|plan| - 1]), plan[|plan| - 1])
  }

  /** Persistent memory after a crash in the k-th persist of a plan; a page under way may hold anything. */
  function CrashImage(pm: Pmem, plan: seq<Persist>, k: nat, torn: Page): Pmem
    requires k <= |plan|
  {
    var done := PersistAll(pm, plan[..k]);
    if k < |plan| && plan[k].Content? then Persisted(done, Content(plan[k].i, torn)) else done
  }

  // The volatile index and free list.

  /** Page ids, 0 for none. */
  datatype BlockPage = BlockPage(id1: nat, id2: nat)

  datatype Cache = Cache(pm: Pmem, disk: seq<BlockPage>, free: seq<nat>)

  function Live(bp: BlockPage): nat {
    if bp.id1 != 0 then bp.id1 else bp.id2
  }

  /** The live page of a request, by id. */
  function LiveOf(c: Cache, req: nat): nat {
    if req < |c.disk| then Live(c.disk[req]) else 0
  }

  /** Pages in use that no request leads to. */
  function Leaked(c: Cache): set<nat> {
    set i: nat | i < |c.pm.metas| && c.pm.metas[i].valid && LiveOf(c, c.pm.metas[i].req) != i + 1
  }

  predicate MetasSane(metas: seq<PageMeta>, size: nat) {
    forall i: nat :: i < |metas| ==> if metas[i].valid then metas[i].req < size else metas[i] == ZERO
  }

  predicate FreeIsZero(c: Cache) {
    && (forall k: nat :: k < |c.free| ==> c.free[k] < |c.pm.metas| && c.pm.metas[c.free[k]] == ZERO)
    && (forall k: nat, l: nat :: k < l < |c.free| ==> c.free[k] != c.free[l])
    && (forall i: nat {:trigger i in c.free} :: i < |c.pm.metas| && c.pm.metas[i] == ZERO ==> i in c.free)
  }

  /** An index entry leads to at most one page, in use for its request. */
  predicate EntryIsLive(metas: seq<PageMeta>, bp: BlockPage, req: nat) {
    && (bp.id1 == 0 || bp.id2 == 0)
    && (Live(bp) != 0 ==> Live(bp) <= |metas| && metas[Live(bp) - 1].valid && metas[Live(bp) - 1].req == req)
  }

  predicate IndexIsLive(c: Cache) {
    forall req: nat :: req < |c.disk| ==> EntryIsLive(c.pm.metas, c.disk[req], req)
  }

  /** What every operation and every recovery keeps. */
  predicate Sound(c: Cache) {
    |c.pm.pages| == |c.pm.metas| && MetasSane(c.pm.metas, |c.disk|) && FreeIsZero(c) && IndexIsLive(c)
  }

  /** What requests see. */
  function Contents(c: Cache): map<nat, Page>
    requires Sound(c)
  {
    map req: nat | req < |c.disk| && Live(c.disk[req]) != 0 :: c.pm.pages[Live(c.disk[req]) - 1]
  }

  // Operations.

  predicate CanWrite(c: Cache, req: nat) {
    req < |c.disk| && c.free != []
  }

  function NextFree(c: Cache): nat
    requires c.free != []
  {
    c.free[|c.free| - 1]
  }

  /** The old page's sn goes to 0 before the new page is in use. */
  function ResetPlan(i: nat, meta: PageMeta): seq<Persist> {
    if meta.sn != 0 then [Meta(i, meta.(sn := 0))] else []
  }

  function WritePlan(c: Cache, req: nat, content: Page): seq<Persist>
    requires Sound(c) && CanWrite(c, req)
  {
    var i := NextFree(c);
    if LiveOf(c, req) == 0 then [Content(i, content), Meta(i, PageMeta(true, 0, req))]
    else
      var former := LiveOf(c, req) - 1;
      ResetPlan(former, c.pm.metas[former]) + [Content(i, content), Meta(i, PageMeta(true, 1, req)), Meta(former, ZERO)]
  }

  function AfterWrite(c: Cache, req: nat, content: Page): Cache
    requires Sound(c) && CanWrite(c, req)
  {
    var pm := PersistAll(c.pm, WritePlan(c, req, content));
    var i, last := NextFree(c), |c.free| - 1;
    if LiveOf(c, req) == 0 then Cache(pm, c.disk[req := BlockPage(i + 1, 0)], c.free[..last])
    else Cache(pm, c.disk[req := BlockPage(0, i + 1)], c.free[last := LiveOf(c, req) - 1])
  }

  function DeletePlan(c: Cache, req: nat): seq<Persist>
  {
    if LiveOf(c, req) == 0 then [] else [Meta(LiveOf(c, req) - 1, ZERO)]
  }

  function AfterDelete(c: Cache, req: nat): Cache
  {
    if LiveOf(c, req) == 0 then c
    else Cache(PersistAll(c.pm, DeletePlan(c, req)), c.disk[req := BlockPage(0, 0)], c.free + [LiveOf(c, req) - 1])
  }

  // The scan at start-up.

  /** The page id the first k metadata entries leave in the index for a request: that of the last one in use for it. */
  function Owner(metas: seq<PageMeta>, k: nat, req: nat): nat
    requires k <= |metas|
  {
    if k == 0 then 0
    else if metas[k - 1].valid && metas[k - 1].req == req then k
    else Owner(metas, k - 1, req)
  }

  function FreeOf(metas: seq<PageMeta>, k: nat): seq<nat>
    requires k <= |metas|
  {
    if k == 0 then []
    else FreeOf(metas, k - 1) + if metas[k - 1].valid then [] else [k - 1]
  }

  function Recovered(pm: Pmem, size: nat): Cache {
    Cache(pm, seq(size, req requires 0 <= req => BlockPage(Owner(pm.metas, |pm.metas|, req), 0)),
      FreeOf(pm.metas, |pm.metas|))
  }

  lemma {:induction false} OwnerIsLast(metas: seq<PageMeta>, k: nat, req: nat)
    requires k <= |metas|
    ensures var id := Owner(metas, k, req);
            && id <= k
            && (id != 0 ==> metas[id - 1].valid && metas[id - 1].req == req)
            && (forall j: nat :: id <= j < k ==> !(metas[j].valid && metas[j].req == req))
  {
    if k > 0 {
      OwnerIsLast(metas, k - 1, req);
    }
  }

  lemma {:induction false} FreeOfIs(metas: seq<PageMeta>, k: nat)
    requires k <= |metas|
    ensures forall a: nat :: a < |FreeOf(metas, k)| ==> FreeOf(metas, k)[a] < k && !metas[FreeOf(metas, k)[a]].valid
    ensures forall a: nat, b: nat :: a < b < |FreeOf(metas, k)| ==> FreeOf(metas, k)[a] != FreeOf(metas, k)[b]
    ensures forall i: nat :: i < k && !metas[i].valid ==> i in FreeOf(metas, k)
  {
    if k > 0 {
      FreeOfIs(metas, k - 1);
    }
  }

  lemma RecoveredIsSound(pm: Pmem, size: nat)
    requires |pm.pages| == |pm.metas| && MetasSane(pm.metas, size)
    ensures Sound(Recovered(pm, size))
  {
    var n := |pm.metas|;
    FreeOfIs(pm.metas, n);
    forall req: nat | req < size
      ensures var id := Owner(pm.metas, n, req);
              id <= n && (id != 0 ==> pm.metas[id - 1].valid && pm.metas[id - 1].req == req)
    {
      OwnerIsLast(pm.metas, n, req);
    }
  }

  // Operations keep the cache sound and change one request.

  lemma PersistNext(pm: Pmem, plan: seq<Persist>, k: nat)
    requires k < |plan|
    ensures PersistAll(pm, plan[..k + 1]) == Persisted(PersistAll(pm, plan[..k]), plan[k])
  {
    assert plan[..k + 1][..k] == plan[..k];
  }

  lemma ResetIsDone(c: Cache, req: nat, content: Page)
    requires Sound(c) && CanWrite(c, req) && LiveOf(c, req) != 0
    ensures var id := LiveOf(c, req); var reset := ResetPlan(id - 1, c.pm.metas[id - 1]);
            && PersistAll(c.pm, WritePlan(c, req, content)[..|reset|])
               == c.pm.(metas := c.pm.metas[id - 1 := c.pm.metas[id - 1].(sn := 0)])
  {
    var plan := WritePlan(c, req, content);
    assert PersistAll(c.pm, plan[..0]) == c.pm;
    PersistNext(c.pm, plan, 0);
  }

  /** Persistent memory after a whole write. */
  lemma WritePersists(c: Cache, req: nat, content: Page)
    requires Sound(c) && CanWrite(c, req)
    ensures var i := NextFree(c); var pm := AfterWrite(c, req, content).pm;
            && i < |c.pm.metas| && i != LiveOf(c, req) - 1
            && pm.pages == c.pm.pages[i := content]
            && pm.metas == if LiveOf(c, req) == 0 then c.pm.metas[i := PageMeta(true, 0, req)]
                           else c.pm.metas[i := PageMeta(true, 1, req)][LiveOf(c, req) - 1 := ZERO]
  {
    var plan := WritePlan(c, req, content);
    var n := |plan|;
    assert plan[..n] == plan;
    if LiveOf(c, req) == 0 {
      assert PersistAll(c.pm, plan[..0]) == c.pm;
      PersistNext(c.pm, plan, 0);
      PersistNext(c.pm, plan, 1);
    } else {
      MovePersists(c, req, content);
    }
  }

  lemma MovePersists(c: Cache, req: nat, content: Page)
    requires Sound(c) && CanWrite(c, req) && LiveOf(c, req) != 0
    ensures var i := NextFree(c); var plan := WritePlan(c, req, content); var pm := PersistAll(c.pm, plan[..|plan|]);
            && i < |c.pm.metas| && i != LiveOf(c, req) - 1 && pm.pages == c.pm.pages[i := content]
            && pm.metas == c.pm.metas[i := PageMeta(true, 1, req)][LiveOf(c, req) - 1 := ZERO]
  {
    var plan := WritePlan(c, req, content);
    var n := |plan|;
    ResetIsDone(c, req, content);
    PersistNext(c.pm, plan, n - 3);
    PersistNext(c.pm, plan, n - 2);
    PersistNext(c.pm, plan, n - 1);
  }

  /** A request with no page takes the last free one. */
  function Taken(c: Cache, req: nat, w: PageMeta, content: Page): Cache
    requires CanWrite(c, req)
  {
    var i, last := NextFree(c), |c.free| - 1;
    if i >= |c.pm.metas| || i >= |c.pm.pages| then c
    else Cache(Pmem(c.pm.metas[i := w], c.pm.pages[i := content]), c.disk[req := BlockPage(i + 1, 0)], c.free[..last])
  }

  /** A request with a page moves to the last free one, and its old page takes that one's place in the free list. */
  function Moved(c: Cache, req: nat, w: PageMeta, content: Page): Cache
    requires CanWrite(c, req)
  {
    var i, last, id := NextFree(c), |c.free| - 1, LiveOf(c, req);
    if i >= |c.pm.metas| || i >= |c.pm.pages| || id == 0 || id > |c.pm.metas| then c
    else Cache(Pmem(c.pm.metas[i := w][id - 1 := ZERO], c.pm.pages[i := content]), c.disk[req := BlockPage(0, i + 1)],
      c.free[last := id - 1])
  }

  lemma WriteIs(c: Cache, req: nat, content: Page)
    requires Sound(c) && CanWrite(c, req)
    ensures AfterWrite(c, req, content)
         == if LiveOf(c, req) == 0 then Taken(c, req, PageMeta(true, 0, req), content)
           else Moved(c, req, PageMeta(true, 1, req), content)
  {
    WritePersists(c, req, content);
  }

  lemma TakenIsSound(c: Cache, req: nat, w: PageMeta, content: Page)
    requires Sound(c) && CanWrite(c, req) && LiveOf(c, req) == 0 && w.valid && w.req == req
    ensures Sound(Taken(c, req, w, content))
  {
    var t := Taken(c, req, w, content);
    forall i: nat | i < |t.pm.metas| && t.pm.metas[i] == ZERO ensures i in t.free { assert i in c.free; }
    assert MetasSane(t.pm.metas, |t.disk|) && FreeIsZero(t);
    assert IndexIsLive(t);
  }

  lemma TakenShows(c: Cache, req: nat, w: PageMeta, content: Page)
    requires Sound(c) && CanWrite(c, req) && LiveOf(c, req) == 0 && w.valid && w.req == req
    requires Sound(Taken(c, req, w, content))
    ensures var t := Taken(c, req, w, content);
            Contents(t) == Contents(c)[req := content] && Leaked(t) == Leaked(c)
  {
  }

  lemma MovedKeepsFree(c: Cache, req: nat, w: PageMeta, content: Page)
    requires Sound(c) && CanWrite(c, req) && LiveOf(c, req) != 0 && w.valid && w.req == req
    ensures FreeIsZero(Moved(c, req, w, content))
  {
    var t := Moved(c, req, w, content);
    var last := |c.free| - 1;
    forall i: nat | i < |t.pm.metas| && t.pm.metas[i] == ZERO
      ensures i in t.free
    {
      if i == LiveOf(c, req) - 1 {
        assert t.free[last] == i;
      } else {
        assert i in c.free;
        var k: nat :| k < |c.free| && c.free[k] == i;
        assert t.free[k] == i;
      }
    }
  }

  lemma MovedIsSound(c: Cache, req: nat, w: PageMeta, content: Page)
    requires Sound(c) && CanWrite(c, req) && LiveOf(c, req) != 0 && w.valid && w.req == req
    ensures Sound(Moved(c, req, w, content))
  {
    var t := Moved(c, req, w, content);
    MovedKeepsFree(c, req, w, content);
    assert MetasSane(t.pm.metas, |t.disk|);
    assert IndexIsLive(t);
  }

  lemma MovedShows(c: Cache, req: nat, w: PageMeta, content: Page)
    requires Sound(c) && CanWrite(c, req) && LiveOf(c, req) != 0 && w.valid && w.req == req
    requires Sound(Moved(c, req, w, content))
    ensures var t := Moved(c, req, w, content);
            Contents(t) == Contents(c)[req := content] && Leaked(t) == Leaked(c)
  {
  }

  lemma WriteKeeps(c: Cache, req: nat, content: Page)
    requires Sound(c) && CanWrite(c, req)
    ensures var t := AfterWrite(c, req, content);
            Sound(t) && Contents(t) == Contents(c)[req := content] && Leaked(t) == Leaked(c)
  {
    WriteIs(c, req, content);
    if LiveOf(c, req) == 0 {
      TakenIsSound(c, req, PageMeta(true, 0, req), content);
      TakenShows(c, req, PageMeta(true, 0, req), content);
    } else {
      MovedIsSound(c, req, PageMeta(true, 1, req), content);
      MovedShows(c, req, PageMeta(true, 1, req), content);
    }
  }

  lemma DeletePersists(c: Cache, req: nat)
    requires Sound(c) && LiveOf(c, req) != 0
    ensures AfterDelete(c, req) == Cache(c.pm.(metas := c.pm.metas[LiveOf(c, req) - 1 := ZERO]),
                                         c.disk[req := BlockPage(0, 0)], c.free + [LiveOf(c, req) - 1])
  {
    assert PersistAll(c.pm, DeletePlan(c, req)[..0]) == c.pm;
  }

  lemma DeleteIsSound(c: Cache, req: nat)
    requires Sound(c)
    ensures Sound(AfterDelete(c, req))
  {
    if LiveOf(c, req) != 0 {
      DeletePersists(c, req);
      var t := AfterDelete(c, req);
      assert MetasSane(t.pm.metas, |t.disk|);
      assert t.free[|c.free|] == LiveOf(c, req) - 1;
      assert forall k: nat :: k < |c.free| ==> t.free[k] == c.free[k];
      assert FreeIsZero(t);
    }
  }

  lemma DeleteShows(c: Cache, req: nat, t: Cache)
    requires Sound(c) && LiveOf(c, req) != 0 && Sound(t) && t.pm.pages == c.pm.pages
    requires t.pm.metas == c.pm.metas[LiveOf(c, req) - 1 := ZERO] && t.disk == c.disk[req := BlockPage(0, 0)]
    ensures Contents(t) == Contents(c) - {req} && Leaked(t) == Leaked(c)
  {
  }

  lemma DeleteKeeps(c: Cache, req: nat)
    requires Sound(c)
    ensures var t := AfterDelete(c, req);
            Sound(t) && Contents(t) == Contents(c) - {req} && Leaked(t) == Leaked(c)
  {
    DeleteIsSound(c, req);
    if LiveOf(c, req) != 0 {
      DeletePersists(c, req);
      DeleteShows(c, req, AfterDelete(c, req));
    }
  }

  // Conservation.

  function Elements(s: seq<int>): (r: set<int>)
    ensures forall x :: x in r <==> x in s
  {
    if s == [] then {} else Elements(s[..|s| - 1]) + {s[|s| - 1]}
  }

  lemma {:induction false} DistinctSize(s: seq<int>)
    requires forall k: nat, l: nat :: k < l < |s| ==> s[k] != s[l]
    ensures |Elements(s)| == |s|
  {
    if s != [] {
      DistinctSize(s[..|s| - 1]);
      assert s[|s| - 1] !in s[..|s| - 1];
    }
  }

  lemma {:induction false} RangeSize(s: set<int>, n: nat)
    requires forall i: int :: (i in s) == (0 <= i < n)
    ensures |s| == n
  {
    if n > 0 {
      RangeSize(s - {n - 1}, n - 1);
    } else {
      forall i: int ensures i !in s {}
    }
  }

  function PagesOf(c: Cache, requests: set<nat>): set<int> {
    set req | req in requests :: LiveOf(c, req) - 1
  }

  lemma LivePagesDiffer(c: Cache, r: nat, s: nat)
    requires Sound(c) && r != s && LiveOf(c, r) != 0
    ensures LiveOf(c, r) != LiveOf(c, s)
  {
    assert EntryIsLive(c.pm.metas, c.disk[r], r);
    assert s < |c.disk| ==> EntryIsLive(c.pm.metas, c.disk[s], s);
  }

  /** No page serves two requests. */
  lemma {:induction false} PagesOfSize(c: Cache, requests: set<nat>)
    requires Sound(c) && forall req <- requests :: LiveOf(c, req) != 0
    ensures |PagesOf(c, requests)| == |requests|
    decreases |requests|
  {
    if requests != {} {
      var req :| req in requests;
      var others := requests - {req};
      PagesOfSize(c, others);
      forall r | r in others ensures LiveOf(c, r) != LiveOf(c, req) { LivePagesDiffer(c, r, req); }
      assert PagesOf(c, requests) == PagesOf(c, others) + {LiveOf(c, req) - 1};
      assert LiveOf(c, req) - 1 !in PagesOf(c, others);
    }
  }

  lemma PagesDiffer(c: Cache)
    requires Sound(c)
    ensures var free, owned, leaked := Elements(c.free), PagesOf(c, Contents(c).Keys), Leaked(c);
            free !! owned && free !! leaked && owned !! leaked
  {
  }

  lemma PagesCovered(c: Cache, i: int)
    requires Sound(c)
    ensures (i in Elements(c.free) + PagesOf(c, Contents(c).Keys) + Leaked(c)) == (0 <= i < |c.pm.metas|)
  {
    if 0 <= i < |c.pm.metas| && i !in c.free && i !in Leaked(c) {
      assert LiveOf(c, c.pm.metas[i].req) == i + 1;
      assert c.pm.metas[i].req in Contents(c).Keys;
    }
  }

  /** Free pages, pages requests see and leaked pages are all the pages, each in one of the three. */
  lemma Conservation(c: Cache)
    requires Sound(c)
    ensures |c.free| + |Contents(c)| + |Leaked(c)| == |c.pm.metas|
  {
    DistinctSize(c.free);
    PagesOfSize(c, Contents(c).Keys);
    PagesDiffer(c);
    var all: set<int> := Elements(c.free) + PagesOf(c, Contents(c).Keys) + Leaked(c);
    forall i: int ensures (i in all) == (0 <= i < |c.pm.metas|) { PagesCovered(c, i); }
    RangeSize(all, |c.pm.metas|);
  }
}
