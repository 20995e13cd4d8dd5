/**
 * cbs_init, write_req, read_req and delete_page of cbs_req/cbs_req_pmem.cpp, on the index and file they update in
 * place.
 */
module PageCacheFiles {
  import opened PageCaches
  import opened PageCrashes
  import opened Wrappers

  const DISK_BLOCK_NUM: nat := 1048576

  /** The formatting of a new file: all metadata zero. */
  method ZeroMetas(metas: array<PageMeta>)
    modifies metas
    ensures metas[..] == seq(metas.Length, _ => ZERO)
  {
    var k := 0;
    while k < metas.Length
      invariant k <= metas.Length
      invariant forall i: nat :: i < k ==> metas[i] == ZERO
    {
      metas[k] := ZERO;
      k := k + 1;
    }
  }

  /** The last stores of a write leave exactly the state it is specified to leave. */
  lemma WriteEndsIn(c: Cache, req: nat, content: Page, t: Cache)
    requires Sound(c) && CanWrite(c, req) && t.pm.pages == c.pm.pages[NextFree(c) := content]
    requires if LiveOf(c, req) == 0
             then && t.pm.metas == c.pm.metas[NextFree(c) := PageMeta(true, 0, req)]
                  && t.disk == c.disk[req := BlockPage(NextFree(c) + 1, 0)] && t.free == c.free[..|c.free| - 1]
             else && t.pm.metas == c.pm.metas[NextFree(c) := PageMeta(true, 1, req)][LiveOf(c, req) - 1 := ZERO]
                  && t.disk == c.disk[req := BlockPage(0, NextFree(c) + 1)]
                    && t.free == c.free[|c.free| - 1 := LiveOf(c, req) - 1]
    ensures t == AfterWrite(c, req, content) && Sound(t)
  {
    WriteIs(c, req, content);
    WriteKeeps(c, req, content);
  }

  lemma LastStoreWins(metas: seq<PageMeta>, former: nat, reset: PageMeta, i: nat, meta: PageMeta)
    requires former < |metas| && i < |metas| && former != i
    ensures metas[former := reset][i := meta][former := ZERO] == metas[i := meta][former := ZERO]
  {
  }

  lemma MoveTrail(c: Cache, req: nat, content: Page, trail: seq<Persist>)
    requires Sound(c) && CanWrite(c, req) && LiveOf(c, req) != 0
    ensures var i, former := NextFree(c), LiveOf(c, req) - 1;
            trail + ResetPlan(former, c.pm.metas[former]) + [Content(i, content)] + [Meta(i, PageMeta(true, 1, req))]
              + [Meta(former, ZERO)]
            == trail + WritePlan(c, req, content)
  {
  }

  class PageCache {
    const metas: array<PageMeta>   // in the file
    const pages: array<Page>       // in the file
    var magic: nat                 // in the file
    const disk: array<BlockPage>   // one entry per request
    const freeList: array<nat>     // of pages; the last of the freeNum entries goes next
    var freeNum: nat
    ghost var trail: seq<Persist>  // every persist so far, in order

    ghost function View(): Cache
      requires freeNum <= freeList.Length
      reads this, metas, pages, disk, freeList
    {
      Cache(Pmem(metas[..], pages[..]), disk[..], freeList[..freeNum])
    }

    ghost predicate Valid()
      reads this, metas, pages, disk, freeList
    {
      && metas.Length == pages.Length == freeList.Length && disk.Length == REQUESTS
      && magic == MAGIC && freeNum <= freeList.Length && Sound(View())
    }

    /** cbs_init on a file of that many pages: the scan, or the first formatting. */
    constructor (metas: array<PageMeta>, pages: array<Page>, magic: nat)
      requires metas.Length == pages.Length
      requires magic == MAGIC ==> MetasSane(metas[..], REQUESTS)
      modifies metas
      ensures Valid() && this.metas == metas && this.pages == pages && fresh(disk) && fresh(freeList)
      ensures View() == StartUp(Medium(magic, Pmem(old(metas[..]), old(pages[..]))), REQUESTS)
      ensures magic == MAGIC ==> metas[..] == old(metas[..]) && ShowsLast(View())
      ensures magic != MAGIC ==> IsBlank(View())
    {
      this.metas, this.pages, this.magic, trail := metas, pages, MAGIC, [];
      disk := new BlockPage[REQUESTS](_ => BlockPage(0, 0));
      freeList := new nat[metas.Length];
      freeNum := 0;
      new;
      if magic != MAGIC {
        ZeroMetas(metas);
      }
      Scan();
      ScanShows(Medium(magic, Pmem(old(metas[..]), old(pages[..]))), View());
    }

    /** The loop over the metadata. */
    method Scan()
      requires disk.Length == REQUESTS && freeList.Length == metas.Length && freeNum == 0
      requires MetasSane(metas[..], REQUESTS)
      requires forall req: nat :: req < disk.Length ==> disk[req] == BlockPage(0, 0)
      modifies disk, freeList, this`freeNum
      ensures freeNum <= metas.Length && freeList[..freeNum] == FreeOf(metas[..], metas.Length)
      ensures forall req: nat :: req < disk.Length ==>
                disk[req] == BlockPage(Owner(metas[..], metas.Length, req), 0)
    {
      ghost var m := metas[..];
      var i := 0;
      while i < metas.Length
        invariant freeNum <= i <= metas.Length && metas[..] == m
        invariant freeList[..freeNum] == FreeOf(m, i)
        invariant forall req: nat :: req < disk.Length ==> disk[req] == BlockPage(Owner(m, i, req), 0)
      {
        if !metas[i].valid {
          freeList[freeNum] := i;
          freeNum := freeNum + 1;
        } else {
          var req := metas[i].req;
          disk[req] := BlockPage(i + 1, disk[req].id2);
        }
        i := i + 1;
      }
    }

    /** What the loop over the metadata leaves is what start-up is specified to leave, and what that shows. */
    static lemma ScanShows(m: Medium, c: Cache)
      requires |m.pm.pages| == |m.pm.metas| && (m.magic == MAGIC ==> MetasSane(m.pm.metas, REQUESTS))
      requires c.pm == if m.magic == MAGIC then m.pm else Zeroed(m.pm)
      requires |c.disk| == REQUESTS && c.free == FreeOf(c.pm.metas, |c.pm.metas|)
      requires forall r: nat :: r < REQUESTS ==> c.disk[r] == BlockPage(Owner(c.pm.metas, |c.pm.metas|, r), 0)
      ensures Sound(c) && c == StartUp(m, REQUESTS)
      ensures if m.magic == MAGIC then ShowsLast(c) else IsBlank(c)
    {
      assert c.disk == Recovered(c.pm, REQUESTS).disk;
      if m.magic == MAGIC {
        StartUpShows(m, REQUESTS);
      } else {
        ZeroedIsEmpty(m.pm, REQUESTS);
      }
    }

    method PersistMeta(i: nat, meta: PageMeta)
      requires i < metas.Length
      modifies metas, this`trail
      ensures metas[..] == old(metas[..])[i := meta] && trail == old(trail) + [Meta(i, meta)]
    {
      metas[i] := meta;
      trail := trail + [Meta(i, meta)];
    }

    method PersistPage(i: nat, content: Page)
      requires i < pages.Length
      modifies pages, this`trail
      ensures pages[..] == old(pages[..])[i := content] && trail == old(trail) + [Content(i, content)]
    {
      pages[i] := content;
      trail := trail + [Content(i, content)];
    }

    /**
     * The source stores past its index when block_id is exactly DISK_BLOCK_NUM, and before its free list when that is
     * empty.
     */
    method WriteReq(req: nat, content: Page) returns (code: int)
      requires Valid() && req / 1024 != DISK_BLOCK_NUM && (req < REQUESTS ==> freeNum > 0)
      modifies this, metas, pages, disk, freeList
      ensures Valid() && code == (if req < REQUESTS then 0 else -1)
      ensures if req < REQUESTS
              then View() == AfterWrite(old(View()), req, content)
                && trail == old(trail) + WritePlan(old(View()), req, content)
              else View() == old(View()) && trail == old(trail)
    {
      if req / 1024 > DISK_BLOCK_NUM {
        return -1;
      }
      var id1, id2 := disk[req].id1, disk[req].id2;
      if id1 == 0 && id2 == 0 {
        AddPage(req, content);
      } else if (id1 != 0 && id2 == 0) || (id1 == 0 && id2 != 0) {
        MovePage(req, content);
      } else {
        assert false;
      }
      return 0;
    }

    method ResetSn(i: nat)
      requires i < metas.Length
      modifies metas, this`trail
      ensures metas[..] == old(metas[..])[i := old(metas[i]).(sn := 0)]
      ensures trail == old(trail) + ResetPlan(i, old(metas[i]))
    {
      if metas[i].sn != 0 {
        PersistMeta(i, metas[i].(sn := 0));
      }
    }

    /** The branch of write_req for a request that has no page. */
    method AddPage(req: nat, content: Page)
      requires Valid() && req < REQUESTS && freeNum > 0 && LiveOf(View(), req) == 0
      modifies this, metas, pages, disk
      ensures Valid() && View() == AfterWrite(old(View()), req, content)
      ensures trail == old(trail) + WritePlan(old(View()), req, content)
    {
      ghost var c := View();
      WordStandsFor(req, 0);
      var i := freeList[freeNum - 1];
      PersistPage(i, content);
      PersistMeta(i, FromWord(Word(req, 0)));
      freeNum := freeNum - 1;
      disk[req] := BlockPage(i + 1, disk[req].id2);
      assert freeList[..freeNum] == c.free[..|c.free| - 1];
      assert metas[..] == c.pm.metas[i := PageMeta(true, 0, req)];
      assert disk[..] == c.disk[req := BlockPage(i + 1, 0)];
      WriteEndsIn(c, req, content, View());
    }

    method PersistNew(former: nat, i: nat, req: nat, content: Page)
      requires former < metas.Length && i < metas.Length && i < pages.Length
      modifies metas, pages, this`trail
      ensures metas[..] == old(metas[..])[former := old(metas[former]).(sn := 0)][i := PageMeta(true, 1, req)]
      ensures pages[..] == old(pages[..])[i := content]
      ensures trail == old(trail) + ResetPlan(former, old(metas[former])) + [Content(i, content)]
              + [Meta(i, PageMeta(true, 1, req))]
    {
      WordStandsFor(req, 1);
      ResetSn(former);
      PersistPage(i, content);
      PersistMeta(i, FromWord(Word(req, 1)));
    }

    /** The branch for a request that has one. */
    method MovePage(req: nat, content: Page)
      requires Valid() && req < REQUESTS && freeNum > 0 && LiveOf(View(), req) != 0
      modifies this, metas, pages, disk, freeList
      ensures Valid() && View() == AfterWrite(old(View()), req, content)
      ensures trail == old(trail) + WritePlan(old(View()), req, content)
    {
      ghost var c := View();
      WordStandsFor(req, 1);
      var former := if disk[req].id1 != 0 then disk[req].id1 - 1 else disk[req].id2 - 1;
      var i := freeList[freeNum - 1];
      PersistNew(former, i, req, content);
      disk[req] := BlockPage(disk[req].id1, i + 1);
      PersistMeta(former, FromWord(0));
      freeList[freeNum - 1] := former;
      disk[req] := BlockPage(0, disk[req].id2);
      LastStoreWins(c.pm.metas, former, c.pm.metas[former].(sn := 0), i, PageMeta(true, 1, req));
      assert disk[..] == c.disk[req := BlockPage(0, i + 1)];
      assert freeList[..freeNum] == c.free[|c.free| - 1 := former];
      WriteEndsIn(c, req, content, View());
      MoveTrail(c, req, content, old(trail));
    }

    /** The page a request sees, or none. */
    method ReadReq(req: nat) returns (page: Option<nat>)
      requires Valid() && req / 1024 != DISK_BLOCK_NUM
      ensures page.Some? <==> req in Contents(View())
      ensures page.Some? ==> page.value < pages.Length && pages[page.value] == Contents(View())[req]
    {
      if req / 1024 > DISK_BLOCK_NUM {
        return None;
      }
      var id1, id2 := disk[req].id1, disk[req].id2;
      if (id1 != 0 && id2 == 0) || (id1 == 0 && id2 != 0) {
        return Some(if id1 != 0 then id1 - 1 else id2 - 1);
      } else if id1 != 0 && id2 != 0 {
        assert false;
      }
      return None;
    }

    method DeletePage(req: nat)
      requires Valid() && req / 1024 != DISK_BLOCK_NUM
      modifies this, metas, disk, freeList
      ensures Valid()
      ensures View() == AfterDelete(old(View()), req) && trail == old(trail) + DeletePlan(old(View()), req)
    {
      if req / 1024 > DISK_BLOCK_NUM {
        return;
      }
      var id1, id2 := disk[req].id1, disk[req].id2;
      if (id1 != 0 && id2 == 0) || (id1 == 0 && id2 != 0) {
        DropPage(req);
      } else if id1 != 0 && id2 != 0 {
        assert false;
      }
    }

    /** The branch of delete_page for a request that has one page. */
    method DropPage(req: nat)
      requires Valid() && req < REQUESTS && LiveOf(View(), req) != 0
      modifies this, metas, disk, freeList
      ensures Valid() && View() == AfterDelete(old(View()), req)
      ensures trail == old(trail) + DeletePlan(old(View()), req)
    {
      ghost var c := View();
      DeleteKeeps(c, req);
      DeletePersists(c, req);
      RoomInFreeList(req);
      var page := if disk[req].id1 != 0 then disk[req].id1 - 1 else disk[req].id2 - 1;
      disk[req] := if disk[req].id1 != 0 then BlockPage(0, disk[req].id2) else BlockPage(disk[req].id1, 0);
      PersistMeta(page, FromWord(0));
      freeNum := freeNum + 1;
      freeList[freeNum - 1] := page;
      assert freeList[..freeNum] == c.free + [page];
      assert View() == AfterDelete(c, req);
    }

    /** A page in use leaves room in the free list. */
    lemma RoomInFreeList(req: nat)
      requires Valid() && LiveOf(View(), req) != 0
      ensures freeNum < freeList.Length
    {
      assert req in Contents(View());
      Conservation(View());
    }
  }
}
