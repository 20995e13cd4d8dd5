/** What the scan at start-up makes of a page cache that was switched off, at rest or in the middle of an operation. */
module PageCrashes {
  import opened PageCaches
  import opened Wrappers

  /** The whole file: formatted when its magic number says so. */
  datatype Medium = Medium(magic: nat, pm: Pmem)

  function Zeroed(pm: Pmem): Pmem {
    pm.(metas := seq(|pm.metas|, _ => ZERO))
  }

  function StartUp(m: Medium, size: nat): Cache {
    Recovered(if m.magic == MAGIC then m.pm else Zeroed(m.pm), size)
  }

  /** What the next start-up makes of a formatted file. */
  function Restarted(pm: Pmem, size: nat): Cache {
    StartUp(Medium(MAGIC, pm), size)
  }

  /**
   * Requests see the last page in use for them, and nothing if there is none; the free pages are those not in use.
   */
  ghost predicate ShowsLast(c: Cache)
    requires Sound(c)
  {
    && (forall req: nat :: req in Contents(c) <==>
          exists i: nat :: i < |c.pm.metas| && c.pm.metas[i].valid && c.pm.metas[i].req == req)
    && (forall i: nat :: i < |c.pm.metas| && LastFor(c.pm.metas, i) ==>
          c.pm.metas[i].req in Contents(c) && Contents(c)[c.pm.metas[i].req] == c.pm.pages[i])
    && (forall i: int :: i in c.free <==> 0 <= i < |c.pm.metas| && !c.pm.metas[i].valid)
  }

  /**
   * Start-up on a formatted file shows a request if and only if some page is in use for it, and then the last such
   * page; what is in the file stays.
   */
  lemma StartUpShows(m: Medium, size: nat)
    requires m.magic == MAGIC && |m.pm.pages| == |m.pm.metas| && MetasSane(m.pm.metas, size)
    ensures var t := StartUp(m, size);
            && Sound(t) && t.pm == m.pm && |t.disk| == size && ShowsLast(t)
  {
    var metas, t := m.pm.metas, StartUp(m, size);
    RecoveredIsSound(m.pm, size);
    FreeOfIs(metas, |metas|);
    forall req: nat
      ensures req in Contents(t) <==> exists i: nat :: i < |metas| && metas[i].valid && metas[i].req == req
    {
      OwnerIsLast(metas, |metas|, req);
      if req in Contents(t) {
        assert metas[Live(t.disk[req]) - 1].valid;
      }
    }
    forall i: nat | i < |metas| && LastFor(metas, i)
      ensures metas[i].req in Contents(t) && Contents(t)[metas[i].req] == m.pm.pages[i]
    {
      LastIsOwner(metas, |metas|, i);
    }
  }

  /** Page i is in use, and no later page is for the same request. */
  predicate LastFor(metas: seq<PageMeta>, i: nat)
    requires i < |metas|
  {
    metas[i].valid && forall j: nat :: i < j < |metas| && metas[j].valid ==> metas[j].req != metas[i].req
  }

  lemma LastIsOwner(metas: seq<PageMeta>, k: nat, i: nat)
    requires i < k == |metas| && LastFor(metas, i)
    ensures Owner(metas, k, metas[i].req) == i + 1
  {
    OwnerIsLast(metas, k, metas[i].req);
  }

  /** No leaked page comes after the live page of its request. */
  predicate LeakedBelow(c: Cache) {
    forall i <- Leaked(c) :: i + 1 < LiveOf(c, c.pm.metas[i].req)
  }

  lemma UniqueOwner(c: Cache, req: nat)
    requires Sound(c) && req < |c.disk|
    requires forall i <- Leaked(c) :: c.pm.metas[i].req == req ==> i + 1 < LiveOf(c, req)
    ensures LiveOf(Recovered(c.pm, |c.disk|), req) == LiveOf(c, req)
  {
    var n := |c.pm.metas|;
    var id, live := Owner(c.pm.metas, n, req), LiveOf(c, req);
    OwnerIsLast(c.pm.metas, n, req);
    forall i: nat | i < n && c.pm.metas[i].valid && c.pm.metas[i].req == req && i + 1 != live ensures i in Leaked(c) {}
    assert live == 0 || c.pm.metas[live - 1].req == req;
  }

  /** A leaked page that comes after the live one takes its place. */
  lemma LeakedReturns(c: Cache, i: nat)
    requires Sound(c) && i in Leaked(c) && i + 1 >= LiveOf(c, c.pm.metas[i].req)
    ensures LiveOf(Recovered(c.pm, |c.disk|), c.pm.metas[i].req) > LiveOf(c, c.pm.metas[i].req)
  {
    OwnerIsLast(c.pm.metas, |c.pm.metas|, c.pm.metas[i].req);
  }

  /** The scan finds every request's page where it was if and only if no leaked page comes after a live one. */
  lemma RebuildFindsPages(c: Cache)
    requires Sound(c)
    ensures (forall req: nat :: req < |c.disk| ==> LiveOf(Recovered(c.pm, |c.disk|), req) == LiveOf(c, req)) <==>
            LeakedBelow(c)
  {
    if LeakedBelow(c) {
      forall req: nat | req < |c.disk|
        ensures LiveOf(Recovered(c.pm, |c.disk|), req) == LiveOf(c, req)
      {
        UniqueOwner(c, req);
      }
    } else {
      var i :| i in Leaked(c) && i + 1 >= LiveOf(c, c.pm.metas[i].req);
      LeakedReturns(c, i);
    }
  }

  lemma SameFree(c: Cache, t: Cache, i: int)
    requires Sound(c) && Sound(t) && c.pm == t.pm
    ensures i in t.free <==> i in c.free
  {
    if i in c.free || i in t.free {
      assert 0 <= i < |c.pm.metas| && c.pm.metas[i] == ZERO;
    }
  }

  lemma SameLive(c: Cache, t: Cache)
    requires Sound(c) && Sound(t) && c.pm == t.pm && |c.disk| == |t.disk|
    requires forall req: nat :: req < |c.disk| ==> LiveOf(t, req) == LiveOf(c, req)
    ensures Contents(t) == Contents(c) && Leaked(t) == Leaked(c)
  {
    forall req: nat | req < |c.disk| ensures Live(t.disk[req]) == Live(c.disk[req]) {
      assert LiveOf(t, req) == LiveOf(c, req);
    }
  }

  /** And then nothing that requests or the allocator can see has changed. */
  lemma RebuildInvertsRunning(c: Cache)
    requires Sound(c) && LeakedBelow(c)
    ensures var t := Recovered(c.pm, |c.disk|);
            && Sound(t) && Contents(t) == Contents(c) && Leaked(t) == Leaked(c)
            && forall i: int :: i in t.free <==> i in c.free
  {
    var t := Recovered(c.pm, |c.disk|);
    RecoveredIsSound(c.pm, |c.disk|);
    RebuildFindsPages(c);
    SameLive(c, t);
    forall i: int ensures i in t.free <==> i in c.free { SameFree(c, t, i); }
  }

  // Crashes in the middle of a write.

  /** The persist that puts a write's new page in place of what was there. */
  function CommitStep(c: Cache, req: nat, content: Page): nat
    requires Sound(c) && CanWrite(c, req)
  {
    |WritePlan(c, req, content)| - if LiveOf(c, req) == 0 then 1 else 2
  }

  /** The new page is in use and the old one not yet released: two pages in use for one request. */
  predicate InWindow(c: Cache, req: nat, content: Page, k: nat)
    requires Sound(c) && CanWrite(c, req)
  {
    CommitStep(c, req, content) < k < |WritePlan(c, req, content)|
  }

  /** Only one free page and sequence numbers of pages in use differ. */
  predicate Quiet(c: Cache, image: Pmem, free: nat) {
    && |image.metas| == |c.pm.metas| && |image.pages| == |c.pm.pages|
    && (forall i: nat :: i < |c.pm.metas| ==>
          image.metas[i].(sn := 0) == c.pm.metas[i].(sn := 0) && (c.pm.metas[i] == ZERO ==> image.metas[i] == ZERO))
    && (forall i: nat :: i < |c.pm.pages| && i != free ==> image.pages[i] == c.pm.pages[i])
  }

  lemma QuietPage(c: Cache, pm: Pmem, free: nat, page: Page)
    requires Quiet(c, pm, free)
    ensures Quiet(c, Persisted(pm, Content(free, page)), free)
  {
  }

  /** Until the commit step only the free page and the old page's sn have changed. */
  lemma {:induction false} BeforeCommit(c: Cache, req: nat, content: Page, k: nat)
    requires Sound(c) && CanWrite(c, req) && k <= CommitStep(c, req, content)
    ensures Quiet(c, PersistAll(c.pm, WritePlan(c, req, content)[..k]), NextFree(c))
    decreases k
  {
    var plan := WritePlan(c, req, content);
    if k > 0 {
      BeforeCommit(c, req, content, k - 1);
      PersistNext(c.pm, plan, k - 1);
      if plan[k - 1].Content? {
        QuietPage(c, PersistAll(c.pm, plan[..k - 1]), NextFree(c), content);
      }
    }
  }

  /** In the window the new page is in place and the old one still in use. */
  lemma AtWindow(c: Cache, req: nat, content: Page, k: nat, torn: Page)
    requires Sound(c) && CanWrite(c, req) && InWindow(c, req, content, k)
    ensures LiveOf(c, req) != 0 && k == |WritePlan(c, req, content)| - 1
    ensures var image := CrashImage(c.pm, WritePlan(c, req, content), k, torn); 
            var i, id := NextFree(c), LiveOf(c, req);
            && i < |c.pm.metas| && id - 1 != i
            && image == Pmem(c.pm.metas[id - 1 := c.pm.metas[id - 1].(sn := 0)][i := PageMeta(true, 1, req)],
              c.pm.pages[i := content])
  {
    var plan := WritePlan(c, req, content);
    ResetIsDone(c, req, content);
    PersistNext(c.pm, plan, k - 2);
    PersistNext(c.pm, plan, k - 1);
  }

  lemma AfterCommit(c: Cache, req: nat, content: Page, torn: Page)
    requires Sound(c) && CanWrite(c, req)
    ensures var plan := WritePlan(c, req, content);
            CrashImage(c.pm, plan, |plan|, torn) == AfterWrite(c, req, content).pm
  {
    var plan := WritePlan(c, req, content);
    assert plan[..|plan|] == plan;
  }

  /** A crash before the commit step leaves the cache as it was, but for what a free page holds. */
  lemma EarlyCrashIsOld(c: Cache, req: nat, content: Page, k: nat, torn: Page)
    requires Sound(c) && CanWrite(c, req) && k <= CommitStep(c, req, content)
    ensures var v := c.(pm := CrashImage(c.pm, WritePlan(c, req, content), k, torn));
            Sound(v) && Contents(v) == Contents(c) && Leaked(v) == Leaked(c)
  {
    var plan := WritePlan(c, req, content);
    BeforeCommit(c, req, content, k);
    QuietPage(c, PersistAll(c.pm, plan[..k]), NextFree(c), torn);
    QuietChange(c, CrashImage(c.pm, WritePlan(c, req, content), k, torn), NextFree(c));
  }

  lemma QuietChange(c: Cache, image: Pmem, free: nat)
    requires Sound(c) && Quiet(c, image, free) && free in c.free
    ensures var v := c.(pm := image);
            Sound(v) && Contents(v) == Contents(c) && Leaked(v) == Leaked(c)
  {
    var v := c.(pm := image);
    forall i: nat | i < |c.pm.metas|
      ensures v.pm.metas[i].valid == c.pm.metas[i].valid && v.pm.metas[i].req == c.pm.metas[i].req
      ensures v.pm.metas[i] == ZERO <==> c.pm.metas[i] == ZERO
    {
      assert image.metas[i].(sn := 0).req == c.pm.metas[i].(sn := 0).req;
      assert image.metas[i].(sn := 0).valid == c.pm.metas[i].(sn := 0).valid;
    }
    assert Sound(v);
  }

  /** In the window the cache is one with a leaked page: the new page or the old one, whichever comes first. */
  function WindowView(c: Cache, req: nat, content: Page): Cache
    requires Sound(c) && CanWrite(c, req) && LiveOf(c, req) != 0
  {
    var i, last, id := NextFree(c), |c.free| - 1, LiveOf(c, req);
    Cache(Pmem(c.pm.metas[id - 1 := c.pm.metas[id - 1].(sn := 0)][i := PageMeta(true, 1, req)],
      c.pm.pages[i := content]),
          if i + 1 > id then c.disk[req := BlockPage(0, i + 1)] else c.disk, c.free[..last])
  }

  lemma WindowIsSound(c: Cache, req: nat, content: Page)
    requires Sound(c) && CanWrite(c, req) && LiveOf(c, req) != 0
    ensures Sound(WindowView(c, req, content))
  {
    WindowKeepsFree(c, req, content);
    WindowKeepsIndex(c, req, content);
  }

  lemma WindowKeepsFree(c: Cache, req: nat, content: Page)
    requires Sound(c) && CanWrite(c, req) && LiveOf(c, req) != 0
    ensures var v := WindowView(c, req, content); MetasSane(v.pm.metas, |v.disk|) && FreeIsZero(v)
  {
    var v := WindowView(c, req, content);
    forall i: nat | i < |v.pm.metas| && v.pm.metas[i] == ZERO ensures i in v.free { assert i in c.free; }
  }

  lemma WindowKeepsIndex(c: Cache, req: nat, content: Page)
    requires Sound(c) && CanWrite(c, req) && LiveOf(c, req) != 0
    ensures IndexIsLive(WindowView(c, req, content))
  {
    var v := WindowView(c, req, content);
    forall r: nat | r < |v.disk|
      ensures EntryIsLive(v.pm.metas, v.disk[r], r)
    {
      assert EntryIsLive(c.pm.metas, c.disk[r], r);
    }
  }

  lemma WindowShows(c: Cache, req: nat, content: Page)
    requires Sound(c) && CanWrite(c, req) && LiveOf(c, req) != 0 && Sound(WindowView(c, req, content))
    ensures var v := WindowView(c, req, content); var i, id := NextFree(c), LiveOf(c, req);
            && Contents(v) == (if i + 1 > id then Contents(c)[req := content] else Contents(c))
            && Leaked(v) == Leaked(c) + {if i + 1 > id then id - 1 else i}
  {
  }

  /** What the scan makes of persistent memory after a crash in step k of a write. */
  function AfterCrash(c: Cache, req: nat, content: Page, k: nat, torn: Page): Cache
    requires Sound(c) && CanWrite(c, req) && k <= |WritePlan(c, req, content)|
  {
    Restarted(CrashImage(c.pm, WritePlan(c, req, content), k, torn), |c.disk|)
  }

  lemma EarlyCrash(c: Cache, req: nat, content: Page, k: nat, torn: Page)
    requires Sound(c) && Leaked(c) == {} && CanWrite(c, req) && k <= CommitStep(c, req, content)
    ensures var t := AfterCrash(c, req, content, k, torn);
            Sound(t) && Contents(t) == Contents(c) && Leaked(t) == {}
  {
    EarlyCrashIsOld(c, req, content, k, torn);
    RebuildInvertsRunning(c.(pm := CrashImage(c.pm, WritePlan(c, req, content), k, torn)));
  }

  lemma WindowCrash(c: Cache, req: nat, content: Page, k: nat, torn: Page)
    requires Sound(c) && Leaked(c) == {} && CanWrite(c, req) && InWindow(c, req, content, k)
    ensures var t := AfterCrash(c, req, content, k, torn); var i, id := NextFree(c), LiveOf(c, req);
            Sound(t) && Contents(t) == (if i + 1 < id then Contents(c) else Contents(c)[req := content])
              && Leaked(t) == {if i + 1 < id then i else id - 1}
  {
    WindowImage(c, req, content, k, torn);
    WindowIsSound(c, req, content);
    WindowShows(c, req, content);
    RebuildInvertsRunning(WindowView(c, req, content));
  }

  lemma WindowImage(c: Cache, req: nat, content: Page, k: nat, torn: Page)
    requires Sound(c) && CanWrite(c, req) && InWindow(c, req, content, k)
    ensures LiveOf(c, req) != 0
    ensures var v := WindowView(c, req, content); AfterCrash(c, req, content, k, torn) == Recovered(v.pm, |v.disk|)
  {
    AtWindow(c, req, content, k, torn);
  }

  lemma LateCrash(c: Cache, req: nat, content: Page, torn: Page)
    requires Sound(c) && Leaked(c) == {} && CanWrite(c, req)
    ensures var t := AfterCrash(c, req, content, |WritePlan(c, req, content)|, torn);
            Sound(t) && Contents(t) == Contents(c)[req := content] && Leaked(t) == {}
  {
    AfterCommit(c, req, content, torn);
    WriteKeeps(c, req, content);
    RebuildInvertsRunning(AfterWrite(c, req, content));
  }

  /**
   * A crash at any point of a write, with the page under way torn in any way, and then the scan: the request has its
   * old page up to the commit step and its new one at the end. In between it has the higher-numbered of the two, and
   * the other one is lost. Nothing else changes.
   */
  lemma CrashDuringWrite(c: Cache, req: nat, content: Page, k: nat, torn: Page)
    requires Sound(c) && Leaked(c) == {} && CanWrite(c, req) && k <= |WritePlan(c, req, content)|
    ensures var t := AfterCrash(c, req, content, k, torn); var i, id := NextFree(c), LiveOf(c, req);
            && Sound(t)
            && Contents(t) == (if k <= CommitStep(c, req, content) || (InWindow(c, req, content, k) && i + 1 < id)
                               then Contents(c) else Contents(c)[req := content])
            && Leaked(t) == (if InWindow(c, req, content, k) then {if i + 1 < id then i else id - 1} else {})
  {
    if k <= CommitStep(c, req, content) {
      EarlyCrash(c, req, content, k, torn);
    } else if InWindow(c, req, content, k) {
      WindowCrash(c, req, content, k, torn);
    } else {
      LateCrash(c, req, content, torn);
    }
  }

  /** A crash before or after the one persist of a deletion. */
  lemma CrashDuringDelete(c: Cache, req: nat, k: nat, torn: Page)
    requires Sound(c) && Leaked(c) == {} && k <= |DeletePlan(c, req)|
    ensures var t := Restarted(CrashImage(c.pm, DeletePlan(c, req), k, torn), |c.disk|);
            && Sound(t) && Leaked(t) == {}
            && Contents(t) == if k == 0 then Contents(c) else Contents(c) - {req}
  {
    var plan := DeletePlan(c, req);
    if k == 0 {
      assert plan[..0] == [];
      RebuildInvertsRunning(c);
    } else {
      assert plan[..1] == plan;
      DeleteKeeps(c, req);
      RebuildInvertsRunning(AfterDelete(c, req));
    }
  }

  // Whole runs.

  datatype Act =
    | Write(req: nat, content: Page)
    | Delete(req: nat)
    | CrashInWrite(req: nat, content: Page, k: nat, torn: Page) // and restart
    | CrashInDelete(req: nat, k: nat, torn: Page)               // and restart; k = 0 is a crash at rest

  predicate Enabled(c: Cache, act: Act) {
    Sound(c) &&
    match act
    case Write(req, _) => CanWrite(c, req)
    case Delete(_) => true
    case CrashInWrite(req, content, k, _) => CanWrite(c, req) && k <= |WritePlan(c, req, content)|
    case CrashInDelete(req, k, _) => k <= |DeletePlan(c, req)|
  }

  function After(c: Cache, act: Act): Cache
    requires Enabled(c, act)
  {
    match act
    case Write(req, content) => AfterWrite(c, req, content)
    case Delete(req) => AfterDelete(c, req)
    case CrashInWrite(req, content, k, torn) => AfterCrash(c, req, content, k, torn)
    case CrashInDelete(req, k, torn) => Restarted(CrashImage(c.pm, DeletePlan(c, req), k, torn), |c.disk|)
  }

  /** What an act may do to what requests see: an operation takes place, a crashed one does or does not. */
  predicate Outcome(act: Act, before: map<nat, Page>, after: map<nat, Page>) {
    match act
    case Write(req, content) => after == before[req := content]
    case Delete(req) => after == before - {req}
    case CrashInWrite(req, content, _, _) => after == before || after == before[req := content]
    case CrashInDelete(req, _, _) => after == before || after == before - {req}
  }

  predicate CrashesInWindow(c: Cache, act: Act)
    requires Enabled(c, act)
  {
    act.CrashInWrite? && InWindow(c, act.req, act.content, act.k)
  }

  /** No crash but possibly the last falls into an overwrite window. */
  function Run(c: Cache, acts: seq<Act>): Option<Cache>
    decreases |acts|
  {
    if acts == [] then Some(c)
    else
      var before := Run(c, acts[..|acts| - 1]);
      if before.Some? && Enabled(before.value, acts[|acts| - 1]) && !CrashesInWindow(before.value, acts[|acts| - 1])
      then Some(After(before.value, acts[|acts| - 1]))
      else None
  }

  lemma ActKeeps(c: Cache, act: Act)
    requires Enabled(c, act) && Leaked(c) == {}
    ensures var t := After(c, act);
            && Sound(t) && |t.disk| == |c.disk| && Outcome(act, Contents(c), Contents(t))
            && |Leaked(t)| <= 1 && (Leaked(t) == {} <==> !CrashesInWindow(c, act))
  {
    match act
    case Write(req, content) => WriteKeeps(c, req, content);
    case Delete(req) => DeleteKeeps(c, req);
    case CrashInWrite(req, content, k, torn) => CrashDuringWrite(c, req, content, k, torn);
    case CrashInDelete(req, k, torn) => CrashDuringDelete(c, req, k, torn);
  }

  lemma {:induction false} EveryRunKeeps(origin: Cache, acts: seq<Act>)
    requires Sound(origin) && Leaked(origin) == {} && Run(origin, acts).Some?
    ensures var c := Run(origin, acts).value;
            Sound(c) && Leaked(c) == {} && |c.disk| == |origin.disk| && |c.free| + |Contents(c)| == |c.pm.metas|
    decreases |acts|
  {
    if acts != [] {
      var before := Run(origin, acts[..|acts| - 1]).value;
      EveryRunKeeps(origin, acts[..|acts| - 1]);
      ActKeeps(before, acts[|acts| - 1]);
    }
    Conservation(Run(origin, acts).value);
  }

  /**
   * After any run of writes, deletions and crashes, none of them in an overwrite window, one more act of any kind
   * takes place as a whole or, crashed, not at all; a page is lost exactly when the last crash is in the window, and
   * then only one.
   */
  lemma CrashAtomicity(origin: Cache, acts: seq<Act>, c: Cache, act: Act)
    requires Sound(origin) && Leaked(origin) == {} && Run(origin, acts) == Some(c) && Enabled(c, act)
    ensures var t := After(c, act);
            && Sound(t) && Outcome(act, Contents(c), Contents(t))
            && |Leaked(t)| == (if CrashesInWindow(c, act) then 1 else 0)
  {
    EveryRunKeeps(origin, acts);
    ActKeeps(c, act);
  }

  /** Whether an act takes place: a write with its last persist, a deletion with its only one. */
  predicate Lands(c: Cache, act: Act)
    requires Enabled(c, act)
  {
    match act
    case Write(_, _) => true
    case Delete(_) => true
    case CrashInWrite(req, content, k, _) => k == |WritePlan(c, req, content)|
    case CrashInDelete(_, k, _) => k > 0
  }

  function Effect(act: Act, m: map<nat, Page>): map<nat, Page> {
    if act.Write? || act.CrashInWrite? then m[act.req := act.content] else m - {act.req}
  }

  /** A plain map, changed by the acts that take place. */
  function Folded(origin: Cache, acts: seq<Act>): map<nat, Page>
    requires Sound(origin) && Run(origin, acts).Some?
    decreases |acts|
  {
    if acts == [] then Contents(origin)
    else
      var front, act := acts[..|acts| - 1], acts[|acts| - 1];
      if Lands(Run(origin, front).value, act) then Effect(act, Folded(origin, front)) else Folded(origin, front)
  }

  lemma ActFolds(c: Cache, act: Act)
    requires Enabled(c, act) && Leaked(c) == {} && !CrashesInWindow(c, act)
    ensures var t := After(c, act);
            && Sound(t) && Leaked(t) == {} && |t.disk| == |c.disk|
            && Contents(t) == if Lands(c, act) then Effect(act, Contents(c)) else Contents(c)
  {
    match act
    case Write(req, content) => WriteKeeps(c, req, content);
    case Delete(req) => DeleteKeeps(c, req);
    case CrashInWrite(req, content, k, torn) => CrashDuringWrite(c, req, content, k, torn);
    case CrashInDelete(req, k, torn) => CrashDuringDelete(c, req, k, torn);
  }

  /** What requests see after a run is the plain map that the acts which took place leave. */
  lemma {:induction false} ContentsAreFolded(origin: Cache, acts: seq<Act>)
    requires Sound(origin) && Leaked(origin) == {} && Run(origin, acts).Some?
    ensures var c := Run(origin, acts).value;
            Sound(c) && Leaked(c) == {} && Contents(c) == Folded(origin, acts)
    decreases |acts|
  {
    if acts != [] {
      var front := acts[..|acts| - 1];
      ContentsAreFolded(origin, front);
      ActFolds(Run(origin, front).value, acts[|acts| - 1]);
    }
  }

  /** A restart at rest, after any such run, shows every request the page it had, and frees the same pages. */
  lemma RestartKeeps(origin: Cache, acts: seq<Act>, c: Cache)
    requires Sound(origin) && Leaked(origin) == {} && Run(origin, acts) == Some(c)
    ensures Sound(c)
    ensures var t := StartUp(Medium(MAGIC, c.pm), |c.disk|);
            && Sound(t) && t.pm == c.pm && Contents(t) == Contents(c) && Leaked(t) == {}
            && forall i: int :: i in t.free <==> i in c.free
  {
    EveryRunKeeps(origin, acts);
    RebuildInvertsRunning(c);
  }

  // The first start-up.

  /** The file after a crash while it was being formatted: zeroing metadata, storing the page offset, or done. */
  function FormatImage(m: Medium, k: nat, torn: seq<PageMeta>): Medium {
    if k == 0 then m.(pm := m.pm.(metas := torn))
    else if k <= 2 then m.(pm := Zeroed(m.pm))
    else Medium(MAGIC, Zeroed(m.pm))
  }

  /** No request has a page, and every page is free. */
  ghost predicate IsBlank(c: Cache)
    requires Sound(c)
  {
    Contents(c) == map[] && |c.free| == |c.pm.metas| && forall i: nat :: i < |c.pm.metas| ==> c.pm.metas[i] == ZERO
  }

  lemma ZeroedIsEmpty(pm: Pmem, size: nat)
    requires |pm.metas| == |pm.pages|
    ensures var t := Recovered(Zeroed(pm), size);
            Sound(t) && Contents(t) == map[] && Leaked(t) == {} && |t.free| == |pm.metas|
  {
    var t := Recovered(Zeroed(pm), size);
    RecoveredIsSound(Zeroed(pm), size);
    forall req: nat | req < size ensures Live(t.disk[req]) == 0 {
      OwnerIsLast(t.pm.metas, |pm.metas|, req);
    }
    assert Contents(t) == map[];
    Conservation(t);
  }

  /** However often formatting is interrupted, the cache starts empty, with every page free. */
  lemma FormatStartsEmpty(m: Medium, k: nat, torn: seq<PageMeta>, size: nat)
    requires m.magic != MAGIC && |m.pm.metas| == |m.pm.pages| == |torn|
    ensures var t := StartUp(FormatImage(m, k, torn), size);
            Sound(t) && Contents(t) == map[] && Leaked(t) == {} && |t.free| == |m.pm.metas|
  {
    ZeroedIsEmpty(m.pm, size);
    ZeroedIsEmpty(m.pm.(metas := torn), size);
    assert Zeroed(Zeroed(m.pm)) == Zeroed(m.pm);
  }

  // After a crash in the window.

  function Three(a: PageMeta, b: PageMeta, c: PageMeta, pa: Page, pb: Page, pc: Page): Pmem {
    Pmem([a, b, c], [pa, pb, pc])
  }

  lemma ScanThree(pm: Pmem)
    requires |pm.metas| == |pm.pages| == 3 && MetasSane(pm.metas, 1)
    ensures var id := if pm.metas[2].valid then 3 else if pm.metas[1].valid then 2
                      else if pm.metas[0].valid then 1 else 0;
            && Recovered(pm, 1).disk == [BlockPage(id, 0)] && Sound(Recovered(pm, 1))
            && Recovered(pm, 1).free
              == (if pm.metas[0].valid then [] else [0]) + (if pm.metas[1].valid then [] else [1])
                + (if pm.metas[2].valid then [] else [2])
  {
    RecoveredIsSound(pm, 1);
    assert FreeOf(pm.metas, 1) == if pm.metas[0].valid then [] else [0];
    assert FreeOf(pm.metas, 2) == FreeOf(pm.metas, 1) + if pm.metas[1].valid then [] else [1];
    assert Owner(pm.metas, 1, 0) == if pm.metas[0].valid then 1 else 0;
    assert Owner(pm.metas, 2, 0) == if pm.metas[1].valid then 2 else Owner(pm.metas, 1, 0);
  }

  const BEFORE: PageMeta := PageMeta(true, 0, 0)
  const AFTER: PageMeta := PageMeta(true, 1, 0)

  function Empty(torn: Page): Cache {
    Cache(Three(ZERO, ZERO, ZERO, torn, torn, torn), [BlockPage(0, 0)], [0, 1, 2])
  }

  function FirstWritten(first: Page, torn: Page): Cache {
    Cache(Three(ZERO, ZERO, BEFORE, torn, torn, first), [BlockPage(3, 0)], [0, 1])
  }

  function SecondLost(first: Page, second: Page, torn: Page): Cache {
    Cache(Three(ZERO, AFTER, BEFORE, torn, second, first), [BlockPage(3, 0)], [0])
  }

  function ThirdWritten(first: Page, second: Page, third: Page): Cache {
    Cache(Three(AFTER, AFTER, ZERO, third, second, first), [BlockPage(0, 1)], [2])
  }

  lemma FirstIsWritten(first: Page, torn: Page)
    ensures var c, t := Empty(torn), FirstWritten(first, torn);
            c == Recovered(c.pm, 1) && Sound(c) && Leaked(c) == {} && Sound(t) && Enabled(c, Write(0, first))
              && After(c, Write(0, first)) == t
  {
    var c := Empty(torn);
    ScanThree(c.pm);
    assert c == Recovered(c.pm, 1);
    WriteIs(c, 0, first);
    WriteKeeps(c, 0, first);
  }

  lemma SecondIsLost(first: Page, second: Page, torn: Page)
    requires Sound(FirstWritten(first, torn))
    ensures var c, t, crash := FirstWritten(first, torn), SecondLost(first, second, torn),
            CrashInWrite(0, second, 2, torn);
            Sound(t) && Enabled(c, crash) && CrashesInWindow(c, crash) && After(c, crash) == t
  {
    var c, t := FirstWritten(first, torn), SecondLost(first, second, torn);
    AtWindow(c, 0, second, 2, torn);
    ScanThree(t.pm);
    var image := CrashImage(c.pm, WritePlan(c, 0, second), 2, torn);
    assert image.metas == t.pm.metas;
    assert image.pages == t.pm.pages;
    assert image == t.pm;
  }

  lemma ThirdIsWritten(first: Page, second: Page, third: Page, torn: Page)
    requires Sound(SecondLost(first, second, torn))
    ensures var c, t := SecondLost(first, second, torn), ThirdWritten(first, second, third);
            Sound(t) && Enabled(c, Write(0, third)) && After(c, Write(0, third)) == t
  {
    var c, t := SecondLost(first, second, torn), ThirdWritten(first, second, third);
    WriteIs(c, 0, third);
    WriteKeeps(c, 0, third);
    var after := After(c, Write(0, third));
    assert after.pm.metas == t.pm.metas;
    assert after.pm.pages == t.pm.pages;
    assert after.disk == t.disk && after.free == t.free;
  }

  /**
   * Three pages and one request: `first` is written, a write of `second` is lost in a crash in its window, `third` is
   * written, and a restart at rest brings `second` back.
   */
  lemma LeakedPageComesBack(first: Page, second: Page, third: Page, torn: Page)
    ensures var c1, c2, c3 := FirstWritten(first, torn), SecondLost(first, second, torn),
            ThirdWritten(first, second, third);
            && Run(Empty(torn), [Write(0, first)]) == Some(c1)
            && Enabled(c1, CrashInWrite(0, second, 2, torn)) && After(c1, CrashInWrite(0, second, 2, torn)) == c2
            && Run(c2, [Write(0, third)]) == Some(c3) && Contents(c3) == map[0 := third]
            && Enabled(c3, CrashInDelete(0, 0, torn)) && Sound(After(c3, CrashInDelete(0, 0, torn)))
            && Contents(After(c3, CrashInDelete(0, 0, torn))) == map[0 := second]
  {
    FirstIsWritten(first, torn);
    SecondIsLost(first, second, torn);
    ThirdIsWritten(first, second, third, torn);
    OneAct(Empty(torn), Write(0, first));
    OneAct(SecondLost(first, second, torn), Write(0, third));
    RestartBringsSecond(first, second, third, torn);
  }

  lemma OneAct(c: Cache, act: Act)
    requires Enabled(c, act) && !CrashesInWindow(c, act)
    ensures Run(c, [act]) == Some(After(c, act))
  {
    assert [act][..0] == [];
  }

  lemma RestartBringsSecond(first: Page, second: Page, third: Page, torn: Page)
    requires Sound(ThirdWritten(first, second, third))
    ensures var c, restart := ThirdWritten(first, second, third), CrashInDelete(0, 0, torn);
            Contents(c) == map[0 := third] && Enabled(c, restart) && Sound(After(c, restart))
              && Contents(After(c, restart)) == map[0 := second]
  {
    var c := ThirdWritten(first, second, third);
    ScanThree(c.pm);
    assert CrashImage(c.pm, DeletePlan(c, 0), 0, torn) == c.pm;
  }
}
