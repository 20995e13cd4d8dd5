/** Where cbs_req/cbs_req_pmem.cpp puts its metadata and its pages. Page i has metadata i and page id i + 1. */
module PageLayout {
  const PMEM_SIZE: nat := 107374182400 // 100 GiB
  const PAGES: nat := 25811100         // (PMEM_SIZE - 64) / (4096 + 64) - 1

  function MetaAddr(base: nat, i: nat): nat {
    base + 64 + 64 * i
  }

  /** PAGE_ID_FROM_META. */
  function PageIdFromMeta(base: nat, meta: nat): nat
    requires meta >= base + 64
  {
    (meta - 64 - base) / 64 + 1
  }

  /** PAGE_META_FROM_ID. */
  function MetaFromId(base: nat, id: nat): nat
    requires id >= 1
  {
    base + 64 + (id - 1) * 64
  }

  /** PAGE_FROM_META. */
  function PageFromMeta(base: nat, pageAddress: nat, meta: nat): nat
    requires meta >= base + 64
  {
    pageAddress + 4096 * ((meta - 64 - base) / 64)
  }

  /** The page_offset a first initialisation stores: the end of the metadata, rounded up past a page boundary. */
  function PageOffset(base: nat): int {
    (base + 64 + 64 * PAGES + 4096) / 4096 * 4096 - base
  }

  lemma PageCount()
    ensures PAGES == (PMEM_SIZE - 64) / (4096 + 64) - 1 && PAGES + 1 < 0x1_0000_0000
  {
  }

  /** Page ids and metadata addresses are inverse to each other. */
  lemma IdsAndMetas(base: nat, i: nat, id: nat)
    ensures PageIdFromMeta(base, MetaAddr(base, i)) == i + 1
    ensures id >= 1 ==> MetaFromId(base, id) == MetaAddr(base, id - 1)
    ensures id >= 1 ==> PageIdFromMeta(base, MetaFromId(base, id)) == id
  {
  }

  /**
   * Mapped again at any page-aligned base, with the offset stored when it was first mapped at another one, page i is
   * aligned, beyond all metadata, apart from every other page and inside the mapping.
   */
  lemma PagesFit(first: nat, base: nat, i: nat, j: nat)
    requires first % 4096 == 0 && base % 4096 == 0 && i < PAGES && j < PAGES
    ensures var at := base + PageOffset(first);
            at >= 0 &&
            var page := PageFromMeta(base, at, MetaAddr(base, i));
            && page == at + 4096 * i && page % 4096 == 0
            && MetaAddr(base, PAGES) <= page && page + 4096 <= base + PMEM_SIZE
            && (i < j ==> page + 4096 <= PageFromMeta(base, at, MetaAddr(base, j)))
  {
    var x := first + 64 + 64 * PAGES + 4096;
    assert x - 4096 < x / 4096 * 4096 <= x;
    IdsAndMetas(base, i, 1);
    IdsAndMetas(base, j, 1);
  }
}
