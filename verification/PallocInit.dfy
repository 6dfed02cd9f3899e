/** How palloc_init lays out the two pools, in page numbers. */
module PallocInit {
  import opened Common
  import opened Bitmap

  const FIRST_FREE := 256   // pages in the first megabyte

  /** A pool: its bitmap takes MAPPAGES pages from MAPAT, its CNT pages follow. */
  datatype Place = Place(mapAt: nat, mapPages: nat, base: nat, cnt: nat)

  /** bitmap_buf_size: the structure and its words, in bytes. */
  function BufSize(n: nat): nat {
    8 + 4 * ElemCnt(n)
  }

  /** init_pool; None is its panic. */
  function InitPool(at: nat, pages: nat): Option<Place> {
    var bm := (BufSize(pages) + PGSIZE - 1) / PGSIZE;
    if bm > pages then None else Some(Place(at, bm, at + bm, pages - bm))
  }

  /** palloc_init, for RAM pages of memory. */
  function InitPools(ram: nat, userLimit: nat): Option<(Place, Place)>
    requires ram >= FIRST_FREE
  {
    var free := ram - FIRST_FREE;
    BothPools(free - UserPages(free, userLimit), UserPages(free, userLimit))
  }

  /** Half of the free pages, but not more than the limit. */
  function UserPages(free: nat, userLimit: nat): (n: nat)
    ensures n <= userLimit && 2 * n <= free && (n == userLimit || 2 * n + 1 >= free)
  {
    if free / 2 > userLimit then userLimit else free / 2
  }

  function BothPools(kernel: nat, user: nat): Option<(Place, Place)> {
    match (InitPool(FIRST_FREE, kernel), InitPool(FIRST_FREE + kernel, user))
    case (Some(k), Some(u)) => Some((k, u))
    case (_, _) => None
  }

  /** page_from_pool. */
  predicate FromPool(p: Place, page: nat) {
    p.base <= page < p.base + p.cnt
  }

  /** The pool's bitmap fits in front of its pages, in no more pages than a bitmap for
      all of them would need. */
  ghost predicate WellPlaced(p: Place, lo: nat, hi: nat) {
    && p.mapAt == lo && p.base == lo + p.mapPages && p.base + p.cnt == hi
    && BufSize(p.cnt) <= PGSIZE * p.mapPages < BufSize(hi - lo) + PGSIZE
  }

  lemma OnePool(at: nat, pages: nat)
    requires InitPool(at, pages).Some?
    ensures WellPlaced(InitPool(at, pages).value, at, at + pages)
  {
    var p := InitPool(at, pages).value;
    assert BufSize(p.cnt) <= BufSize(pages) <= PGSIZE * p.mapPages;
  }

  lemma TwoPools(kernel: nat, user: nat)
    requires BothPools(kernel, user).Some?
    ensures var (k, u) := BothPools(kernel, user).value;
            && u.mapAt == FIRST_FREE + kernel
            && WellPlaced(k, FIRST_FREE, u.mapAt) && WellPlaced(u, u.mapAt, FIRST_FREE + kernel + user)
  {
    OnePool(FIRST_FREE, kernel);
    OnePool(FIRST_FREE + kernel, user);
  }

  /** The pools and their bitmaps share no page, fill free memory exactly, and
      the assertion of bitmap_create_in_buf holds. The user pool has half of free
      memory, rounded down, or as many pages as the limit allows. */
  lemma PoolsApart(ram: nat, userLimit: nat)
    requires ram >= FIRST_FREE && InitPools(ram, userLimit).Some?
    ensures var (k, u) := InitPools(ram, userLimit).value;
            && WellPlaced(k, FIRST_FREE, u.mapAt) && WellPlaced(u, u.mapAt, ram)
            && var n, free := ram - u.mapAt, ram - FIRST_FREE;
               n <= userLimit && 2 * n <= free && (n == userLimit || 2 * n + 1 >= free)
  {
    var user := UserPages(ram - FIRST_FREE, userLimit);
    TwoPools(ram - FIRST_FREE - user, user);
  }

  /** palloc_free_multiple finds the pool a page came from and its index there. */
  lemma FreeFindsPool(ram: nat, userLimit: nat, idx: nat)
    requires ram >= FIRST_FREE && InitPools(ram, userLimit).Some?
    ensures var (k, u) := InitPools(ram, userLimit).value;
            && (idx < k.cnt ==> FromPool(k, k.base + idx) && !FromPool(u, k.base + idx))
            && (idx < u.cnt ==> FromPool(u, u.base + idx) && !FromPool(k, u.base + idx))
            && (idx < k.mapPages ==> !FromPool(k, k.mapAt + idx) && !FromPool(u, k.mapAt + idx))
            && (idx < u.mapPages ==> !FromPool(k, u.mapAt + idx) && !FromPool(u, u.mapAt + idx))
  {
    PoolsApart(ram, userLimit);
  }

  /** init_pool gives up only where a bitmap for the pages would need more pages than
      there are. */
  lemma PanicsExactly(at: nat, pages: nat)
    ensures InitPool(at, pages).None? <==> BufSize(pages) > PGSIZE * pages
  {
  }
}
