/** The state of malloc.c and the invariant its operations keep. */
module MallocInv {
  import opened Common
  import opened MallocLayout

  /** struct arena: a page of blocks, or the head of a big block. */
  datatype Arena = Small(desc: nat, freeCnt: nat) | Big(pages: nat)

  /** The descriptors (block size, blocks per arena, free list of each), the
      arenas by page number, and the blocks handed out with their requested
      sizes. */
  datatype Heap = Heap(sizes: seq<nat>, per: seq<nat>, free: seq<seq<Ptr>>,
                       arenas: map<nat, Arena>, live: map<Ptr, nat>)

  /** The descriptor table is complete. */
  ghost predicate Table(h: Heap) {
    && |h.sizes| == |h.per| == |h.free| == DESC_CNT
    && forall d :: 0 <= d < DESC_CNT ==> h.per[d] > 0 && h.sizes[d] < SIZE_LIMIT
  }

  /** Pages an arena takes. */
  function Span(a: Arena): nat {
    if a.Small? then 1 else a.pages
  }

  /** The arena of P is small and P is one of its blocks. */
  ghost predicate Gridded(h: Heap, p: Ptr) {
    p.page in h.arenas && var a := h.arenas[p.page];
    a.Small? && a.desc < |h.per| && p.slot < h.per[a.desc]
  }

  ghost predicate ArenaOk(h: Heap, a: nat)
    requires a in h.arenas
  {
    a > 0 &&
    if h.arenas[a].Small? then h.arenas[a].desc < |h.free| else h.arenas[a].pages > 0
  }

  /** All pages of arena A come before page B. */
  ghost predicate Below(h: Heap, a: nat, b: nat)
    requires a in h.arenas
  {
    a + Span(h.arenas[a]) <= b
  }

  ghost predicate Arenas(h: Heap) {
    && (forall a :: a in h.arenas ==> ArenaOk(h, a))
    && (forall a, b {:trigger Below(h, a, b)} :: a in h.arenas && b in h.arenas && a < b ==> Below(h, a, b))
  }

  /** Each free list holds, once each, blocks of arenas of its descriptor. */
  ghost predicate Lists(h: Heap) {
    && (forall d :: 0 <= d < |h.free| ==> NoDup(h.free[d]))
    && (forall d, p :: 0 <= d < |h.free| && p in h.free[d] ==> Gridded(h, p) && h.arenas[p.page].desc == d)
  }

  /** A block of a small arena is free or handed out, never both. */
  ghost predicate Partition(h: Heap) {
    forall p :: Gridded(h, p) && h.arenas[p.page].desc < |h.free| ==>
      (p in h.free[h.arenas[p.page].desc] <==> p !in h.live)
  }

  /** What block_to_arena asserts of every block handed out. */
  ghost predicate LivePlaced(h: Heap, p: Ptr) {
    p.page in h.arenas &&
    if h.arenas[p.page].Small? then Gridded(h, p) else p.slot == 0
  }

  /** block_size. */
  function Capacity(h: Heap, p: Ptr): int
    requires p.page in h.arenas
  {
    match h.arenas[p.page]
    case Small(d, _) => if d < |h.sizes| then h.sizes[d] else 0
    case Big(n) => PGSIZE * n - HEADER
  }

  /** A block handed out is in its place; a block of a page holds the size asked
      for, a big block has the pages computed from that size. */
  ghost predicate LiveOk(h: Heap, p: Ptr)
    requires p in h.live
  {
    LivePlaced(h, p) && 0 < h.live[p] < SIZE_LIMIT &&
    match h.arenas[p.page]
    case Small(_, _) => h.live[p] <= Capacity(h, p)
    case Big(n) => n == PagesFor(h.live[p])
  }

  ghost predicate Lives(h: Heap) {
    && (forall p :: p in h.live ==> LiveOk(h, p))
    && (forall a :: a in h.arenas && h.arenas[a].Big? ==> Ptr(a, 0) in h.live)
  }

  ghost function FreeBlocks(h: Heap, a: nat): set<Ptr>
    requires a in h.arenas && h.arenas[a].Small? && h.arenas[a].desc < |h.free|
  {
    set p | p in h.free[h.arenas[a].desc] && p.page == a
  }

  /** free_cnt is the number of an arena's blocks on the free list, and every
      arena but SPARE has a block handed out. */
  ghost predicate Counts(h: Heap, spare: nat) {
    forall a :: a in h.arenas && h.arenas[a].Small? && h.arenas[a].desc < |h.free| && h.arenas[a].desc < |h.per| ==>
      && h.arenas[a].freeCnt == |FreeBlocks(h, a)|
      && (a == spare || h.arenas[a].freeCnt < h.per[h.arenas[a].desc])
  }

  ghost predicate Inv(h: Heap, spare: nat) {
    Table(h) && Arenas(h) && Lists(h) && Partition(h) && Lives(h) && Counts(h, spare)
  }

  // ----- blocks of one arena

  ghost function Blocks(a: nat, n: nat): set<Ptr> {
    set i: nat | i < n :: Ptr(a, i)
  }

  lemma {:induction false} BlockCount(a: nat, n: nat)
    ensures |Blocks(a, n)| == n
  {
    if n > 0 {
      BlockCount(a, n - 1);
      assert Blocks(a, n) == Blocks(a, n - 1) + {Ptr(a, n - 1)};
    }
  }

  /** Free blocks of an arena are blocks of it; when all are counted, all of its
      blocks are on the list. */
  lemma FreeOfArena(h: Heap, a: nat)
    requires Table(h) && Arenas(h) && Lists(h) && a in h.arenas && h.arenas[a].Small?
    ensures h.arenas[a].desc < DESC_CNT
    ensures var n := h.per[h.arenas[a].desc];
            FreeBlocks(h, a) <= Blocks(a, n) && |FreeBlocks(h, a)| <= n &&
            (|FreeBlocks(h, a)| == n ==> FreeBlocks(h, a) == Blocks(a, n))
  {
    assert ArenaOk(h, a);
    var n := h.per[h.arenas[a].desc];
    forall p | p in FreeBlocks(h, a) ensures p in Blocks(a, n) {
      assert p == Ptr(a, p.slot);
    }
    BlockCount(a, n);
    SubsetSize(FreeBlocks(h, a), Blocks(a, n));
  }

  /** Fewer than N blocks are not all of the first N. */
  lemma BlockMissing(a: nat, n: nat, s: set<Ptr>) returns (i: nat)
    requires |s| < n
    ensures i < n && Ptr(a, i) !in s
  {
    BlockCount(a, n);
    if Blocks(a, n) <= s {
      SubsetSize(Blocks(a, n), s);
    }
    i :| i < n && Ptr(a, i) !in s;
  }

  /** A small arena has a block handed out. */
  lemma SomeBlockOut(h: Heap, a: nat) returns (p: Ptr)
    requires Inv(h, 0) && a in h.arenas && h.arenas[a].Small?
    ensures p in h.live && p.page == a
  {
    assert ArenaOk(h, a);
    var i := BlockMissing(a, h.per[h.arenas[a].desc], FreeBlocks(h, a));
    p := Ptr(a, i);
    assert Gridded(h, p);
  }

  /** Nothing leaks: the arenas are exactly those of the blocks handed out. */
  lemma ArenasInUse(h: Heap)
    requires Inv(h, 0)
    ensures h.arenas.Keys == set p | p in h.live :: p.page
  {
    forall a | a in h.arenas ensures exists p :: p in h.live && p.page == a {
      if h.arenas[a].Small? {
        var p := SomeBlockOut(h, a);
      } else {
        assert Ptr(a, 0) in h.live;
      }
    }
    assert forall p :: p in h.live ==> LiveOk(h, p);
  }
}
