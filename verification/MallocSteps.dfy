/** The steps of malloc and free, each keeping the heap invariant. */
module MallocSteps {
  import opened Common
  import opened MallocLayout
  import opened MallocInv

  /** Same arenas up to their free counts. */
  ghost predicate SameArenas(h: Heap, h': Heap) {
    && h'.sizes == h.sizes && h'.per == h.per && |h'.free| == |h.free|
    && h'.arenas.Keys == h.arenas.Keys
    && (forall a :: a in h.arenas ==>
          if h.arenas[a].Small? then h'.arenas[a].Small? && h'.arenas[a].desc == h.arenas[a].desc
          else h'.arenas[a] == h.arenas[a])
  }

  lemma SameArenasKeep(h: Heap, h': Heap)
    requires Arenas(h) && SameArenas(h, h')
    ensures Arenas(h')
    ensures forall p :: Gridded(h', p) == Gridded(h, p)
    ensures forall p: Ptr :: p.page in h.arenas ==> Capacity(h', p) == Capacity(h, p)
    ensures forall p :: LivePlaced(h', p) == LivePlaced(h, p)
  {
    forall a | a in h'.arenas ensures ArenaOk(h', a) {
      assert ArenaOk(h, a);
    }
    forall a, b | a in h'.arenas && b in h'.arenas && a < b ensures Below(h', a, b) {
      assert Below(h, a, b);
    }
  }

  // ----- taking a block off a free list

  function Take(h: Heap, d: nat, size: nat): Heap
    requires d < |h.free| && h.free[d] != [] && h.free[d][0].page in h.arenas
    requires h.arenas[h.free[d][0].page].Small? && h.arenas[h.free[d][0].page].freeCnt > 0
  {
    var p := h.free[d][0];
    var a := p.page;
    h.(free := h.free[d := h.free[d][1..]], arenas := h.arenas[a := Small(d, h.arenas[a].freeCnt - 1)],
       live := h.live[p := size])
  }

  lemma FrontCounted(h: Heap, d: nat, spare: nat)
    requires Inv(h, spare) && d < DESC_CNT && h.free[d] != []
    ensures var p := h.free[d][0]; var a := p.page;
            Gridded(h, p) && h.arenas[a].desc == d && h.arenas[a].freeCnt > 0 && p !in h.live && p in FreeBlocks(h, a)
  {
    var p := h.free[d][0];
    assert p in h.free[d];
    assert p in FreeBlocks(h, p.page);
  }

  lemma TakeCounts(h: Heap, d: nat, size: nat, spare: nat)
    requires Inv(h, spare) && d < DESC_CNT && h.free[d] != []
    requires spare == 0 || spare == h.free[d][0].page
    ensures h.free[d][0].page in h.arenas && h.arenas[h.free[d][0].page].Small?
    ensures h.arenas[h.free[d][0].page].freeCnt > 0 && Counts(Take(h, d, size), 0)
  {
    FrontCounted(h, d, spare);
    var p := h.free[d][0];
    var a := p.page;
    var h' := Take(h, d, size);
    NoDupTail(h.free[d]);
    FreeOfArena(h, a);
    forall b | b in h'.arenas && h'.arenas[b].Small? && h'.arenas[b].desc < |h'.free| && h'.arenas[b].desc < |h'.per|
      ensures h'.arenas[b].freeCnt == |FreeBlocks(h', b)| && h'.arenas[b].freeCnt < h'.per[h'.arenas[b].desc]
    {
      assert ArenaOk(h, b);
      TakenBlocks(h, d, size, b);
    }
  }

  lemma TakenBlocks(h: Heap, d: nat, size: nat, b: nat)
    requires d < |h.free| && h.free[d] != [] && h.free[d][0].page in h.arenas && NoDup(h.free[d])
    requires h.arenas[h.free[d][0].page].Small? && h.arenas[h.free[d][0].page].freeCnt > 0
    requires h.arenas[h.free[d][0].page].desc == d && b in h.arenas && h.arenas[b].Small? && h.arenas[b].desc < |h.free|
    ensures var p := h.free[d][0];
            FreeBlocks(Take(h, d, size), b) == if b == p.page then FreeBlocks(h, b) - {p} else FreeBlocks(h, b)
  {
    NoDupCons(h.free[d]);
    assert h.free[d] == [h.free[d][0]] + h.free[d][1..];
  }

  lemma TakeLists(h: Heap, h': Heap, d: nat, p: Ptr)
    requires Table(h) && Lists(h) && Partition(h) && d < DESC_CNT && h.free[d] != [] && p == h.free[d][0]
    requires forall q :: Gridded(h', q) == Gridded(h, q)
    requires SameArenas(h, h')
    requires h'.free == h.free[d := h.free[d][1..]] && h'.live.Keys == h.live.Keys + {p}
    ensures Lists(h') && Partition(h')
  {
    assert p in h.free[d];
    NoDupTail(h.free[d]);
  }

  lemma TakeLives(h: Heap, h': Heap, p: Ptr, size: nat)
    requires Lives(h) && SameArenas(h, h') && h'.live == h.live[p := size] && LivePlaced(h', p)
    requires h'.arenas[p.page].Small? && 0 < size <= Capacity(h', p) && size < SIZE_LIMIT
    requires forall q: Ptr :: q.page in h.arenas ==> Capacity(h', q) == Capacity(h, q)
    requires forall q :: LivePlaced(h', q) == LivePlaced(h, q)
    ensures Lives(h')
  {
    forall q | q in h'.live ensures LiveOk(h', q) {
      assert q != p ==> LiveOk(h, q);
    }
  }

  /** Lists, partition and arenas after taking the front block. */
  lemma TakeStructure(h: Heap, d: nat, size: nat, spare: nat)
    requires Inv(h, spare) && d < DESC_CNT && h.free[d] != []
    requires h.free[d][0].page in h.arenas && h.arenas[h.free[d][0].page].Small?
    requires h.arenas[h.free[d][0].page].freeCnt > 0 && h.arenas[h.free[d][0].page].desc == d
    ensures Arenas(Take(h, d, size)) && Lists(Take(h, d, size)) && Partition(Take(h, d, size))
  {
    var h' := Take(h, d, size);
    TakeArenas(h, d, size);
    SameArenasKeep(h, h');
    TakeLists(h, h', d, h.free[d][0]);
  }

  lemma TakeArenas(h: Heap, d: nat, size: nat)
    requires d < |h.free| && h.free[d] != [] && h.free[d][0].page in h.arenas
    requires h.arenas[h.free[d][0].page].Small? && h.arenas[h.free[d][0].page].freeCnt > 0
    requires h.arenas[h.free[d][0].page].desc == d
    ensures SameArenas(h, Take(h, d, size))
  {
  }

  lemma TakeLiveOnes(h: Heap, d: nat, size: nat, spare: nat)
    requires Inv(h, spare) && d < DESC_CNT && h.free[d] != [] && 0 < size <= h.sizes[d]
    requires Gridded(h, h.free[d][0])
    requires h.arenas[h.free[d][0].page].freeCnt > 0 && h.arenas[h.free[d][0].page].desc == d
    ensures Lives(Take(h, d, size))
  {
    var h' := Take(h, d, size);
    SameArenasKeep(h, h');
    TakeLives(h, h', h.free[d][0], size);
  }

  lemma TakeKeeps(h: Heap, d: nat, size: nat, spare: nat)
    requires Inv(h, spare) && d < DESC_CNT && h.free[d] != [] && 0 < size <= h.sizes[d]
    requires spare == 0 || spare == h.free[d][0].page
    ensures h.free[d][0].page in h.arenas && h.arenas[h.free[d][0].page].Small?
    ensures h.arenas[h.free[d][0].page].freeCnt > 0 && Inv(Take(h, d, size), 0)
  {
    FrontCounted(h, d, spare);
    TakeCounts(h, d, size, spare);
    TakeStructure(h, d, size, spare);
    TakeLiveOnes(h, d, size, spare);
  }

  // ----- a new arena

  /** PAGES unused pages from A on. */
  ghost predicate Fresh(h: Heap, a: nat, pages: nat) {
    && a > 0 && pages > 0
    && forall b :: b in h.arenas ==> a + pages <= b || b + Span(h.arenas[b]) <= a
  }

  /** A new arena's blocks, in the order they are queued. */
  function BlockList(a: nat, n: nat): (q: seq<Ptr>) {
    seq(n, i requires 0 <= i < n => Ptr(a, i))
  }

  lemma BlockListOk(a: nat, n: nat)
    ensures NoDup(BlockList(a, n))
    ensures forall p :: p in BlockList(a, n) <==> p.page == a && p.slot < n
  {
    var q := BlockList(a, n);
    forall p: Ptr | p.page == a && p.slot < n ensures p in q {
      assert q[p.slot] == p;
    }
  }

  function Grow(h: Heap, d: nat, a: nat): Heap
    requires d < |h.free| && d < |h.per|
  {
    h.(free := h.free[d := h.free[d] + BlockList(a, h.per[d])], arenas := h.arenas[a := Small(d, h.per[d])])
  }

  /** No address of a fresh page belongs to an arena, a list or a live block. */
  lemma FreshUnused(h: Heap, a: nat, pages: nat)
    requires Arenas(h) && Lives(h) && Fresh(h, a, pages)
    ensures a !in h.arenas && Ptr(a, 0) !in h.live
    ensures forall p: Ptr :: p.page == a ==> p !in h.live && !Gridded(h, p)
  {
    assert a in h.arenas ==> ArenaOk(h, a);
    forall p: Ptr | p.page == a ensures p !in h.live {
      assert p in h.live ==> LiveOk(h, p);
    }
  }

  lemma GrowArenas(h: Heap, d: nat, a: nat)
    requires Table(h) && Arenas(h) && d < DESC_CNT && Fresh(h, a, 1)
    ensures Arenas(Grow(h, d, a))
  {
    var h' := Grow(h, d, a);
    forall b | b in h'.arenas ensures ArenaOk(h', b) {
      assert b != a ==> ArenaOk(h, b);
    }
    forall b, c | b in h'.arenas && c in h'.arenas && b < c ensures Below(h', b, c) {
      assert b != a && c != a ==> Below(h, b, c);
    }
  }

  lemma GrowGrid(h: Heap, d: nat, a: nat)
    requires Table(h) && Arenas(h) && Lives(h) && d < DESC_CNT && Fresh(h, a, 1)
    ensures forall p :: Gridded(Grow(h, d, a), p) <==> Gridded(h, p) || (p.page == a && p.slot < h.per[d])
    ensures forall p: Ptr :: p.page == a ==> p !in h.live && !Gridded(h, p)
  {
    FreshUnused(h, a, 1);
  }

  lemma GrowLists(h: Heap, d: nat, a: nat)
    requires Table(h) && Arenas(h) && Lists(h) && Lives(h) && d < DESC_CNT && h.free[d] == [] && Fresh(h, a, 1)
    ensures Lists(Grow(h, d, a))
  {
    GrowGrid(h, d, a);
    BlockListOk(a, h.per[d]);
    var h' := Grow(h, d, a);
    assert h'.free[d] == BlockList(a, h.per[d]);
    forall e, p | 0 <= e < |h'.free| && p in h'.free[e] ensures Gridded(h', p) && h'.arenas[p.page].desc == e {
      if e != d {
        assert p in h.free[e];
      }
    }
  }

  lemma GrowPartition(h: Heap, d: nat, a: nat)
    requires Table(h) && Arenas(h) && Partition(h) && Lives(h) && d < DESC_CNT && h.free[d] == [] && Fresh(h, a, 1)
    ensures Partition(Grow(h, d, a))
  {
    GrowGrid(h, d, a);
    BlockListOk(a, h.per[d]);
    var h' := Grow(h, d, a);
    assert h'.free[d] == BlockList(a, h.per[d]);
    forall p | Gridded(h', p) ensures p in h'.free[h'.arenas[p.page].desc] <==> p !in h'.live {
      if p.page != a {
        assert Gridded(h, p);
      }
    }
  }

  /** All blocks of a new arena are on its list. */
  lemma NewCount(h: Heap, d: nat, a: nat)
    requires Table(h) && d < DESC_CNT && h.free[d] == []
    ensures |FreeBlocks(Grow(h, d, a), a)| == h.per[d]
  {
    var n := h.per[d];
    BlockListOk(a, n);
    BlockCount(a, n);
    var h' := Grow(h, d, a);
    assert h'.free[d] == BlockList(a, n);
    forall p | p in FreeBlocks(h', a) ensures p in Blocks(a, n) {
      assert p == Ptr(a, p.slot);
    }
    assert FreeBlocks(h', a) == Blocks(a, n);
  }

  lemma GrowCounts(h: Heap, d: nat, a: nat)
    requires Inv(h, 0) && d < DESC_CNT && h.free[d] == [] && Fresh(h, a, 1)
    ensures Counts(Grow(h, d, a), a)
  {
    NewCount(h, d, a);
    BlockListOk(a, h.per[d]);
    var h' := Grow(h, d, a);
    assert h'.free[d] == BlockList(a, h.per[d]);
    forall b | b in h'.arenas && h'.arenas[b].Small? && h'.arenas[b].desc < |h'.free| &&
      h'.arenas[b].desc < |h'.per| && b != a
      ensures h'.arenas[b].freeCnt == |FreeBlocks(h', b)| && h'.arenas[b].freeCnt < h'.per[h'.arenas[b].desc]
    {
      OtherBlocks(h, h', b, d, a);
    }
  }

  /** Lists that differ only by blocks of arena A show the same free blocks of B. */
  lemma OtherBlocks(h: Heap, h': Heap, b: nat, d: nat, a: nat)
    requires |h.free| == |h'.free| && d < |h.free| && a != b
    requires b in h.arenas && b in h'.arenas && h.arenas[b].Small? && h.arenas[b] == h'.arenas[b] &&
             h.arenas[b].desc < |h.free|
    requires forall e :: 0 <= e < |h.free| && e != d ==> h'.free[e] == h.free[e]
    requires forall p: Ptr :: p.page != a ==> (p in h'.free[d] <==> p in h.free[d])
    ensures FreeBlocks(h', b) == FreeBlocks(h, b)
  {
  }

  lemma GrowKeeps(h: Heap, d: nat, a: nat)
    requires Inv(h, 0) && d < DESC_CNT && h.free[d] == [] && Fresh(h, a, 1)
    ensures Inv(Grow(h, d, a), a)
  {
    GrowArenas(h, d, a);
    GrowLists(h, d, a);
    GrowPartition(h, d, a);
    GrowCounts(h, d, a);
    FreshUnused(h, a, 1);
    var h' := Grow(h, d, a);
    assert Lives(h') by {
      forall p | p in h'.live ensures LiveOk(h', p) {
        assert LiveOk(h, p);
      }
    }
  }
}
