/** Giving blocks and arenas back, and blocks of whole pages. */
module MallocFree {
  import opened Common
  import opened MallocLayout
  import opened MallocInv
  import opened MallocSteps

  // ----- putting a block back on its list

  ghost predicate LiveSmall(h: Heap, p: Ptr) {
    p in h.live && p.page in h.arenas && h.arenas[p.page].Small? && h.arenas[p.page].desc < |h.free|
  }

  function Give(h: Heap, p: Ptr): Heap
    requires p.page in h.arenas && h.arenas[p.page].Small? && h.arenas[p.page].desc < |h.free|
  {
    var d := h.arenas[p.page].desc;
    h.(free := h.free[d := [p] + h.free[d]], arenas := h.arenas[p.page := Small(d, h.arenas[p.page].freeCnt + 1)],
       live := h.live - {p})
  }

  lemma GiveCounts(h: Heap, p: Ptr)
    requires Inv(h, 0) && LiveSmall(h, p)
    ensures Counts(Give(h, p), p.page)
  {
    assert LiveOk(h, p) && ArenaOk(h, p.page);
    var d := h.arenas[p.page].desc;
    var h' := Give(h, p);
    assert FreeBlocks(h', p.page) == FreeBlocks(h, p.page) + {p};
    forall b | b in h'.arenas && h'.arenas[b].Small? && h'.arenas[b].desc < |h'.free| &&
      h'.arenas[b].desc < |h'.per| && b != p.page
      ensures h'.arenas[b].freeCnt == |FreeBlocks(h', b)| && h'.arenas[b].freeCnt < h'.per[h'.arenas[b].desc]
    {
      OtherBlocks(h, h', b, d, p.page);
    }
  }

  lemma GiveLists(h: Heap, p: Ptr)
    requires Inv(h, 0) && LiveSmall(h, p)
    requires forall q :: Gridded(Give(h, p), q) == Gridded(h, q)
    ensures Lists(Give(h, p)) && Partition(Give(h, p))
  {
    assert LiveOk(h, p);
    var d := h.arenas[p.page].desc;
    var h' := Give(h, p);
    assert NoDup([p] + h.free[d]);
    forall e, q | 0 <= e < |h'.free| && q in h'.free[e] ensures Gridded(h', q) && h'.arenas[q.page].desc == e {
      assert q in h.free[e] || (e == d && q == p);
    }
    forall q | Gridded(h', q) ensures q in h'.free[h'.arenas[q.page].desc] <==> q !in h'.live {
      assert Gridded(h, q);
    }
  }

  lemma GiveKeeps(h: Heap, p: Ptr)
    requires Inv(h, 0) && LiveSmall(h, p)
    ensures Inv(Give(h, p), p.page)
  {
    assert LiveOk(h, p);
    var h' := Give(h, p);
    SameArenasKeep(h, h');
    GiveCounts(h, p);
    GiveLists(h, p);
    assert Lives(h') by {
      forall q | q in h'.live ensures LiveOk(h', q) {
        assert LiveOk(h, q);
      }
    }
  }

  // ----- returning an arena

  /** The list without the blocks of page A, in order. */
  function WithoutPage(q: seq<Ptr>, a: nat): (t: seq<Ptr>)
    ensures forall y :: y in t <==> y in q && y.page != a
  {
    if q == [] then [] else if q[0].page == a then WithoutPage(q[1..], a) else [q[0]] + WithoutPage(q[1..], a)
  }

  lemma {:induction false} UnlinkPage(q: seq<Ptr>, x: Ptr)
    ensures WithoutPage(Unlink(q, x), x.page) == WithoutPage(q, x.page)
  {
    if q != [] && q[0] != x {
      UnlinkPage(q[1..], x);
      assert Unlink(q, x)[1..] == Unlink(q[1..], x);
    }
  }

  lemma {:induction false} WithoutPageNone(q: seq<Ptr>, a: nat)
    requires forall y :: y in q ==> y.page != a
    ensures WithoutPage(q, a) == q
  {
    if q != [] {
      assert q[0] in q;
      WithoutPageNone(q[1..], a);
    }
  }

  lemma {:induction false} WithoutPageNoDup(q: seq<Ptr>, a: nat)
    requires NoDup(q)
    ensures NoDup(WithoutPage(q, a))
  {
    if q != [] {
      NoDupTail(q);
      WithoutPageNoDup(q[1..], a);
    }
  }

  function Drop(h: Heap, a: nat): Heap
    requires a in h.arenas && h.arenas[a].Small? && h.arenas[a].desc < |h.free|
  {
    var d := h.arenas[a].desc;
    h.(free := h.free[d := WithoutPage(h.free[d], a)], arenas := h.arenas - {a})
  }

  /** A fully free arena has no block handed out. */
  lemma FullArena(h: Heap, a: nat)
    requires Inv(h, a) && a in h.arenas && h.arenas[a].Small? && h.arenas[a].desc < |h.per| &&
             h.arenas[a].freeCnt == h.per[h.arenas[a].desc]
    ensures forall p: Ptr :: p.page == a ==> p !in h.live
    ensures h.arenas[a].desc < |h.free|
    ensures forall i: nat :: i < h.per[h.arenas[a].desc] ==> Ptr(a, i) in h.free[h.arenas[a].desc]
  {
    assert ArenaOk(h, a);
    var d := h.arenas[a].desc;
    FreeOfArena(h, a);
    forall i: nat | i < h.per[d] ensures Ptr(a, i) in h.free[d] {
      assert Ptr(a, i) in Blocks(a, h.per[d]);
    }
    forall p: Ptr | p.page == a && Gridded(h, p) ensures p in h.free[d] {
      assert p == Ptr(a, p.slot);
    }
    assert forall p: Ptr :: p.page == a && p in h.live ==> LiveOk(h, p);
  }

  lemma DropGrid(h: Heap, a: nat)
    requires a in h.arenas && h.arenas[a].Small? && h.arenas[a].desc < |h.free|
    ensures forall p :: Gridded(Drop(h, a), p) <==> Gridded(h, p) && p.page != a
  {
  }

  lemma DropLists(h: Heap, a: nat)
    requires Lists(h) && a in h.arenas && h.arenas[a].Small? && h.arenas[a].desc < |h.free|
    ensures Lists(Drop(h, a))
  {
    var d := h.arenas[a].desc;
    var h' := Drop(h, a);
    DropGrid(h, a);
    WithoutPageNoDup(h.free[d], a);
    forall e, q | 0 <= e < |h'.free| && q in h'.free[e] ensures Gridded(h', q) && h'.arenas[q.page].desc == e {
      assert q in h.free[e];
    }
  }

  lemma DropPartition(h: Heap, a: nat)
    requires Partition(h) && a in h.arenas && h.arenas[a].Small? && h.arenas[a].desc < |h.free|
    ensures Partition(Drop(h, a))
  {
    var h' := Drop(h, a);
    DropGrid(h, a);
    forall p | Gridded(h', p) && h'.arenas[p.page].desc < |h'.free|
      ensures p in h'.free[h'.arenas[p.page].desc] <==> p !in h'.live
    {
      assert Gridded(h, p);
    }
  }

  lemma FewerArenas(h: Heap, h': Heap, a: nat)
    requires Arenas(h) && h'.arenas == h.arenas - {a} && |h'.free| == |h.free|
    ensures Arenas(h')
  {
    forall b | b in h'.arenas ensures ArenaOk(h', b) {
      assert ArenaOk(h, b);
    }
    forall b, c | b in h'.arenas && c in h'.arenas && b < c ensures Below(h', b, c) {
      assert Below(h, b, c);
    }
  }

  lemma DropCounts(h: Heap, a: nat)
    requires Counts(h, a) && a in h.arenas && h.arenas[a].Small? && h.arenas[a].desc < |h.free| && 0 !in h.arenas
    ensures Counts(Drop(h, a), 0)
  {
    var d := h.arenas[a].desc;
    var h' := Drop(h, a);
    forall b | b in h'.arenas && h'.arenas[b].Small? && h'.arenas[b].desc < |h'.free| && h'.arenas[b].desc < |h'.per|
      ensures h'.arenas[b].freeCnt == |FreeBlocks(h', b)| && h'.arenas[b].freeCnt < h'.per[h'.arenas[b].desc]
    {
      OtherBlocks(h, h', b, d, a);
    }
  }

  /** Blocks of other arenas keep their places. */
  lemma OtherLives(h: Heap, h': Heap, a: nat)
    requires Lives(h) && h'.arenas == h.arenas - {a} && h'.per == h.per && h'.sizes == h.sizes
    requires forall p :: p in h'.live ==> p in h.live && h'.live[p] == h.live[p] && p.page != a
    requires forall b :: b in h'.arenas && h'.arenas[b].Big? ==> Ptr(b, 0) in h'.live
    ensures Lives(h')
  {
    forall p | p in h'.live ensures LiveOk(h', p) {
      assert LiveOk(h, p);
    }
  }

  lemma DropKeeps(h: Heap, a: nat)
    requires Inv(h, a) && a in h.arenas && h.arenas[a].Small? && h.arenas[a].desc < |h.per| &&
             h.arenas[a].freeCnt == h.per[h.arenas[a].desc]
    ensures h.arenas[a].desc < |h.free| && Inv(Drop(h, a), 0)
  {
    assert ArenaOk(h, a);
    FullArena(h, a);
    DropLists(h, a);
    DropPartition(h, a);
    DropCounts(h, a);
    FewerArenas(h, Drop(h, a), a);
    OtherLives(h, Drop(h, a), a);
  }

  // ----- big blocks

  /** Big blocks come and go without touching lists and small arenas. */
  lemma SmallUntouched(h: Heap, h': Heap)
    requires Lists(h) && Partition(h) && Counts(h, 0) && h'.free == h.free && h'.per == h.per && h'.sizes == h.sizes
    requires forall b :: b in h'.arenas && h'.arenas[b].Small? ==> b in h.arenas && h.arenas[b] == h'.arenas[b]
    requires forall b :: b in h.arenas && h.arenas[b].Small? ==> b in h'.arenas && h'.arenas[b] == h.arenas[b]
    requires forall p :: Gridded(h, p) ==> (p in h'.live <==> p in h.live)
    ensures Lists(h') && Partition(h') && Counts(h', 0)
  {
    assert forall p :: Gridded(h', p) == Gridded(h, p);
    forall b | b in h'.arenas && h'.arenas[b].Small? && h'.arenas[b].desc < |h'.free| && h'.arenas[b].desc < |h'.per|
      ensures h'.arenas[b].freeCnt == |FreeBlocks(h', b)| &&
              (b == 0 || h'.arenas[b].freeCnt < h'.per[h'.arenas[b].desc])
    {
      assert FreeBlocks(h', b) == FreeBlocks(h, b);
    }
  }

  function GrowBig(h: Heap, a: nat, pages: nat, size: nat): Heap {
    h.(arenas := h.arenas[a := Big(pages)], live := h.live[Ptr(a, 0) := size])
  }

  lemma GrowBigArenas(h: Heap, a: nat, pages: nat, size: nat)
    requires Arenas(h) && Fresh(h, a, pages)
    ensures Arenas(GrowBig(h, a, pages, size))
  {
    var h' := GrowBig(h, a, pages, size);
    forall b | b in h'.arenas ensures ArenaOk(h', b) {
      assert b != a ==> ArenaOk(h, b);
    }
    forall b, c | b in h'.arenas && c in h'.arenas && b < c ensures Below(h', b, c) {
      assert b != a && c != a ==> Below(h, b, c);
    }
  }

  lemma GrowBigLives(h: Heap, a: nat, size: nat)
    requires Lives(h) && 0 < size < SIZE_LIMIT && a !in h.arenas
    ensures Lives(GrowBig(h, a, PagesFor(size), size))
  {
    var h' := GrowBig(h, a, PagesFor(size), size);
    forall p | p in h'.live ensures LiveOk(h', p) {
      assert p != Ptr(a, 0) ==> LiveOk(h, p);
    }
  }

  lemma GrowBigKeeps(h: Heap, a: nat, size: nat)
    requires Inv(h, 0) && 0 < size < SIZE_LIMIT && Fresh(h, a, PagesFor(size))
    ensures Inv(GrowBig(h, a, PagesFor(size), size), 0)
  {
    FreshUnused(h, a, PagesFor(size));
    GrowBigArenas(h, a, PagesFor(size), size);
    GrowBigLives(h, a, size);
    SmallUntouched(h, GrowBig(h, a, PagesFor(size), size));
  }

  function DropBig(h: Heap, a: nat): Heap {
    h.(arenas := h.arenas - {a}, live := h.live - {Ptr(a, 0)})
  }

  lemma DropBigKeeps(h: Heap, a: nat)
    requires Inv(h, 0) && a in h.arenas && h.arenas[a].Big?
    ensures Inv(DropBig(h, a), 0)
  {
    var h' := DropBig(h, a);
    FewerArenas(h, h', a);
    SmallUntouched(h, h');
    BigLive(h, a);
    OtherLives(h, h', a);
  }

  /** The one block of a big arena. */
  lemma BigLive(h: Heap, a: nat)
    requires Lives(h) && a in h.arenas && h.arenas[a].Big?
    ensures forall p :: p in h.live && p.page == a ==> p == Ptr(a, 0)
  {
    forall p | p in h.live && p.page == a ensures p == Ptr(a, 0) {
      assert LiveOk(h, p);
    }
  }
}
