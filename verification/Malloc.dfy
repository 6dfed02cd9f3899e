/** malloc, free and realloc as code over the allocator's variables. */
module Malloc {
  import opened Common
  import opened MallocLayout
  import opened MallocInv
  import opened MallocSteps
  import opened MallocFree

  /** The descriptors are the ones malloc_init makes. */
  ghost predicate Tables(h: Heap) {
    |h.sizes| == |h.per| == DESC_CNT &&
    forall d :: 0 <= d < DESC_CNT ==> h.sizes[d] == BlockSize(d) && h.per[d] == PerArena(d)
  }

  /** The smallest descriptor whose blocks hold SIZE bytes, or DESC_CNT. */
  function DescFor(size: nat, d: nat): (r: nat)
    requires d <= DESC_CNT
    ensures d <= r <= DESC_CNT
    ensures r < DESC_CNT ==> BlockSize(r) >= size
    ensures forall e :: d <= e < r ==> BlockSize(e) < size
    decreases DESC_CNT - d
  {
    if d < DESC_CNT && BlockSize(d) < size then DescFor(size, d + 1) else d
  }

  /** Pages a request for SIZE bytes may take from the page allocator. */
  function PagesNeeded(size: nat): nat {
    if DescFor(size, 0) < DESC_CNT then 1 else PagesFor(size)
  }

  /** malloc finds a block: a free one, or pages for it. */
  predicate Obtains(h: Heap, size: nat, page: Option<nat>) {
    && size > 0
    && ((DescFor(size, 0) < |h.free| && h.free[DescFor(size, 0)] != []) || (page.Some? && PagesNeeded(size) > 0))
  }

  /** Block P of H', asked for with SIZE, is of the smallest kind that holds SIZE; a
      new arena, at PAGE, is made for it only if no such block was free in H. */
  ghost predicate Thrifty(h: Heap, h': Heap, p: Ptr, size: nat, page: Option<nat>) {
    var d := DescFor(size, 0);
    && p.page in h'.arenas
    && (if d < DESC_CNT then h'.arenas[p.page].Small? && h'.arenas[p.page].desc == d
        else h'.arenas[p.page] == Big(PagesFor(size)))
    && (if d < |h.free| && h.free[d] != [] then h'.arenas.Keys == h.arenas.Keys
        else page == Some(p.page) && p.page !in h.arenas && h'.arenas.Keys == h.arenas.Keys + {p.page})
  }

  /** A byte of memory; MEM records the bytes written so far. */
  function ByteAt(mem: map<nat, int>, x: nat): int {
    if x in mem then mem[x] else 0
  }

  function Bytes(mem: map<nat, int>, x: nat, n: nat): seq<int> {
    seq(n, k requires 0 <= k < n => ByteAt(mem, x + k))
  }

  /** Bytes outside [lo, hi) are as before. */
  ghost predicate SameOutside(mem: map<nat, int>, mem': map<nat, int>, lo: nat, hi: int) {
    forall x: nat :: x < lo || x >= hi ==> ByteAt(mem', x) == ByteAt(mem, x)
  }

  /** Bytes away from what was written are as before. */
  lemma BytesKept(mem: map<nat, int>, mem': map<nat, int>, lo: nat, hi: int, x: nat, n: nat)
    requires SameOutside(mem, mem', lo, hi) && (x + n <= lo || hi <= x)
    ensures Bytes(mem', x, n) == Bytes(mem, x, n)
  {
    forall k | 0 <= k < n ensures Bytes(mem', x, n)[k] == Bytes(mem, x, n)[k] {
      assert ByteAt(mem', x + k) == ByteAt(mem, x + k);
    }
  }

  /** One more byte. */
  lemma BytesNext(mem: map<nat, int>, x: nat, n: nat)
    ensures Bytes(mem, x, n + 1) == Bytes(mem, x, n) + [ByteAt(mem, x + n)]
  {
  }

  // ----- what the invariant means for callers

  /** The pointer malloc returns for block P. */
  function Linear(h: Heap, p: Ptr): nat
    requires p.page in h.arenas
  {
    match h.arenas[p.page]
    case Small(d, _) => if d < DESC_CNT then Address(p.page, d, p.slot) else 0
    case Big(_) => PGSIZE * p.page + HEADER
  }

  /** The block at address X: its arena starts the page, and its index is the
      distance from the header in blocks. */
  function BlockAt(h: Heap, x: nat): Ptr {
    var a, ofs := x / PGSIZE, x % PGSIZE;
    if a in h.arenas && h.arenas[a].Small? && h.arenas[a].desc < DESC_CNT && ofs >= HEADER
    then Ptr(a, Index(h.arenas[a].desc, ofs - HEADER)) else Ptr(a, 0)
  }

  /** X was returned by malloc and not freed since. */
  ghost predicate IsLive(h: Heap, x: nat) {
    var p := BlockAt(h, x);
    p in h.live && p.page in h.arenas && Linear(h, p) == x
  }

  /** What block_to_arena asserts of the address of a block. */
  ghost predicate Aligned(h: Heap, x: nat) {
    var a, ofs := x / PGSIZE, x % PGSIZE;
    && a > 0 && a in h.arenas && ofs >= HEADER
    && match h.arenas[a]
       case Small(d, _) => d < DESC_CNT && (ofs - HEADER) % BlockSize(d) == 0
       case Big(_) => ofs == HEADER
  }

  /** Rounding the address of a block handed out finds its arena, all assertions of
      block_to_arena hold, and no two blocks share an address. */
  lemma BlockAtLinear(h: Heap, p: Ptr)
    requires Tables(h) && Inv(h, 0) && p in h.live
    ensures p.page in h.arenas && BlockAt(h, Linear(h, p)) == p && IsLive(h, Linear(h, p)) && Aligned(h, Linear(h, p))
  {
    assert LiveOk(h, p) && ArenaOk(h, p.page);
    if h.arenas[p.page].Small? {
      AddressInverts(p.page, h.arenas[p.page].desc, p.slot);
      IndexIs(h.arenas[p.page].desc, Linear(h, p) % PGSIZE - HEADER);
    } else {
      PageOffset(p.page, HEADER);
    }
  }

  ghost predicate Overlap(x: nat, n: int, y: nat, m: int) {
    x < y + m && y < x + n
  }

  /** A block lies inside the pages of its arena, behind the header. */
  lemma InsideArena(h: Heap, p: Ptr)
    requires Tables(h) && Inv(h, 0) && p in h.live
    ensures p.page in h.arenas
    ensures PGSIZE * p.page + HEADER <= Linear(h, p)
    ensures Capacity(h, p) > 0 && Linear(h, p) + Capacity(h, p) <= PGSIZE * (p.page + Span(h.arenas[p.page]))
  {
    assert LiveOk(h, p) && ArenaOk(h, p.page);
    if h.arenas[p.page].Small? {
      AddressInverts(p.page, h.arenas[p.page].desc, p.slot);
    }
  }

  /** Blocks handed out overlap neither each other nor any arena header. */
  lemma LiveDisjoint(h: Heap, p: Ptr, q: Ptr)
    requires Tables(h) && Inv(h, 0) && p in h.live && q in h.live && p != q
    ensures p.page in h.arenas && q.page in h.arenas
    ensures !Overlap(Linear(h, p), Capacity(h, p), Linear(h, q), Capacity(h, q))
  {
    InsideArena(h, p);
    InsideArena(h, q);
    assert LiveOk(h, p) && LiveOk(h, q);
    if p.page == q.page {
      var d := h.arenas[p.page].desc;
      if p.slot < q.slot {
        OffsetsApart(d, p.slot, q.slot);
      } else {
        OffsetsApart(d, q.slot, p.slot);
      }
    } else if p.page < q.page {
      assert Below(h, p.page, q.page);
    } else {
      assert Below(h, q.page, p.page);
    }
  }

  lemma LiveOffHeaders(h: Heap, p: Ptr, a: nat)
    requires Tables(h) && Inv(h, 0) && p in h.live && a in h.arenas
    ensures p.page in h.arenas && !Overlap(Linear(h, p), Capacity(h, p), PGSIZE * a, HEADER)
  {
    InsideArena(h, p);
    assert ArenaOk(h, a);
    if p.page < a {
      assert Below(h, p.page, a);
    } else if a < p.page {
      assert Below(h, a, p.page);
    }
  }

  /** Block P keeps its address and its capacity. */
  ghost predicate Undisturbed(h: Heap, h': Heap, p: Ptr) {
    p.page in h.arenas && p.page in h'.arenas && Linear(h', p) == Linear(h, p) && Capacity(h', p) == Capacity(h, p)
  }

  /** Arenas that keep their kind leave their blocks undisturbed. */
  lemma SameShape(h: Heap, h': Heap, spare: nat, a: nat)
    requires Inv(h, spare) && h'.sizes == h.sizes
    requires forall b :: b in h.arenas && b != a ==> b in h'.arenas && h'.arenas[b] == h.arenas[b]
    requires a in h.arenas && a in h'.arenas ==>
               h.arenas[a].Small? && h'.arenas[a].Small? && h.arenas[a].desc == h'.arenas[a].desc
    ensures forall q :: q in h.live && q.page in h'.arenas ==> Undisturbed(h, h', q)
    ensures forall q :: q in h.live && q.page != a ==> Undisturbed(h, h', q)
  {
    assert forall q :: q in h.live ==> LiveOk(h, q);
  }

  /** A block has at least the bytes asked for exactly when the size plus the
      header fits in 32 bits. */
  lemma SizeHonoured(h: Heap, p: Ptr)
    requires Tables(h) && Inv(h, 0) && p in h.live
    ensures p.page in h.arenas
    ensures Capacity(h, p) >= h.live[p] <==> h.live[p] + HEADER <= SIZE_LIMIT
  {
    assert LiveOk(h, p) && ArenaOk(h, p.page);
    PagesForEnough(h.live[p]);
  }

  /** The largest request gets one page. */
  lemma HugeRequest(h: Heap, p: Ptr)
    requires Tables(h) && Inv(h, 0) && p in h.live && h.live[p] == SIZE_LIMIT - 1
    ensures p.page in h.arenas && Capacity(h, p) == PGSIZE - HEADER
  {
    assert LiveOk(h, p) && ArenaOk(h, p.page);
    PagesForEnough(h.live[p]);
  }

  // ----- the operations as a whole

  /** malloc from a list that is not empty. */
  lemma PopFacts(h: Heap, d: nat, size: nat, spare: nat)
    requires Inv(h, spare) && d < DESC_CNT && h.free[d] != [] && 0 < size <= h.sizes[d]
    requires spare == 0 || spare == h.free[d][0].page
    ensures var p := h.free[d][0];
            && p.page in h.arenas && h.arenas[p.page].Small? && h.arenas[p.page].freeCnt > 0
            && Inv(Take(h, d, size), 0) && Allocated(h, Take(h, d, size), p, size)
  {
    FrontCounted(h, d, spare);
    TakeKeeps(h, d, size, spare);
    PopUndisturbed(h, d, size, spare);
  }

  lemma PopUndisturbed(h: Heap, d: nat, size: nat, spare: nat)
    requires Inv(h, spare) && d < DESC_CNT && h.free[d] != []
    requires h.free[d][0].page in h.arenas && h.arenas[h.free[d][0].page].Small? &&
             h.arenas[h.free[d][0].page].freeCnt > 0
    ensures Allocated(h, Take(h, d, size), h.free[d][0], size)
  {
    var p := h.free[d][0];
    assert p in h.free[d];
    assert Gridded(h, p) && h.arenas[p.page].desc == d;
    SameShape(h, Take(h, d, size), spare, p.page);
    assert forall q :: q in h.live ==> LiveOk(h, q);
  }

  /** malloc with a new arena at page A. */
  lemma GrowFacts(h: Heap, d: nat, a: nat)
    requires Inv(h, 0) && d < DESC_CNT && h.free[d] == [] && Fresh(h, a, 1)
    ensures var g := Grow(h, d, a);
            && Inv(g, a) && g.free[d] == BlockList(a, h.per[d]) && g.live == h.live
            && (forall q :: q in h.live ==> Undisturbed(h, g, q))
  {
    GrowKeeps(h, d, a);
    GrowUndisturbed(h, d, a);
  }

  lemma GrowUndisturbed(h: Heap, d: nat, a: nat)
    requires Inv(h, 0) && d < DESC_CNT && h.free[d] == [] && Fresh(h, a, 1)
    ensures var g := Grow(h, d, a);
            g.free[d] == BlockList(a, h.per[d]) && forall q :: q in h.live ==> Undisturbed(h, g, q)
  {
    FreshUnused(h, a, 1);
    assert h.free[d] + BlockList(a, h.per[d]) == BlockList(a, h.per[d]);
    SameShape(h, Grow(h, d, a), 0, a);
  }

  /** Two steps that leave blocks where they are. */
  lemma AllocatedAfter(h: Heap, g: Heap, f: Heap, p: Ptr, size: nat)
    requires g.live == h.live && (forall q :: q in h.live ==> Undisturbed(h, g, q)) && Allocated(g, f, p, size)
    ensures Allocated(h, f, p, size)
  {
    forall q | q in h.live ensures Undisturbed(h, f, q) {
      assert Undisturbed(h, g, q) && Undisturbed(g, f, q);
    }
  }

  /** malloc from a list that is empty: a new arena at page A and its front block. */
  lemma GrownFacts(h: Heap, d: nat, a: nat, size: nat)
    requires Tables(h) && Inv(h, 0) && d == DescFor(size, 0) < DESC_CNT && 0 < size && h.free[d] == [] && Fresh(h, a, 1)
    ensures var g := Grow(h, d, a); var p := Ptr(a, 0);
            && g.free[d] != [] && g.free[d][0] == p && g.arenas[a].freeCnt > 0
            && Inv(Take(g, d, size), 0) && Allocated(h, Take(g, d, size), p, size)
            && Thrifty(h, Take(g, d, size), p, size, Some(a))
  {
    var g := Grow(h, d, a);
    GrowFacts(h, d, a);
    PopFacts(g, d, size, a);
    AllocatedAfter(h, g, Take(g, d, size), Ptr(a, 0), size);
    FreshUnused(h, a, 1);
  }

  /** free of a block of a page, with the arena returned when it is all free. */
  function Freed(h: Heap, b: Ptr): Heap
    requires b.page in h.arenas && h.arenas[b.page].Small?
    requires h.arenas[b.page].desc < |h.free| && h.arenas[b.page].desc < |h.per|
  {
    var g := Give(h, b);
    if g.arenas[b.page].freeCnt >= h.per[h.arenas[b.page].desc] then Drop(g, b.page) else g
  }

  /** What unlinking one block after another needs: all of the arena is listed. */
  lemma ReadyToDrop(h: Heap, b: Ptr)
    requires Inv(h, 0) && LiveSmall(h, b)
    requires Give(h, b).arenas[b.page].freeCnt >= h.per[h.arenas[b.page].desc]
    ensures var g := Give(h, b); var d := h.arenas[b.page].desc;
            && g.arenas[b.page].freeCnt == g.per[d]
            && NoDup(g.free[d])
            && (forall p :: p in g.free[d] && p.page == b.page ==> p.slot < g.per[d])
            && (forall i: nat :: i < g.per[d] ==> Ptr(b.page, i) in g.free[d])
  {
    GiveKeeps(h, b);
    FreeOfArena(Give(h, b), b.page);
    FullArena(Give(h, b), b.page);
  }

  lemma FreedKeeps(h: Heap, b: Ptr)
    requires Inv(h, 0) && LiveSmall(h, b)
    ensures Inv(Freed(h, b), 0) && Freed(h, b).live == h.live - {b}
  {
    GiveKeeps(h, b);
    var g := Give(h, b);
    if g.arenas[b.page].freeCnt >= h.per[h.arenas[b.page].desc] {
      ReadyToDrop(h, b);
      DropKeeps(g, b.page);
    } else {
      FreeOfArena(g, b.page);
    }
  }

  lemma FreedUndisturbed(h: Heap, b: Ptr)
    requires Inv(h, 0) && LiveSmall(h, b)
    ensures forall q :: q in Freed(h, b).live ==> Undisturbed(h, Freed(h, b), q)
  {
    FreedKeeps(h, b);
    LivesHoused(Freed(h, b));
    SameShape(h, Freed(h, b), 0, b.page);
  }

  lemma LivesHoused(h: Heap)
    requires Lives(h)
    ensures forall q :: q in h.live ==> q.page in h.arenas
  {
    assert forall q :: q in h.live ==> LiveOk(h, q);
  }

  function Min(a: nat, b: nat): nat { if a < b then a else b }

  /** The bytes of block P are as before. */
  ghost predicate Untouched(h: Heap, mem: map<nat, int>, mem': map<nat, int>, p: Ptr) {
    p.page in h.arenas && Capacity(h, p) >= 0 &&
    Bytes(mem', Linear(h, p), Capacity(h, p)) == Bytes(mem, Linear(h, p), Capacity(h, p))
  }

  /** Block P is where it was and holds what it held. */
  ghost predicate Kept(h: Heap, h': Heap, mem: map<nat, int>, mem': map<nat, int>, p: Ptr) {
    Undisturbed(h, h', p) && Untouched(h, mem, mem', p)
  }

  /** P is a block new to H, and the blocks of H are where they were. */
  ghost predicate Allocated(h: Heap, h': Heap, p: Ptr, size: nat) {
    && p !in h.live && p.page in h'.arenas && h'.live == h.live[p := size]
    && forall q {:trigger Undisturbed(h, h', q)} :: q in h.live ==> Undisturbed(h, h', q)
  }

  /** Block B is gone; block P holds what B held, up to the smaller of SIZE and
      B's capacity; all other blocks are kept. */
  ghost predicate Moved(h: Heap, h': Heap, mem: map<nat, int>, mem': map<nat, int>, b: Ptr, p: Ptr, size: nat) {
    && h'.live == h.live - {b}
    && b.page in h.arenas && p.page in h'.arenas && Undisturbed(h, h', p) && Capacity(h, b) > 0
    && (var n := Min(size, Capacity(h, b)); Bytes(mem', Linear(h', p), n) == Bytes(mem, Linear(h, b), n))
    && forall q {:trigger Kept(h, h', mem, mem', q)} :: q in h'.live && q != p ==> Kept(h, h', mem, mem', q)
  }

  /** What realloc (B, SIZE) promises when it returns P. */
  ghost predicate Resized(h: Heap, h': Heap, mem: map<nat, int>, mem': map<nat, int>, b: Ptr, p: Ptr, size: nat) {
    && p !in h.live && h'.live == h.live[p := size] - {b}
    && b.page in h.arenas && p.page in h'.arenas && Capacity(h, b) > 0
    && (var n := Min(size, Capacity(h, b)); Bytes(mem', Linear(h', p), n) == Bytes(mem, Linear(h, b), n))
    && forall q {:trigger Kept(h, h', mem, mem', q)} :: q in h.live && q != b ==> Kept(h, h', mem, mem', q)
  }

  lemma AllocatedThenMoved(h: Heap, g: Heap, f: Heap, mem: map<nat, int>, mem': map<nat, int>, b: Ptr, p: Ptr,
                           size: nat)
    requires b in h.live && Allocated(h, g, p, size) && Moved(g, f, mem, mem', b, p, size)
    ensures Resized(h, f, mem, mem', b, p, size)
  {
    assert Undisturbed(h, g, b);
    forall q | q in h.live && q != b ensures Kept(h, f, mem, mem', q) {
      assert Undisturbed(h, g, q) && Kept(g, f, mem, mem', q);
    }
  }

  /** The copy of realloc would leave the new block. */
  ghost predicate Overruns(h: Heap, x: nat, size: nat) {
    var b := BlockAt(h, x);
    b.page in h.arenas && Capacity(h, b) > 0 && !CopyFits(size, Capacity(h, b))
  }

  /** The block at X is still there after another one is allocated. */
  lemma StillAt(h: Heap, g: Heap, x: nat, p: Ptr, size: nat)
    requires Tables(g) && Inv(g, 0) && IsLive(h, x) && Allocated(h, g, p, size)
    ensures IsLive(g, x) && BlockAt(g, x) == BlockAt(h, x) != p &&
            Capacity(g, BlockAt(h, x)) == Capacity(h, BlockAt(h, x)) > 0
    ensures Linear(g, p) != x
  {
    var b := BlockAt(h, x);
    assert Undisturbed(h, g, b);
    BlockAtLinear(g, b);
    BlockAtLinear(g, p);
    CapacityPositive(g);
  }

  /** So is the new block, at Y, after the old one is released. */
  lemma MovedIsResized(h: Heap, g: Heap, f: Heap, mem: map<nat, int>, mem': map<nat, int>, x: nat, y: nat, size: nat)
    requires Tables(f) && Inv(f, 0) && IsLive(h, x) && IsLive(g, y) && BlockAt(g, x) == BlockAt(h, x) != BlockAt(g, y)
    requires Allocated(h, g, BlockAt(g, y), size) && Moved(g, f, mem, mem', BlockAt(g, x), BlockAt(g, y), size)
    ensures IsLive(f, y) && Resized(h, f, mem, mem', BlockAt(h, x), BlockAt(f, y), size)
  {
    BlockAtLinear(f, BlockAt(g, y));
    AllocatedThenMoved(h, g, f, mem, mem', BlockAt(h, x), BlockAt(g, y), size);
  }

  lemma CapacityPositive(h: Heap)
    requires Tables(h) && Inv(h, 0)
    ensures forall p :: p in h.live ==> p.page in h.arenas && Capacity(h, p) > 0
  {
    forall p | p in h.live ensures p.page in h.arenas && Capacity(h, p) > 0 {
      InsideArena(h, p);
    }
  }

  lemma MoveFacts(h: Heap, b: Ptr, p: Ptr)
    requires Tables(h) && Inv(h, 0) && b in h.live && p in h.live && b != p
    ensures b.page in h.arenas && p.page in h.arenas
    ensures Capacity(h, b) > 0 && Capacity(h, p) > 0
    ensures !Overlap(Linear(h, b), Capacity(h, b), Linear(h, p), Capacity(h, p))
    ensures CopyFits(h.live[p], Capacity(h, b)) <==> Min(h.live[p], Capacity(h, b)) <= Capacity(h, p)
  {
    CapacityPositive(h);
    LiveDisjoint(h, b, p);
    CopyFitsExactly(h, b, p);
  }

  /** realloc's copy to a block of SIZE bytes from one of CAPACITY stays inside. */
  predicate CopyFits(size: nat, capacity: nat) {
    size + HEADER <= SIZE_LIMIT || capacity <= PGSIZE - HEADER
  }

  /** The condition is exact: a size whose sum with the header wraps gets one page,
      too little for a block of more. */
  lemma CopyFitsExactly(h: Heap, b: Ptr, p: Ptr)
    requires Tables(h) && Inv(h, 0) && b in h.live && p in h.live
    ensures b.page in h.arenas && p.page in h.arenas && Capacity(h, b) > 0
    ensures Min(h.live[p], Capacity(h, b)) <= Capacity(h, p) <==> CopyFits(h.live[p], Capacity(h, b))
  {
    CapacityPositive(h);
    SizeHonoured(h, p);
    assert LiveOk(h, p) && LiveOk(h, b);
    PagesForEnough(h.live[p]);
    if h.arenas[b.page].Big? {
      CapacityBelowLimit(h, b);
    }
  }

  /** A big block has fewer than 2^32 - 11 bytes. */
  lemma CapacityBelowLimit(h: Heap, b: Ptr)
    requires b in h.live && b.page in h.arenas && h.arenas[b.page].Big? && LiveOk(h, b)
    ensures Capacity(h, b) + HEADER <= SIZE_LIMIT
  {
  }

  /** Growing a block of 5000 bytes to 2^32 - 1 copies 8180 bytes into a block of
      4084: after malloc the heap has both. */
  lemma OverrunExample(h: Heap)
    requires Inv(h, 0) && h.arenas == map[]
    ensures var g := GrowBig(GrowBig(h, 1, 2, 5000), 3, 1, SIZE_LIMIT - 1);
            && Inv(g, 0) && Ptr(1, 0) in g.live && Ptr(3, 0) in g.live && g.live[Ptr(3, 0)] == SIZE_LIMIT - 1
            && Capacity(g, Ptr(1, 0)) == 8180 && Capacity(g, Ptr(3, 0)) == 4084 && !CopyFits(SIZE_LIMIT - 1, 8180)
  {
    assert PagesFor(5000) == 2;
    GrowBigKeeps(h, 1, 5000);
    SecondBig(GrowBig(h, 1, 2, 5000));
  }

  lemma SecondBig(g: Heap)
    requires Inv(g, 0) && g.arenas == map[1 := Big(2)]
    ensures Inv(GrowBig(g, 3, 1, SIZE_LIMIT - 1), 0)
  {
    assert PagesFor(SIZE_LIMIT - 1) == 1;
    GrowBigKeeps(g, 3, SIZE_LIMIT - 1);
  }

  /** A write of N bytes to block P leaves block Q alone. */
  lemma OthersKept(h: Heap, p: Ptr, q: Ptr, n: nat, mem: map<nat, int>, mem': map<nat, int>)
    requires Tables(h) && Inv(h, 0) && p in h.live && q in h.live && q != p
    requires p.page in h.arenas && n <= Capacity(h, p)
    requires SameOutside(mem, mem', Linear(h, p), Linear(h, p) + n)
    ensures Untouched(h, mem, mem', q)
  {
    CapacityPositive(h);
    LiveDisjoint(h, q, p);
    BytesKept(mem, mem', Linear(h, p), Linear(h, p) + n, Linear(h, q), Capacity(h, q));
  }

  /** The copy to block P followed by the release of block B. */
  lemma CopiedThenReleased(h: Heap, f: Heap, m0: map<nat, int>, m1: map<nat, int>, m2: map<nat, int>, b: Ptr, p: Ptr,
                           size: nat)
    requires Tables(h) && Inv(h, 0) && b in h.live && p in h.live && b != p && h.live[p] == size
    requires b.page in h.arenas && p.page in h.arenas && Capacity(h, b) > 0 && CopyFits(size, Capacity(h, b))
    requires var n := Min(size, Capacity(h, b));
             SameOutside(m0, m1, Linear(h, p), Linear(h, p) + n) &&
               Bytes(m1, Linear(h, p), n) == Bytes(m0, Linear(h, b), n)
    requires Released(h, f, m1, m2, Some(b))
    ensures Moved(h, f, m0, m2, b, p, size)
  {
    MoveFacts(h, b, p);
    var n := Min(size, Capacity(h, b));
    assert Kept(h, f, m1, m2, p);
    assert Bytes(m2, Linear(h, p), n) == Bytes(m2, Linear(h, p), Capacity(h, p))[..n];
    assert Bytes(m1, Linear(h, p), n) == Bytes(m1, Linear(h, p), Capacity(h, p))[..n];
    forall q | q in f.live && q != p ensures Kept(h, f, m0, m2, q) {
      assert Kept(h, f, m1, m2, q);
      OthersKept(h, p, q, n, m0, m1);
    }
  }

  /** The block, if any, is no longer handed out and all others are kept. */
  ghost predicate Released(h: Heap, h': Heap, mem: map<nat, int>, mem': map<nat, int>, b: Option<Ptr>) {
    && h'.live == (if b.Some? then h.live - {b.value} else h.live)
    && (b.None? ==> h' == h && mem' == mem)
    && forall q {:trigger Kept(h, h', mem, mem', q)} :: q in h'.live ==> Kept(h, h', mem, mem', q)
  }

  /** free writes to no other block. */
  lemma BlockReleased(h: Heap, h': Heap, mem: map<nat, int>, mem': map<nat, int>, b: Ptr)
    requires Tables(h) && Inv(h, 0) && b in h.live && b.page in h.arenas && h'.live == h.live - {b}
    requires SameOutside(mem, mem', Linear(h, b), Linear(h, b) + Capacity(h, b))
    requires forall q :: q in h'.live ==> Undisturbed(h, h', q)
    ensures Released(h, h', mem, mem', Some(b))
  {
    CapacityPositive(h);
    forall q | q in h'.live ensures Kept(h, h', mem, mem', q) {
      assert Undisturbed(h, h', q);
      OthersKept(h, b, q, Capacity(h, b), mem, mem');
    }
  }

  lemma BigReleased(h: Heap, mem: map<nat, int>, b: Ptr)
    requires Tables(h) && Inv(h, 0) && b in h.live && b.page in h.arenas && h.arenas[b.page].Big?
    ensures b == Ptr(b.page, 0) && Inv(DropBig(h, b.page), 0) && Released(h, DropBig(h, b.page), mem, mem, Some(b))
  {
    assert LiveOk(h, b);
    var h' := DropBig(h, b.page);
    DropBigKeeps(h, b.page);
    SameShape(h, h', 0, b.page);
    assert forall q :: q in h'.live ==> LiveOk(h', q);
    BlockReleased(h, h', mem, mem, b);
  }

  lemma NoneReleased(h: Heap, mem: map<nat, int>)
    requires Tables(h) && Inv(h, 0)
    ensures Released(h, h, mem, mem, None)
  {
    CapacityPositive(h);
  }

  class Allocator {
    var sizes: seq<nat>
    var per: seq<nat>
    var free: seq<seq<Ptr>>
    var arenas: map<nat, Arena>
    var mem: map<nat, int>
    ghost var live: map<Ptr, nat>

    ghost function State(): Heap
      reads this
    {
      Heap(sizes, per, free, arenas, live)
    }

    ghost predicate Valid()
      reads this
    {
      Tables(State()) && Inv(State(), 0)
    }

    /** malloc_init. */
    constructor ()
      ensures Valid() && live == map[] && arenas == map[]
    {
      var ss: seq<nat>, ps: seq<nat>, lists: seq<seq<Ptr>> := [], [], [];
      var blockSize := 16;
      while blockSize < PGSIZE / 2
        invariant |ss| == |ps| == |lists| <= DESC_CNT
        invariant blockSize == if |ss| < DESC_CNT then BlockSize(|ss|) else PGSIZE / 2
        invariant forall d :: 0 <= d < |ss| ==> ss[d] == BlockSize(d) && ps[d] == PerArena(d) && lists[d] == []
        decreases DESC_CNT - |ss|
      {
        PerArenaFits(|ss|);
        ss, ps, lists := ss + [blockSize], ps + [(PGSIZE - HEADER) / blockSize], lists + [[]];
        blockSize := blockSize * 2;
      }
      sizes, per, free := ss, ps, lists;
      arenas, live, mem := map[], map[], map[];
    }

    /** The descriptor search of malloc. */
    method FindDesc(size: nat) returns (d: nat)
      requires Valid()
      ensures d == DescFor(size, 0)
    {
      d := 0;
      while d < |sizes| && sizes[d] < size
        invariant d <= DESC_CNT && DescFor(size, d) == DescFor(size, 0)
      {
        d := d + 1;
      }
    }

    /** malloc: a new arena for descriptor D at page A, all blocks queued. */
    method AddArena(d: nat, a: nat)
      requires d < |free| && d < |per| && free[d] == []
      modifies this`free, this`arenas
      ensures State() == Grow(old(State()), d, a)
    {
      arenas := arenas[a := Small(d, per[d])];
      assert BlockList(a, 0) == [] && free[d := []] == free;
      var i := 0;
      while i < per[d]
        invariant 0 <= i <= per[d] && d < |free|
        invariant free == old(free)[d := BlockList(a, i)] && arenas == old(arenas)[a := Small(d, per[d])]
      {
        assert BlockList(a, i) + [Ptr(a, i)] == BlockList(a, i + 1);
        free := free[d := free[d] + [Ptr(a, i)]];
        i := i + 1;
      }
      assert old(free)[d] + BlockList(a, per[d]) == BlockList(a, per[d]);
    }

    /** malloc, where PAGE is what the page allocator would return. */
    method Malloc(size: nat, page: Option<nat>) returns (x: Option<nat>)
      requires Valid() && size < SIZE_LIMIT
      requires page.Some? && PagesNeeded(size) > 0 ==> Fresh(State(), page.value, PagesNeeded(size))
      modifies this`free, this`arenas, this`live
      ensures Valid() && (x.Some? <==> Obtains(old(State()), size, page))
      ensures x.None? ==> State() == old(State())
      ensures x.Some? ==> IsLive(State(), x.value) && Allocated(old(State()), State(), BlockAt(State(), x.value), size)
      ensures x.Some? ==> Thrifty(old(State()), State(), BlockAt(State(), x.value), size, page)
    {
      var p := Obtain(size, page);
      if p.None? {
        return None;
      }
      var y := AddressOf(p.value);
      x := Some(y);
    }

    /** The address of a block: arena_to_block, or just behind the header. */
    method AddressOf(p: Ptr) returns (x: nat)
      requires Valid() && p in live
      ensures IsLive(State(), x) && BlockAt(State(), x) == p
    {
      BlockAtLinear(State(), p);
      x := match arenas[p.page]
           case Small(d, _) => Address(p.page, d, p.slot)
           case Big(_) => PGSIZE * p.page + HEADER;
    }

    /** malloc up to the address of the block. */
    method Obtain(size: nat, page: Option<nat>) returns (p: Option<Ptr>)
      requires Valid() && size < SIZE_LIMIT
      requires page.Some? && PagesNeeded(size) > 0 ==> Fresh(State(), page.value, PagesNeeded(size))
      modifies this`free, this`arenas, this`live
      ensures Valid() && (p.Some? <==> Obtains(old(State()), size, page))
      ensures p.None? ==> State() == old(State())
      ensures p.Some? ==> Allocated(old(State()), State(), p.value, size)
      ensures p.Some? ==> Thrifty(old(State()), State(), p.value, size, page)
    {
      if size == 0 {
        return None;
      }
      var d := FindDesc(size);
      if d == |sizes| {
        p := MallocBig(size, page);
      } else {
        p := MallocSmall(size, d, page);
      }
    }

    /** malloc for a size no descriptor serves. */
    method MallocBig(size: nat, page: Option<nat>) returns (p: Option<Ptr>)
      requires Valid() && 0 < size < SIZE_LIMIT && DescFor(size, 0) == DESC_CNT
      requires page.Some? && PagesFor(size) > 0 ==> Fresh(State(), page.value, PagesFor(size))
      modifies this`arenas, this`live
      ensures Valid()
      ensures p.Some? <==> page.Some? && PagesFor(size) > 0
      ensures p.None? ==> State() == old(State())
      ensures p.Some? ==> Allocated(old(State()), State(), p.value, size)
      ensures p.Some? ==> Thrifty(old(State()), State(), p.value, size, page)
    {
      var pageCnt := PagesFor(size);
      if page.None? || pageCnt == 0 {
        return None;
      }
      GrowBigKeeps(State(), page.value, size);
      FreshUnused(State(), page.value, pageCnt);
      arenas := arenas[page.value := Big(pageCnt)];
      p := Some(Ptr(page.value, 0));
      live := live[p.value := size];
    }

    /** The end of malloc: the front block of list D. */
    method PopBlock(size: nat, d: nat) returns (b: Ptr)
      requires d < |free| && free[d] != [] && free[d][0].page in arenas
      requires arenas[free[d][0].page].Small? && arenas[free[d][0].page].freeCnt > 0
      modifies this`free, this`arenas, this`live
      ensures b == old(free)[d][0] && State() == Take(old(State()), d, size)
    {
      b := free[d][0];
      free := free[d := free[d][1..]];
      arenas := arenas[b.page := Small(d, arenas[b.page].freeCnt - 1)];
      live := live[b := size];
    }

    /** malloc for a size that some descriptor serves. */
    method MallocSmall(size: nat, d: nat, page: Option<nat>) returns (p: Option<Ptr>)
      requires Valid() && d == DescFor(size, 0) < DESC_CNT && 0 < size
      requires page.Some? ==> Fresh(State(), page.value, 1)
      modifies this`free, this`arenas, this`live
      ensures Valid()
      ensures p.Some? <==> old(free)[d] != [] || page.Some?
      ensures p.None? ==> State() == old(State())
      ensures p.Some? ==> Allocated(old(State()), State(), p.value, size)
      ensures p.Some? ==> Thrifty(old(State()), State(), p.value, size, page)
    {
      if free[d] == [] {
        if page.None? {
          return None;
        }
        GrownFacts(State(), d, page.value, size);
        AddArena(d, page.value);
        var b := PopBlock(size, d);
        return Some(b);
      }
      PopFacts(State(), d, size, 0);
      var b := PopBlock(size, d);
      p := Some(b);
    }

    /** memset (b, 0xcc, n). */
    method Scribble(lo: nat, n: nat)
      modifies this`mem
      ensures SameOutside(old(mem), mem, lo, lo + n)
      ensures forall x :: lo <= x < lo + n ==> ByteAt(mem, x) == 0xcc
    {
      var i := 0;
      while i < n
        invariant 0 <= i <= n && SameOutside(old(mem), mem, lo, lo + n)
        invariant forall x :: lo <= x < lo + i ==> ByteAt(mem, x) == 0xcc
      {
        ghost var m := mem;
        mem := mem[lo + i := 0xcc];
        i := i + 1;
        forall x | lo <= x < lo + i ensures ByteAt(mem, x) == 0xcc {
          assert x < lo + i - 1 ==> ByteAt(m, x) == 0xcc;
        }
      }
    }

    /** free: takes the blocks of arena A off list D one by one. */
    method UnlinkAll(d: nat, a: nat)
      requires d < |free| && d < |per| && NoDup(free[d])
      requires forall p :: p in free[d] && p.page == a ==> p.slot < per[d]
      requires forall i: nat :: i < per[d] ==> Ptr(a, i) in free[d]
      modifies this`free
      ensures free == old(free)[d := WithoutPage(old(free)[d], a)]
    {
      ghost var q := free[d];
      var i := 0;
      while i < per[d]
        invariant 0 <= i <= per[d] && |free| == |old(free)|
        invariant free == old(free)[d := free[d]]
        invariant NoDup(free[d]) && WithoutPage(free[d], a) == WithoutPage(q, a)
        invariant forall p :: p in free[d] && p.page == a ==> i <= p.slot < per[d]
      {
        UnlinkMembers(free[d], Ptr(a, i));
        UnlinkPage(free[d], Ptr(a, i));
        free := free[d := Unlink(free[d], Ptr(a, i))];
        i := i + 1;
      }
      WithoutPageNone(free[d], a);
    }

    /** block_to_arena: the arena at the start of the page; its assertions hold. */
    method BlockToArena(x: nat) returns (a: nat)
      requires Valid() && IsLive(State(), x)
      ensures a == BlockAt(State(), x).page && a in arenas && Aligned(State(), x)
    {
      BlockAtLinear(State(), BlockAt(State(), x));
      a := x / PGSIZE;
      assert a != 0 && a in arenas;
      assert arenas[a].Small? ==> (x % PGSIZE - HEADER) % sizes[arenas[a].desc] == 0;
      assert arenas[a].Big? ==> x % PGSIZE == HEADER;
    }

    /** free: the block is no longer handed out; other blocks and all bytes
        outside it are untouched. */
    method Free(x: Option<nat>)
      requires Valid() && (x.Some? ==> IsLive(State(), x.value))
      modifies this`free, this`arenas, this`live, this`mem
      ensures Valid()
      ensures Released(old(State()), State(), old(mem), mem,
                       if x.Some? then Some(BlockAt(old(State()), x.value)) else None)
    {
      if x.None? {
        NoneReleased(State(), mem);
        return;
      }
      var a := BlockToArena(x.value);
      assert LiveOk(State(), BlockAt(State(), x.value)) && ArenaOk(State(), a);
      if arenas[a].Small? {
        IndexIs(arenas[a].desc, x.value % PGSIZE - HEADER);
      }
      if arenas[a].Big? {
        FreeBig(Ptr(a, 0));
      } else {
        FreeSmall(Ptr(a, (x.value % PGSIZE - HEADER) / sizes[arenas[a].desc]));
      }
    }

    /** free for a big block. */
    method FreeBig(b: Ptr)
      requires Valid() && b in live && b.page in arenas && arenas[b.page].Big?
      modifies this`arenas, this`live
      ensures Valid() && Released(old(State()), State(), mem, mem, Some(b))
    {
      BigReleased(State(), mem, b);
      arenas, live := arenas - {b.page}, live - {b};
    }

    /** free for a block of a page. */
    method FreeSmall(b: Ptr)
      requires Valid() && LiveSmall(State(), b)
      modifies this`free, this`arenas, this`live, this`mem
      ensures Valid() && Released(old(State()), State(), old(mem), mem, Some(b))
    {
      ghost var h := State();
      FreedKeeps(h, b);
      FreedUndisturbed(h, b);
      var d := arenas[b.page].desc;
      Scribble(Address(b.page, d, b.slot), sizes[d]);
      BlockReleased(h, Freed(h, b), old(mem), mem, b);
      Requeue(b);
    }

    /** free: the block goes to the front of its list, and the arena back to the
        page allocator if all of it is free. */
    method Requeue(b: Ptr)
      requires Valid() && LiveSmall(State(), b)
      modifies this`free, this`arenas, this`live
      ensures State() == Freed(old(State()), b)
    {
      ghost var h := State();
      var d := arenas[b.page].desc;
      free := free[d := [b] + free[d]];
      arenas := arenas[b.page := Small(d, arenas[b.page].freeCnt + 1)];
      live := live - {b};
      assert State() == Give(h, b);
      if arenas[b.page].freeCnt >= per[d] {
        ReadyToDrop(h, b);
        assert arenas[b.page].freeCnt == per[d];
        UnlinkAll(d, b.page);
        arenas := arenas - {b.page};
        assert State() == Drop(Give(h, b), b.page);
      }
    }

    /** memcpy (dst, src, n) between blocks that do not overlap. */
    method Copy(dst: nat, src: nat, n: nat)
      requires dst + n <= src || src + n <= dst
      modifies this`mem
      ensures SameOutside(old(mem), mem, dst, dst + n)
      ensures Bytes(mem, dst, n) == Bytes(old(mem), src, n)
    {
      var i := 0;
      while i < n
        invariant 0 <= i <= n && SameOutside(old(mem), mem, dst, dst + n)
        invariant Bytes(mem, dst, i) == Bytes(old(mem), src, i)
      {
        ghost var before := mem;
        assert ByteAt(mem, src + i) == ByteAt(old(mem), src + i);
        mem := mem[dst + i := ByteAt(mem, src + i)];
        BytesKept(before, mem, dst + i, dst + i + 1, dst, i);
        BytesNext(mem, dst, i);
        BytesNext(old(mem), src, i);
        i := i + 1;
      }
    }

    /** block_size. */
    method SizeOf(x: nat) returns (size: nat)
      requires Valid() && IsLive(State(), x)
      ensures BlockAt(State(), x).page in arenas && size == Capacity(State(), BlockAt(State(), x))
    {
      var a := BlockToArena(x);
      CapacityPositive(State());
      size := match arenas[a]
              case Small(d, _) => sizes[d]
              case Big(n) => PGSIZE * n - x % PGSIZE;
    }

    /** realloc once the new block, at Y, is there. */
    method Move(x: nat, y: nat, newSize: nat, n: nat)
      requires Valid() && IsLive(State(), x) && IsLive(State(), y) && x != y && live[BlockAt(State(), y)] == newSize
      requires var b := BlockAt(State(), x);
               b.page in arenas && Capacity(State(), b) > 0 && CopyFits(newSize, Capacity(State(), b)) &&
                 n == Min(newSize, Capacity(State(), b))
      modifies this`free, this`arenas, this`live, this`mem
      ensures Valid() &&
              Moved(old(State()), State(), old(mem), mem, BlockAt(old(State()), x), BlockAt(old(State()), y), newSize)
    {
      ghost var h := State();
      ghost var b, p := BlockAt(h, x), BlockAt(h, y);
      MoveFacts(h, b, p);
      Copy(y, x, n);
      ghost var mid := mem;
      Free(Some(x));
      CopiedThenReleased(h, State(), old(mem), mid, mem, b, p, newSize);
    }

    /** The end of realloc, with the new block at Y; H is the heap before it. When the
        copy would leave the new block, OVERRUN is true and the model stops before
        it. */
    method Finish(x: nat, y: nat, newSize: nat, ghost h: Heap) returns (overrun: bool)
      requires Valid() && IsLive(h, x) && IsLive(State(), y)
      requires Allocated(h, State(), BlockAt(State(), y), newSize)
      modifies this`free, this`arenas, this`live, this`mem
      ensures Valid() && IsLive(State(), y) && (overrun <==> Overruns(h, x, newSize))
      ensures !overrun ==> Resized(h, State(), old(mem), mem, BlockAt(h, x), BlockAt(State(), y), newSize)
    {
      StillAt(h, State(), x, BlockAt(State(), y), newSize);
      var oldSize := SizeOf(x);
      overrun := !CopyFits(newSize, oldSize);
      if !overrun {
        Move(x, y, newSize, Min(newSize, oldSize));
        MovedIsResized(h, old(State()), State(), old(mem), mem, x, y, newSize);
      }
    }

    /** realloc: with a null block it is malloc, with size zero it is free, and
        otherwise the contents up to the smaller size move to a new block. */
    method Realloc(x: Option<nat>, newSize: nat, page: Option<nat>) returns (y: Option<nat>, overrun: bool)
      requires Valid() && (x.Some? ==> IsLive(State(), x.value)) && newSize < SIZE_LIMIT
      requires page.Some? && PagesNeeded(newSize) > 0 ==> Fresh(State(), page.value, PagesNeeded(newSize))
      modifies this`free, this`arenas, this`live, this`mem
      ensures Valid() && (y.Some? <==> Obtains(old(State()), newSize, page))
      ensures overrun <==> y.Some? && x.Some? && Overruns(old(State()), x.value, newSize)
      ensures newSize == 0 ==>
                Released(old(State()), State(), old(mem), mem,
                         if x.Some? then Some(BlockAt(old(State()), x.value)) else None)
      ensures newSize > 0 && y.None? ==> State() == old(State()) && mem == old(mem)
      ensures y.Some? ==> IsLive(State(), y.value)
      ensures y.Some? && x.Some? && !overrun ==>
                Resized(old(State()), State(), old(mem), mem, BlockAt(old(State()), x.value),
                        BlockAt(State(), y.value), newSize)
      ensures y.Some? && x.None? ==>
                mem == old(mem) && Allocated(old(State()), State(), BlockAt(State(), y.value), newSize)
    {
      y, overrun := None, false;
      if newSize == 0 {
        Free(x);
        return;
      }
      y := Malloc(newSize, page);
      if x.Some? && y.Some? {
        overrun := Finish(x.value, y.value, newSize, old(State()));
      }
    }
  }
}
