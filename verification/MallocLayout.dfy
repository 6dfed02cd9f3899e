/** Addresses inside arenas: where malloc.c puts its blocks. */
module MallocLayout {
  import opened Common

  const HEADER := 12                 // sizeof (struct arena)
  const DESC_CNT := 7
  const SIZE_LIMIT := 0x1_0000_0000  // size_t is 32 bits wide

  /** A block, named by the page number of its arena and its index there; the
      block of a big arena has index 0. */
  datatype Ptr = Ptr(page: nat, slot: nat)

  /** Block sizes of the descriptors malloc_init makes. */
  function BlockSize(d: nat): (s: nat)
    requires d < DESC_CNT
    ensures 16 <= s <= 1024
  {
    if d == 0 then 16 else if d == 1 then 32 else if d == 2 then 64 else if d == 3 then 128
    else if d == 4 then 256 else if d == 5 then 512 else 1024
  }

  /** They double from 16 bytes on and stay below half a page. */
  lemma SizesDouble(d: nat)
    requires d < DESC_CNT
    ensures BlockSize(0) == 16 && BlockSize(d) < PGSIZE / 2
    ensures if d + 1 < DESC_CNT then BlockSize(d + 1) == 2 * BlockSize(d) else 2 * BlockSize(d) >= PGSIZE / 2
  {
  }

  /** Blocks that fit in a page after the header. */
  function PerArena(d: nat): (n: nat)
    requires d < DESC_CNT
    ensures 3 <= n
  {
    if d == 0 then 255 else if d == 1 then 127 else if d == 2 then 63 else if d == 3 then 31
    else if d == 4 then 15 else if d == 5 then 7 else 3
  }

  lemma PerArenaFits(d: nat)
    requires d < DESC_CNT
    ensures PerArena(d) == (PGSIZE - HEADER) / BlockSize(d)
  {
  }

  /** Offset of block I in a page: the address arithmetic of arena_to_block. */
  function Offset(d: nat, i: nat): nat
    requires d < DESC_CNT
  {
    HEADER +
    if d == 0 then 16 * i else if d == 1 then 32 * i else if d == 2 then 64 * i else if d == 3 then 128 * i
    else if d == 4 then 256 * i else if d == 5 then 512 * i else 1024 * i
  }

  /** How many blocks fit in REST bytes. */
  function Index(d: nat, rest: nat): nat
    requires d < DESC_CNT
  {
    if d == 0 then rest / 16 else if d == 1 then rest / 32 else if d == 2 then rest / 64 else if d == 3 then rest / 128
    else if d == 4 then rest / 256 else if d == 5 then rest / 512 else rest / 1024
  }

  lemma IndexIs(d: nat, rest: nat)
    requires d < DESC_CNT
    ensures Index(d, rest) == rest / BlockSize(d)
  {
  }

  /** Byte address of block I of arena page A. */
  function Address(a: nat, d: nat, i: nat): nat
    requires d < DESC_CNT
  {
    PGSIZE * a + Offset(d, i)
  }

  /** block_to_arena inverts arena_to_block: rounding a block's address down to
      its page gives the arena, the alignment assertion holds, and the index is
      the distance from the header in blocks. */
  lemma AddressInverts(a: nat, d: nat, i: nat)
    requires d < DESC_CNT && i < PerArena(d)
    ensures var x := Address(a, d, i);
            && x / PGSIZE == a && x % PGSIZE >= HEADER
            && (x % PGSIZE - HEADER) % BlockSize(d) == 0
            && (x % PGSIZE - HEADER) / BlockSize(d) == i
            && x % PGSIZE + BlockSize(d) <= PGSIZE
  {
    assert Offset(d, i) < PGSIZE;
    PageOffset(a, Offset(d, i));
    if d == 0 {} else if d == 1 {} else if d == 2 {} else if d == 3 {} else if d == 4 {} else if d == 5 {}
  }

  lemma PageOffset(a: nat, x: nat)
    requires x < PGSIZE
    ensures (PGSIZE * a + x) / PGSIZE == a && (PGSIZE * a + x) % PGSIZE == x
  {
  }

  /** Distinct blocks of one arena do not overlap and stay in the page. */
  lemma OffsetsApart(d: nat, i: nat, j: nat)
    requires d < DESC_CNT && i < j < PerArena(d)
    ensures Offset(d, i) + BlockSize(d) <= Offset(d, j) && Offset(d, j) + BlockSize(d) <= PGSIZE
  {
  }

  /** DIV_ROUND_UP (size + sizeof *a, PGSIZE) in 32-bit arithmetic. */
  function PagesFor(size: nat): nat {
    ((size + HEADER) % SIZE_LIMIT + PGSIZE - 1) % SIZE_LIMIT / PGSIZE
  }

  /** A big block is big enough exactly when size + 12 does not wrap; requests
      of the last eleven sizes get a single page, those just below them none. */
  lemma PagesForEnough(size: nat)
    requires 0 < size < SIZE_LIMIT
    ensures PagesFor(size) > 0 ==> (PGSIZE * PagesFor(size) - HEADER >= size <==> size + HEADER <= SIZE_LIMIT)
    ensures size + HEADER > SIZE_LIMIT ==> PagesFor(size) == 1
    ensures size + HEADER + PGSIZE <= SIZE_LIMIT ==>
              size + HEADER <= PGSIZE * PagesFor(size) < size + HEADER + PGSIZE
  {
  }
}
