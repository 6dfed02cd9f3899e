/** Virtual addresses and page table entries: vaddr.h and pte.h. */
module Pte {
  import opened Common
  import opened Bits
  import opened DivMod

  const PHYS_BASE := 0xc000_0000
  const WORD_LIMIT := 0x1_0000_0000
  const USER_PAGES := 0xc_0000      // PHYS_BASE / PGSIZE
  const ENTRIES := 1024

  const PTE_P := 0x1
  const PTE_W := 0x2
  const PTE_U := 0x4
  const PTE_A := 0x20
  const PTE_D := 0x40
  const PTE_ADDR := 0xffff_f000
  const PTMASK := 0x3f_f000

  // ----- words

  lemma Powers()
    ensures Pow2(0) == 1 && Pow2(1) == 2 && Pow2(2) == 4 && Pow2(5) == 0x20 && Pow2(6) == 0x40
    ensures Pow2(10) == 1024 && Pow2(12) == PGSIZE && Pow2(20) == 0x10_0000 && Pow2(22) == 0x40_0000 &&
            Pow2(32) == WORD_LIMIT
  {
    assert Pow2(7) == 128 && Pow2(9) == 512;
    assert Pow2(11) == 2048;
    assert Pow2(14) == 0x4000;
    assert Pow2(17) == 0x2_0000;
    assert Pow2(20) == 0x10_0000;
    assert Pow2(23) == 0x80_0000;
    assert Pow2(26) == 0x400_0000;
    assert Pow2(29) == 0x2000_0000;
  }

  lemma {:induction false} PowIsPower(n: nat)
    ensures Power2(Pow2(n))
  {
    if n > 0 {
      PowIsPower(n - 1);
    }
  }

  lemma HalfDiv(a: nat, n: nat)
    requires n > 0
    ensures a / Pow2(n) == (a / 2) / Pow2(n - 1)
  {
    DivDiv(a, 2, Pow2(n - 1));
  }

  /** Setting low bits leaves the high part alone. */
  lemma {:induction false} OrHigh(a: nat, b: nat, n: nat)
    requires b < Pow2(n)
    ensures Or(a, b) / Pow2(n) == a / Pow2(n)
  {
    if n > 0 {
      OrHigh(a / 2, b / 2, n - 1);
      Halves(a, b);
      HalfDiv(a, n);
      HalfDiv(Or(a, b), n);
    }
  }

  /** ... and so does clearing them. */
  lemma {:induction false} AndNotHigh(a: nat, b: nat, n: nat, w: nat)
    requires a < Pow2(w) && b < Pow2(n) && n <= w && b < Pow2(w)
    ensures And(a, Not(b, w)) / Pow2(n) == a / Pow2(n)
  {
    if n > 0 {
      AndNotHigh(a / 2, b / 2, n - 1, w - 1);
      assert Not(b, w) / 2 == Not(b / 2, w - 1);
      Halves(a, Not(b, w));
      HalfDiv(a, n);
      HalfDiv(And(a, Not(b, w)), n);
    } else {
      PowIsPower(w);
      MaskIsMod(a, Pow2(w));
      DivUnique(a, Pow2(w), 0, a);
    }
  }

  /** Masking off the low N bits rounds down. */
  lemma {:induction false} RoundDown(a: nat, n: nat, w: nat)
    requires a < Pow2(w) && n <= w
    ensures Pow2(n) <= Pow2(w) && And(a, Pow2(w) - Pow2(n)) == a - a % Pow2(n)
  {
    if n < w {
      PowLess(n, w);
    }
    if n == 0 {
      PowIsPower(w);
      MaskIsMod(a, Pow2(w));
      DivUnique(a, Pow2(w), 0, a);
    } else {
      RoundDown(a / 2, n - 1, w - 1);
      var m := Pow2(w) - Pow2(n);
      assert m / 2 == Pow2(w - 1) - Pow2(n - 1) && m % 2 == 0;
      ModDouble(a, Pow2(n - 1));
      EvenMask(a, m);
    }
  }

  lemma {:induction false} EvenMask(a: nat, m: nat)
    requires m % 2 == 0
    ensures And(a, m) == 2 * And(a / 2, m / 2)
  {
  }

  /** A shifted word has no low bits. */
  lemma {:induction false} ShiftedBit(f: nat, n: nat, i: nat)
    requires i < n
    ensures !Bit(Pow2(n) * f, i)
  {
    var h := Pow2(n - 1) * f;
    assert Pow2(n) * f == 2 * h;
    if i > 0 {
      ShiftedBit(f, n - 1, i - 1);
    }
  }

  // ----- addresses

  /** pg_ofs, pt_no and pd_no, as the code computes them. */
  function PgOfs(va: nat): nat { And(va, PGSIZE - 1) }

  function PtNo(va: nat): nat { And(va, PTMASK) / PGSIZE }

  function PdNo(va: nat): nat { va / 0x40_0000 }

  /** The 10/10/12 split loses nothing. */
  lemma SplitAddress(va: nat)
    requires va < WORD_LIMIT
    ensures PdNo(va) < ENTRIES && PtNo(va) < ENTRIES && PgOfs(va) < PGSIZE
    ensures va == PdNo(va) * 0x40_0000 + PtNo(va) * PGSIZE + PgOfs(va)
    ensures PdNo(va) == va / PGSIZE / ENTRIES && PtNo(va) == va / PGSIZE % ENTRIES && PgOfs(va) == va % PGSIZE
  {
    OffsetField(va);
    TableField(va);
    SplitSum(va);
  }

  lemma OffsetField(va: nat)
    ensures PgOfs(va) == va % PGSIZE
  {
    Powers();
    PowIsPower(12);
    MaskIsMod(va, PGSIZE);
  }

  lemma TableField(va: nat)
    ensures PtNo(va) == va / PGSIZE % ENTRIES
  {
    Powers();
    PowIsPower(10);
    MaskIsMod(va / PGSIZE, ENTRIES);
    PtMaskShift();
    ShiftedMask(va, 12, ENTRIES - 1);
    ShrIsDiv(va, 12);
    ShrIsDiv(And(va, PTMASK), 12);
  }

  lemma SplitSum(va: nat)
    requires va < WORD_LIMIT
    ensures va / 0x40_0000 == va / PGSIZE / ENTRIES < ENTRIES
    ensures va == (va / 0x40_0000) * 0x40_0000 + (va / PGSIZE % ENTRIES) * PGSIZE + va % PGSIZE
  {
  }

  /** A >> N. */
  function Shr(a: nat, n: nat): nat {
    if n == 0 then a else Shr(a / 2, n - 1)
  }

  lemma PtMaskShift()
    ensures Shl(1023, 12) == PTMASK
  {
    assert Shl(1023, 2) == 0xffc;
    assert Shl(1023, 4) == 0x3ff0;
    assert Shl(1023, 6) == 0xffc0;
    assert Shl(1023, 8) == 0x3_ff00;
    assert Shl(1023, 10) == 0xf_fc00;
  }

  lemma {:induction false} ShrIsDiv(a: nat, n: nat)
    ensures Shr(a, n) == a / Pow2(n)
  {
    if n > 0 {
      ShrIsDiv(a / 2, n - 1);
      HalfDiv(a, n);
    }
  }

  lemma {:induction false} DoubleMask(a: nat, h: nat)
    ensures And(a, 2 * h) == 2 * And(a / 2, h)
  {
    EvenMask(a, 2 * h);
    assert (2 * h) / 2 == h;
  }

  lemma {:induction false} ShrDouble(x: nat, n: nat)
    requires n > 0
    ensures Shr(2 * x, n) == Shr(x, n - 1)
  {
    assert (2 * x) / 2 == x;
  }

  /** Masking a field and shifting it down is shifting and then masking. */
  lemma {:induction false} ShiftedMask(a: nat, n: nat, m: nat)
    ensures Shr(And(a, Shl(m, n)), n) == And(Shr(a, n), m)
  {
    if n > 0 {
      var h := Shl(m, n - 1);
      ShiftedMask(a / 2, n - 1, m);
      DoubleMask(a, h);
      ShrDouble(And(a / 2, h), n);
    }
  }

  // ----- entries

  type Entry = e: nat | e < WORD_LIMIT

  /** The parts of an entry: the frame it names and its flags. */
  function Frame(e: nat): nat { e / PGSIZE }

  predicate Present(e: nat) { Bit(e, 0) }

  predicate Writable(e: nat) { Bit(e, 1) }

  predicate User(e: nat) { Bit(e, 2) }

  predicate Accessed(e: nat) { Bit(e, 5) }

  predicate Dirty(e: nat) { Bit(e, 6) }

  /** pte_create_user, for the page in frame F; vtop gives its physical address. */
  function PteCreateUser(f: nat, w: bool): nat {
    Or(Or(Or(PGSIZE * f, PTE_P), if w then PTE_W else 0), PTE_U)
  }

  /** pde_create, for the page table in frame F. */
  function PdeCreate(f: nat): nat {
    Or(Or(Or(PGSIZE * f, PTE_U), PTE_P), PTE_W)
  }

  /** Or with a one-bit flag. */
  lemma SetFlag(e: nat, i: nat)
    requires e < WORD_LIMIT && i < 12
    ensures Or(e, Pow2(i)) < WORD_LIMIT && Frame(Or(e, Pow2(i))) == Frame(e)
    ensures forall j: nat :: Bit(Or(e, Pow2(i)), j) <==> Bit(e, j) || j == i
  {
    Powers();
    PowLess(i, 12);
    PowLess(i, 32);
    OpsFit(e, Pow2(i), 32);
    OrHigh(e, Pow2(i), 12);
    forall j: nat ensures Bit(Or(e, Pow2(i)), j) <==> Bit(e, j) || j == i {
      BitwiseOps(e, Pow2(i), j);
      MaskBit(i, j);
    }
  }

  /** And with the complement of a one-bit flag. */
  lemma ClearFlag(e: nat, i: nat)
    requires e < WORD_LIMIT && i < 12
    ensures Pow2(i) < Pow2(32) == WORD_LIMIT
    ensures And(e, Not(Pow2(i), 32)) < WORD_LIMIT && Frame(And(e, Not(Pow2(i), 32))) == Frame(e)
    ensures forall j: nat :: j < 32 ==> (Bit(And(e, Not(Pow2(i), 32)), j) <==> Bit(e, j) && j != i)
  {
    Powers();
    PowLess(i, 12);
    PowLess(i, 32);
    OpsFit(e, Not(Pow2(i), 32), 32);
    AndNotHigh(e, Pow2(i), 12, 32);
    forall j: nat | j < 32 ensures Bit(And(e, Not(Pow2(i), 32)), j) <==> Bit(e, j) && j != i {
      BitwiseOps(e, Not(Pow2(i), 32), j);
      NotBit(Pow2(i), 32, j);
      MaskBit(i, j);
    }
  }

  lemma ZeroFlag(e: nat)
    ensures Or(e, 0) == e
  {
  }

  /** A frame's address before flags are added. */
  lemma FrameWord(f: nat)
    requires f < 0x10_0000
    ensures PGSIZE * f < WORD_LIMIT && Frame(PGSIZE * f) == f && forall j: nat :: j < 12 ==> !Bit(PGSIZE * f, j)
  {
    Powers();
    forall j: nat | j < 12 ensures !Bit(PGSIZE * f, j) {
      ShiftedBit(f, 12, j);
    }
  }

  /** What pte_create_user encodes can be read back. */
  lemma PteRoundTrip(f: nat, w: bool)
    requires f < 0x10_0000
    ensures var e := PteCreateUser(f, w);
            && e < WORD_LIMIT && Frame(e) == f && Present(e) && User(e) && (Writable(e) <==> w)
            && !Accessed(e) && !Dirty(e)
  {
    Powers();
    FrameWord(f);
    var a := PGSIZE * f;
    SetFlag(a, 0);
    var b := Or(a, PTE_P);
    ZeroFlag(b);
    SetFlag(b, 1);
    var c := Or(b, if w then PTE_W else 0);
    SetFlag(c, 2);
  }

  lemma PdeRoundTrip(f: nat)
    requires f < 0x10_0000
    ensures var e := PdeCreate(f); 0 < e < WORD_LIMIT && Frame(e) == f && Present(e) && User(e) && Writable(e)
  {
    Powers();
    FrameWord(f);
    var a := PGSIZE * f;
    SetFlag(a, 2);
    SetFlag(Or(a, PTE_U), 0);
    SetFlag(Or(Or(a, PTE_U), PTE_P), 1);
    ZeroBit(0);
  }

  /** pte_get_page and pde_get_pt: the address bits name the frame. */
  lemma AddressBits(e: nat)
    requires e < WORD_LIMIT
    ensures And(e, PTE_ADDR) == PGSIZE * Frame(e)
  {
    Powers();
    RoundDown(e, 12, 32);
  }
}
