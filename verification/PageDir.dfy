/** Page directories: userprog/pagedir.c. */
module PageDir {
  import opened Common
  import opened Bits
  import opened Pte

  type Table = seq<Entry>

  /** A page directory and the page tables it points to, by frame number. */
  datatype Dir = Dir(pd: Table, tables: map<nat, Table>)

  /** What a page maps to. */
  datatype Mapping = Mapping(frame: nat, writable: bool)

  /** The table with entry J set to E. */
  function SetAt(t: Table, j: nat, e: Entry): Table
    requires j < |t|
  {
    t[j := e]
  }

  /** A directory entry in use points to a table of its own; in the user half it lets
      user code through, to read and to write. */
  ghost predicate PdeOk(d: Dir, i: nat)
    requires i < |d.pd|
  {
    d.pd[i] != 0 ==>
      && Present(d.pd[i]) && Frame(d.pd[i]) in d.tables && |d.tables[Frame(d.pd[i])]| == ENTRIES
      && (i < PdNo(PHYS_BASE) ==> User(d.pd[i]) && Writable(d.pd[i]))
  }

  ghost predicate Apart(d: Dir, i: nat, j: nat)
    requires i < |d.pd| && j < |d.pd|
  {
    i != j && d.pd[i] != 0 && d.pd[j] != 0 ==> Frame(d.pd[i]) != Frame(d.pd[j])
  }

  ghost predicate DirOk(d: Dir) {
    && |d.pd| == ENTRIES
    && (forall i :: 0 <= i < ENTRIES ==> PdeOk(d, i))
    && (forall i, j :: 0 <= i < ENTRIES && 0 <= j < ENTRIES ==> Apart(d, i, j))
  }

  /** The entry of page PN, zero if it has no page table. */
  ghost function PteOf(d: Dir, pn: nat): nat
    requires DirOk(d) && pn < ENTRIES * ENTRIES
  {
    var e := d.pd[pn / ENTRIES];
    if e == 0 then 0 else assert PdeOk(d, pn / ENTRIES); d.tables[Frame(e)][pn % ENTRIES]
  }

  /** The directory as a partial map from page numbers. */
  ghost function Lookup(d: Dir, pn: nat): Option<Mapping>
    requires DirOk(d) && pn < ENTRIES * ENTRIES
  {
    var e := PteOf(d, pn);
    if Present(e) then Some(Mapping(Frame(e), Writable(e))) else None
  }

  /** What the processor lets user code do with page PN: the flags of both levels
      must allow it. */
  ghost function Reach(d: Dir, pn: nat): Option<Mapping>
    requires DirOk(d) && pn < ENTRIES * ENTRIES
  {
    var t, e := d.pd[pn / ENTRIES], PteOf(d, pn);
    if Present(t) && User(t) && Present(e) && User(e) then Some(Mapping(Frame(e), Writable(t) && Writable(e))) else None
  }

  /** Only the entry of page PN changes, to E. */
  ghost predicate OnlyEntry(d: Dir, d': Dir, pn: nat, e: nat) {
    && DirOk(d) && DirOk(d') && pn < ENTRIES * ENTRIES && PteOf(d', pn) == e
    && forall q :: 0 <= q < ENTRIES * ENTRIES && q != pn ==> PteOf(d', q) == PteOf(d, q)
  }

  /** Writing one entry of a table. */
  lemma WriteEntry(d: Dir, pn: nat, e: Entry)
    requires DirOk(d) && pn < ENTRIES * ENTRIES && d.pd[pn / ENTRIES] != 0 && Frame(d.pd[pn / ENTRIES]) in d.tables
    requires |d.tables[Frame(d.pd[pn / ENTRIES])]| == ENTRIES
    ensures var f := Frame(d.pd[pn / ENTRIES]);
            OnlyEntry(d, d.(tables := d.tables[f := SetAt(d.tables[f], pn % ENTRIES, e)]), pn, e)
  {
    var f := Frame(d.pd[pn / ENTRIES]);
    var d' := d.(tables := d.tables[f := SetAt(d.tables[f], pn % ENTRIES, e)]);
    forall i | 0 <= i < ENTRIES ensures PdeOk(d', i) {
      assert PdeOk(d, i);
    }
    forall i, j | 0 <= i < ENTRIES && 0 <= j < ENTRIES ensures Apart(d', i, j) {
      assert Apart(d, i, j);
    }
    forall q | 0 <= q < ENTRIES * ENTRIES && q != pn ensures PteOf(d', q) == PteOf(d, q) {
      assert PdeOk(d, q / ENTRIES) && Apart(d, q / ENTRIES, pn / ENTRIES);
    }
  }

  /** A new, zeroed page table maps nothing. */
  lemma AddTable(d: Dir, i: nat, f: nat)
    requires DirOk(d) && i < ENTRIES && d.pd[i] == 0 && f !in d.tables && f < 0x10_0000
    ensures PdeCreate(f) < WORD_LIMIT
    ensures var d' := d.(pd := d.pd[i := PdeCreate(f)], tables := d.tables[f := seq(ENTRIES, _ => 0)]);
            DirOk(d') && forall q :: 0 <= q < ENTRIES * ENTRIES ==> PteOf(d', q) == PteOf(d, q)
  {
    PdeRoundTrip(f);
    var d' := d.(pd := d.pd[i := PdeCreate(f)], tables := d.tables[f := seq(ENTRIES, _ => 0)]);
    forall k | 0 <= k < ENTRIES ensures PdeOk(d', k) {
      assert PdeOk(d, k);
    }
    forall k, j | 0 <= k < ENTRIES && 0 <= j < ENTRIES ensures Apart(d', k, j) {
      assert Apart(d, k, j) && PdeOk(d, k) && PdeOk(d, j);
    }
    forall q | 0 <= q < ENTRIES * ENTRIES ensures PteOf(d', q) == PteOf(d, q) {
      assert PdeOk(d, q / ENTRIES);
    }
  }

  /** The entries agree on every bit but bit I. */
  ghost predicate OtherBits(e: nat, e': nat, i: nat) {
    forall j: nat :: j < 32 && j != i ==> (Bit(e', j) <==> Bit(e, j))
  }

  /** Directory entry I has a page table, the one in frame T if it had none; no
      other table is new and no other directory entry changes. */
  ghost predicate TableAdded(d: Dir, d': Dir, i: nat, t: Option<nat>) {
    && i < |d.pd| == |d'.pd| && (forall k :: 0 <= k < |d.pd| && k != i ==> d'.pd[k] == d.pd[k])
    && if d.pd[i] != 0 || t.None? then d'.pd[i] == d.pd[i] && d'.tables.Keys == d.tables.Keys
       else d'.pd[i] != 0 && Frame(d'.pd[i]) == t.value && d'.tables.Keys == d.tables.Keys + {t.value} &&
            Present(d'.pd[i]) && User(d'.pd[i]) && Writable(d'.pd[i])
  }

  /** What user code can do once the entry of page PN is set. */
  lemma SetReach(d: Dir, d': Dir, pn: nat, t: Option<nat>, f: nat, w: bool)
    requires DirOk(d) && DirOk(d') && pn < USER_PAGES && TableAdded(d, d', pn / ENTRIES, t) && d'.pd[pn / ENTRIES] != 0
    requires PteOf(d', pn) == PteCreateUser(f, w) && f < 0x4_0000
    requires forall q :: 0 <= q < ENTRIES * ENTRIES && q != pn ==> PteOf(d', q) == PteOf(d, q)
    ensures Reach(d', pn) == Some(Mapping(f, w))
    ensures forall q :: 0 <= q < ENTRIES * ENTRIES && q != pn ==> Reach(d', q) == Reach(d, q)
  {
    PteRoundTrip(f, w);
    assert PdeOk(d', pn / ENTRIES);
    ZeroBit(0);
    forall q | 0 <= q < ENTRIES * ENTRIES && q != pn ensures Reach(d', q) == Reach(d, q) {
      if d.pd[q / ENTRIES] == 0 {
        assert PteOf(d, q) == 0;
      }
    }
  }

  class PageDirectory {
    var pd: Table
    var tables: map<nat, Table>

    ghost function State(): Dir
      reads this
    {
      Dir(pd, tables)
    }

    ghost predicate Valid()
      reads this
    {
      DirOk(State())
    }

    /** pagedir_create: the kernel's entries and no user pages. */
    constructor (kernel: Table, kernelTables: map<nat, Table>)
      requires DirOk(Dir(kernel, kernelTables)) && forall i :: 0 <= i < PdNo(PHYS_BASE) ==> kernel[i] == 0
      ensures Valid() && State() == Dir(kernel, kernelTables)
      ensures forall pn :: 0 <= pn < USER_PAGES ==> Lookup(State(), pn) == None
    {
      pd, tables := kernel, kernelTables;
      new;
      forall pn | 0 <= pn < USER_PAGES ensures Lookup(State(), pn) == None {
        assert pd[pn / ENTRIES] == 0;
        ZeroBit(0);
      }
    }

    /** lookup_page without CREATE: whether VADDR has an entry, and where. */
    method Find(va: nat) returns (found: bool, i: nat, j: nat)
      requires Valid() && va < WORD_LIMIT
      ensures i == va / PGSIZE / ENTRIES < ENTRIES && j == va / PGSIZE % ENTRIES < ENTRIES
      ensures found <==> pd[i] != 0
      ensures found ==> Frame(pd[i]) in tables && |tables[Frame(pd[i])]| == ENTRIES
      ensures found ==> tables[Frame(pd[i])][j] == PteOf(State(), va / PGSIZE)
      ensures !found ==> PteOf(State(), va / PGSIZE) == 0
    {
      SplitAddress(va);
      i, j := PdNo(va), PtNo(va);
      found := pd[i] != 0;
      assert PdeOk(State(), i);
    }

    /** lookup_page with CREATE; NEWTABLE is the frame of the page it allocates. */
    method FindOrCreate(va: nat, newTable: Option<nat>) returns (ok: bool)
      requires Valid() && va < PHYS_BASE
      requires newTable.Some? ==> newTable.value !in tables && newTable.value < 0x10_0000
      modifies this
      ensures Valid() && (ok <==> old(pd)[va / PGSIZE / ENTRIES] != 0 || newTable.Some?)
      ensures ok <==> pd[va / PGSIZE / ENTRIES] != 0
      ensures TableAdded(old(State()), State(), va / PGSIZE / ENTRIES, newTable) && (!ok ==> State() == old(State()))
      ensures forall q :: 0 <= q < ENTRIES * ENTRIES ==> PteOf(State(), q) == old(PteOf(State(), q))
    {
      var found, i, _ := Find(va);
      if found {
        return true;
      }
      if newTable.None? {
        return false;
      }
      AddTable(State(), i, newTable.value);
      PdeRoundTrip(newTable.value);
      pd := pd[i := PdeCreate(newTable.value)];
      tables := tables[newTable.value := seq(ENTRIES, _ => 0)];
      ok := true;
    }

    /** Stores E in the entry of VADDR, which exists. */
    method Store(va: nat, e: Entry)
      requires Valid() && va < WORD_LIMIT && pd[va / PGSIZE / ENTRIES] != 0
      modifies this`tables
      ensures Valid() && OnlyEntry(old(State()), State(), va / PGSIZE, e) && tables.Keys == old(tables).Keys
    {
      var _, i, j := Find(va);
      WriteEntry(State(), va / PGSIZE, e);
      var pt := Frame(pd[i]);
      tables := tables[pt := SetAt(tables[pt], j, e)];
    }

    /** pagedir_set_page: exactly the page UPAGE becomes mapped, for user code to use,
        and neither accessed nor dirty. */
    method SetPage(upage: nat, frame: nat, writable: bool, newTable: Option<nat>) returns (ok: bool)
      requires Valid() && upage % PGSIZE == 0 && upage < PHYS_BASE && frame < 0x4_0000
      requires Lookup(State(), upage / PGSIZE) == None
      requires newTable.Some? ==> newTable.value !in tables && newTable.value < 0x10_0000
      modifies this
      ensures Valid() && (ok <==> old(pd)[upage / PGSIZE / ENTRIES] != 0 || newTable.Some?)
      ensures TableAdded(old(State()), State(), upage / PGSIZE / ENTRIES, newTable) && (!ok ==> State() == old(State()))
      ensures forall q :: 0 <= q < ENTRIES * ENTRIES ==>
                Lookup(State(), q) == if ok && q == upage / PGSIZE then Some(Mapping(frame, writable))
                                      else old(Lookup(State(), q))
      ensures ok ==> Reach(State(), upage / PGSIZE) == Some(Mapping(frame, writable))
      ensures ok ==> var e := PteOf(State(), upage / PGSIZE); User(e) && !Accessed(e) && !Dirty(e)
      ensures forall q :: 0 <= q < ENTRIES * ENTRIES && q != upage / PGSIZE ==>
                PteOf(State(), q) == old(PteOf(State(), q)) && Reach(State(), q) == old(Reach(State(), q))
    {
      ok := FindOrCreate(upage, newTable);
      if ok {
        PteRoundTrip(frame, writable);
        Store(upage, PteCreateUser(frame, writable));
        SetReach(old(State()), State(), upage / PGSIZE, newTable, frame, writable);
      }
    }

    /** pagedir_get_page: the kernel address of the byte at UADDR. */
    method GetPage(uaddr: nat) returns (r: Option<nat>)
      requires Valid() && uaddr < PHYS_BASE
      ensures r == match Lookup(State(), uaddr / PGSIZE)
                   case None => None
                   case Some(m) => Some(PHYS_BASE + PGSIZE * m.frame + uaddr % PGSIZE)
    {
      var found, i, j := Find(uaddr);
      ZeroBit(0);
      if found && And(tables[Frame(pd[i])][j], PTE_P) != 0 {
        var e := tables[Frame(pd[i])][j];
        FlagTest(e, 0);
        AddressBits(e);
        SplitAddress(uaddr);
        return Some(And(e, PTE_ADDR) + PHYS_BASE + PgOfs(uaddr));
      }
      if found {
        FlagTest(tables[Frame(pd[i])][j], 0);
      }
      r := None;
    }

    /** pagedir_clear_page: exactly the page UPAGE becomes unmapped; every other bit
        of every entry stays. */
    method ClearPage(upage: nat)
      requires Valid() && upage % PGSIZE == 0 && upage < PHYS_BASE
      modifies this`tables
      ensures Valid()
      ensures forall q :: 0 <= q < ENTRIES * ENTRIES ==>
                && Lookup(State(), q) == (if q == upage / PGSIZE then None else old(Lookup(State(), q)))
                && OtherBits(old(PteOf(State(), q)), PteOf(State(), q), 0)
    {
      var found, i, j := Find(upage);
      ZeroBit(0);
      if found {
        var e := tables[Frame(pd[i])][j];
        FlagTest(e, 0);
        if And(e, PTE_P) != 0 {
          ClearFlag(e, 0);
          Store(upage, And(e, Not(PTE_P, 32)));
        }
      }
    }

    /** pagedir_set_dirty and pagedir_set_accessed, for the flag with bit number
        BIT: no mapping changes, and only this flag of this page does. */
    method SetFlagOf(vpage: nat, bit: nat, value: bool)
      requires Valid() && vpage < WORD_LIMIT && (bit == 5 || bit == 6)
      modifies this`tables
      ensures Valid()
      ensures forall q :: 0 <= q < ENTRIES * ENTRIES ==> Lookup(State(), q) == old(Lookup(State(), q))
      ensures forall q :: 0 <= q < ENTRIES * ENTRIES && q != vpage / PGSIZE ==>
                PteOf(State(), q) == old(PteOf(State(), q))
      ensures pd[vpage / PGSIZE / ENTRIES] != 0 ==> (Bit(PteOf(State(), vpage / PGSIZE), bit) <==> value)
      ensures OtherBits(old(PteOf(State(), vpage / PGSIZE)), PteOf(State(), vpage / PGSIZE), bit)
    {
      var found, i, j := Find(vpage);
      if found {
        var e := tables[Frame(pd[i])][j];
        Powers();
        if value {
          SetFlag(e, bit);
          Store(vpage, Or(e, if bit == 5 then PTE_A else PTE_D));
        } else {
          ClearFlag(e, bit);
          Store(vpage, And(e, Not(if bit == 5 then PTE_A else PTE_D, 32)));
        }
      }
    }

    /** pagedir_destroy; FREED are the frames given back, in order, and PDFRAME is
        the directory's own. */
    method Destroy(pdFrame: nat) returns (freed: seq<nat>)
      requires Valid()
      ensures freed == FreedUpTo(State(), PdNo(PHYS_BASE)) + [pdFrame]
      ensures Unshared(State(), PdNo(PHYS_BASE)) && OwnFrame(State(), PdNo(PHYS_BASE), pdFrame) ==>
                NoDup(freed) && forall k, x :: PdNo(PHYS_BASE) <= k < ENTRIES && Points(State(), k, x) ==> x !in freed
    {
      if Unshared(State(), PdNo(PHYS_BASE)) && OwnFrame(State(), PdNo(PHYS_BASE), pdFrame) {
        DestroyedOnce(State(), PdNo(PHYS_BASE), pdFrame);
      }
      freed := [];
      var i := 0;
      while i < PdNo(PHYS_BASE)
        invariant i <= PdNo(PHYS_BASE) && freed == FreedUpTo(State(), i)
      {
        assert PdeOk(State(), i);
        FlagTest(pd[i], 0);
        ZeroBit(0);
        if And(pd[i], PTE_P) != 0 {
          var pt := tables[Frame(pd[i])];
          var j := 0;
          while j < ENTRIES
            invariant j <= ENTRIES && freed == FreedUpTo(State(), i) + FreedIn(pt, j)
          {
            FlagTest(pt[j], 0);
            if And(pt[j], PTE_P) != 0 {
              freed := freed + [Frame(pt[j])];
            }
            j := j + 1;
          }
          freed := freed + [Frame(pd[i])];
        }
        i := i + 1;
      }
      freed := freed + [pdFrame];
    }
  }

  /** The frames of the present entries among the first J of a page table. */
  ghost function FreedIn(t: Table, j: nat): seq<nat>
    requires j <= |t|
  {
    if j == 0 then [] else FreedIn(t, j - 1) + if Present(t[j - 1]) then [Frame(t[j - 1])] else []
  }

  /** What destroying the first I directory entries frees: the frames each page
      table maps, then the page table. */
  ghost function FreedUpTo(d: Dir, i: nat): seq<nat>
    requires DirOk(d) && i <= ENTRIES
  {
    if i == 0 then []
    else if d.pd[i - 1] == 0 then FreedUpTo(d, i - 1)
    else
      assert PdeOk(d, i - 1);
      FreedUpTo(d, i - 1) + FreedIn(d.tables[Frame(d.pd[i - 1])], ENTRIES) + [Frame(d.pd[i - 1])]
  }

  /** Testing one flag of an entry. */
  lemma FlagTest(e: nat, i: nat)
    ensures Pow2(0) == PTE_P && (And(e, Pow2(i)) != 0 <==> Bit(e, i))
  {
    TestBit(e, i);
  }

  // ----- what destroying frees

  /** Page PN maps to frame X. */
  ghost predicate Maps(d: Dir, pn: nat, x: nat)
    requires DirOk(d) && pn < ENTRIES * ENTRIES
  {
    Lookup(d, pn).Some? && Lookup(d, pn).value.frame == x
  }

  /** Directory entry K points to the page table in frame X. */
  ghost predicate Points(d: Dir, k: nat, x: nat) {
    k < |d.pd| && d.pd[k] != 0 && Frame(d.pd[k]) == x
  }

  lemma {:induction false} FreedInMembers(t: Table, j: nat, x: nat)
    requires j <= |t|
    ensures x in FreedIn(t, j) <==> exists k :: 0 <= k < j && Present(t[k]) && Frame(t[k]) == x
  {
    if j > 0 {
      FreedInMembers(t, j - 1, x);
    }
  }

  /** Entry J of the page table of directory entry I belongs to page I, J. */
  lemma EntryOfPage(d: Dir, i: nat, j: nat)
    requires DirOk(d) && i < ENTRIES && j < ENTRIES && d.pd[i] != 0
    ensures PdeOk(d, i) && (ENTRIES * i + j) / ENTRIES == i && (ENTRIES * i + j) % ENTRIES == j
    ensures PteOf(d, ENTRIES * i + j) == d.tables[Frame(d.pd[i])][j]
  {
    assert PdeOk(d, i);
  }

  /** Freed are exactly the frames that pages below the limit map to and the page
      tables of the entries below it. */
  lemma {:induction false} FreedMembers(d: Dir, i: nat, x: nat)
    requires DirOk(d) && i <= ENTRIES
    ensures x in FreedUpTo(d, i) <==>
            (exists pn :: 0 <= pn < ENTRIES * i && Maps(d, pn, x)) || (exists k :: 0 <= k < i && Points(d, k, x))
  {
    if i > 0 {
      FreedMembers(d, i - 1, x);
      var e := d.pd[i - 1];
      ZeroBit(0);
      if e == 0 {
        forall pn | ENTRIES * (i - 1) <= pn < ENTRIES * i ensures !Maps(d, pn, x) {
          assert pn / ENTRIES == i - 1;
        }
      } else {
        LastTable(d, i, x);
        assert Points(d, i - 1, Frame(e));
      }
    }
  }

  /** The frames freed for the last page table are the ones its pages map to. */
  lemma LastTable(d: Dir, i: nat, x: nat)
    requires DirOk(d) && 0 < i <= ENTRIES && d.pd[i - 1] != 0
    ensures PdeOk(d, i - 1)
    ensures x in FreedIn(d.tables[Frame(d.pd[i - 1])], ENTRIES) <==>
            exists pn :: ENTRIES * (i - 1) <= pn < ENTRIES * i && Maps(d, pn, x)
  {
    assert PdeOk(d, i - 1);
    var t := d.tables[Frame(d.pd[i - 1])];
    FreedInMembers(t, ENTRIES, x);
    if x in FreedIn(t, ENTRIES) {
      var k :| 0 <= k < ENTRIES && Present(t[k]) && Frame(t[k]) == x;
      EntryOfPage(d, i - 1, k);
      assert Maps(d, ENTRIES * (i - 1) + k, x);
    }
    if pn :| ENTRIES * (i - 1) <= pn < ENTRIES * i && Maps(d, pn, x) {
      var k := pn - ENTRIES * (i - 1);
      EntryOfPage(d, i - 1, k);
      assert Present(t[k]) && Frame(t[k]) == x;
    }
  }

  /** Pages map to frames of their own, which hold no page table. */
  ghost predicate Unshared(d: Dir, n: nat)
    requires DirOk(d) && n <= ENTRIES
  {
    && (forall p, q, x :: 0 <= p < q < ENTRIES * n && Maps(d, p, x) ==> !Maps(d, q, x))
    && (forall p, k, x :: 0 <= p < ENTRIES * n && 0 <= k < ENTRIES && Maps(d, p, x) ==> !Points(d, k, x))
  }

  lemma NoDupConcat(a: seq<nat>, b: seq<nat>)
    requires NoDup(a) && NoDup(b) && forall x :: x in a ==> x !in b
    ensures NoDup(a + b)
  {
    forall i, j | 0 <= i < j < |a + b| ensures (a + b)[i] != (a + b)[j] {
      if i < |a| <= j {
        assert a[i] in a && b[j - |a|] in b;
      }
    }
  }

  lemma {:induction false} FreedInOnce(d: Dir, i: nat, j: nat, n: nat)
    requires DirOk(d) && i < n <= ENTRIES && Unshared(d, n) && d.pd[i] != 0 && j <= ENTRIES
    ensures PdeOk(d, i) && NoDup(FreedIn(d.tables[Frame(d.pd[i])], j))
  {
    assert PdeOk(d, i);
    var t := d.tables[Frame(d.pd[i])];
    if j > 0 {
      FreedInOnce(d, i, j - 1, n);
      if Present(t[j - 1]) {
        var x := Frame(t[j - 1]);
        EntryOfPage(d, i, j - 1);
        assert Maps(d, ENTRIES * i + (j - 1), x);
        FreedInMembers(t, j - 1, x);
        forall k | 0 <= k < j - 1 ensures !(Present(t[k]) && Frame(t[k]) == x) {
          EntryOfPage(d, i, k);
          assert !Maps(d, ENTRIES * i + k, x);
        }
        NoDupPush(FreedIn(t, j - 1), x);
      }
    }
  }

  /** When no frame is shared, nothing is freed twice. */
  lemma {:induction false} FreedOnce(d: Dir, i: nat, n: nat)
    requires DirOk(d) && i <= n <= ENTRIES && Unshared(d, n)
    ensures NoDup(FreedUpTo(d, i))
  {
    if i > 0 {
      FreedOnce(d, i - 1, n);
      if d.pd[i - 1] != 0 {
        assert PdeOk(d, i - 1);
        var a, b, x := FreedUpTo(d, i - 1), FreedIn(d.tables[Frame(d.pd[i - 1])], ENTRIES), Frame(d.pd[i - 1]);
        FreedInOnce(d, i - 1, ENTRIES, n);
        forall y | y in a ensures y !in b {
          FreedMembers(d, i - 1, y);
          LastTable(d, i, y);
        }
        NoDupConcat(a, b);
        FreedMembers(d, i - 1, x);
        LastTable(d, i, x);
        forall k | 0 <= k < i - 1 ensures !Points(d, k, x) {
          assert Apart(d, k, i - 1);
        }
        assert Points(d, i - 1, x);
        NoDupPush(a + b, x);
      }
    }
  }

  /** No page table, and no page below the limit, is in frame X. */
  ghost predicate OwnFrame(d: Dir, n: nat, x: nat)
    requires DirOk(d) && n <= ENTRIES
  {
    (forall p :: 0 <= p < ENTRIES * n ==> !Maps(d, p, x)) && (forall k :: 0 <= k < ENTRIES ==> !Points(d, k, x))
  }

  /** What pagedir_destroy frees in all, the directory's own frame included: no
      frame twice, and no page table of the kernel. */
  lemma DestroyedOnce(d: Dir, n: nat, pdFrame: nat)
    requires DirOk(d) && n <= ENTRIES && Unshared(d, n) && OwnFrame(d, n, pdFrame)
    ensures NoDup(FreedUpTo(d, n) + [pdFrame])
    ensures forall k, x :: n <= k < ENTRIES && Points(d, k, x) ==> x !in FreedUpTo(d, n) + [pdFrame]
  {
    FreedOnce(d, n, n);
    FreedMembers(d, n, pdFrame);
    NoDupPush(FreedUpTo(d, n), pdFrame);
    forall k, x | n <= k < ENTRIES && Points(d, k, x) ensures x !in FreedUpTo(d, n) + [pdFrame] {
      FreedMembers(d, n, x);
      forall j | 0 <= j < n ensures !Points(d, j, x) {
        assert Apart(d, j, k);
      }
    }
  }
}
