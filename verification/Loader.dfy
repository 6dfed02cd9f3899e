/** Loading the segments of an executable: userprog/process.c. */
module Loader {
  import opened Common
  import opened Bits
  import opened Pte
  import opened PageDir
  import opened UserMemory

  /** struct Elf32_Phdr, as far as the loader looks at it; all are 32-bit. */
  datatype Phdr = Phdr(kind: Kind, offset: nat, vaddr: nat, filesz: nat, memsz: nat, writable: bool)

  /** p_type: to be loaded, refused, or ignored. */
  datatype Kind = Load | Refused | Ignored

  ghost predicate Words(ph: Phdr) {
    ph.offset < WORD_LIMIT && ph.vaddr < WORD_LIMIT && ph.filesz < WORD_LIMIT && ph.memsz < WORD_LIMIT
  }

  /** Addition of 32-bit numbers. */
  function Sum32(a: nat, b: nat): nat {
    (a + b) % WORD_LIMIT
  }

  /** validate_segment for a file of LEN bytes. */
  predicate Validate(ph: Phdr, len: nat) {
    && PgOfs(ph.offset) == PgOfs(ph.vaddr)
    && ph.offset <= len
    && ph.memsz >= ph.filesz
    && ph.memsz != 0
    && ph.vaddr < PHYS_BASE
    && Sum32(ph.vaddr, ph.memsz) < PHYS_BASE
    && Sum32(ph.vaddr, ph.memsz) >= ph.vaddr
    && ph.vaddr >= PGSIZE
  }

  /** What it accepts: segments that lie, without wrapping, between the first page
      and the kernel. */
  lemma ValidateExact(ph: Phdr, len: nat)
    requires Words(ph)
    ensures Validate(ph, len) <==>
            && ph.offset % PGSIZE == ph.vaddr % PGSIZE && ph.offset <= len && 0 < ph.memsz && ph.filesz <= ph.memsz
            && PGSIZE <= ph.vaddr && ph.vaddr + ph.memsz < PHYS_BASE
  {
    OffsetField(ph.offset);
    OffsetField(ph.vaddr);
  }

  /** ROUND_UP to a page, in 32 bits. */
  function RoundUp32(x: nat): nat {
    Sum32(x, PGSIZE - 1) / PGSIZE * PGSIZE
  }

  /** READ_BYTES and ZERO_BYTES as load computes them. */
  function ReadBytes(ph: Phdr): nat {
    if ph.filesz > 0 then Sum32(ph.vaddr % PGSIZE, ph.filesz) else 0
  }

  function ZeroBytes(ph: Phdr): int {
    if ph.filesz > 0 then RoundUp32(Sum32(ph.vaddr % PGSIZE, ph.memsz)) - ReadBytes(ph)
    else RoundUp32(Sum32(ph.vaddr % PGSIZE, ph.memsz))
  }

  /** No step wraps, load_segment's assertion holds, and the pages end below the
      kernel. */
  lemma SegmentSizes(ph: Phdr, len: nat)
    requires Words(ph) && Validate(ph, len)
    ensures ReadBytes(ph) == if ph.filesz > 0 then ph.vaddr % PGSIZE + ph.filesz else 0
    ensures ZeroBytes(ph) >= 0 && (ReadBytes(ph) + ZeroBytes(ph)) % PGSIZE == 0
    ensures ph.vaddr % PGSIZE + ph.memsz <= ReadBytes(ph) + ZeroBytes(ph) < ph.vaddr % PGSIZE + ph.memsz + PGSIZE
    ensures ph.vaddr - ph.vaddr % PGSIZE + ReadBytes(ph) + ZeroBytes(ph) <= PHYS_BASE
  {
    ValidateExact(ph, len);
    var ofs := ph.vaddr % PGSIZE;
    RoundUpFacts(ofs + ph.memsz);
    assert Sum32(ofs, ph.memsz) == ofs + ph.memsz && Sum32(ofs, ph.filesz) == ofs + ph.filesz;
    SamePage(ph.vaddr, ph.memsz, RoundUp32(ofs + ph.memsz));
  }

  lemma RoundUpFacts(x: nat)
    requires x + PGSIZE <= WORD_LIMIT
    ensures RoundUp32(x) % PGSIZE == 0 && x <= RoundUp32(x) < x + PGSIZE
  {
  }

  /** Whole pages that end less than a page above an address below the kernel. */
  lemma SamePage(vaddr: nat, memsz: nat, bytes: nat)
    requires vaddr + memsz < PHYS_BASE && bytes % PGSIZE == 0 && bytes < vaddr % PGSIZE + memsz + PGSIZE
    ensures vaddr - vaddr % PGSIZE + bytes <= PHYS_BASE
  {
  }

  /** What load passes to load_segment. */
  lemma SegmentCall(ph: Phdr, len: nat)
    requires Words(ph) && Validate(ph, len)
    ensures var file, mem := ph.offset - ph.offset % PGSIZE, ph.vaddr - ph.vaddr % PGSIZE;
            var bytes := ReadBytes(ph) + ZeroBytes(ph);
            && ZeroBytes(ph) >= 0 && file % PGSIZE == 0 && mem % PGSIZE == 0 && bytes % PGSIZE == 0
            && mem + bytes <= PHYS_BASE && mem / PGSIZE == ph.vaddr / PGSIZE
  {
    SegmentSizes(ph, len);
  }

  // ----- memory

  /** Page K of a segment: bytes of the file from OFS, then zeros. */
  function Image(file: seq<Byte>, ofs: nat, read: nat, k: nat): seq<Byte> {
    seq(PGSIZE, j requires 0 <= j < PGSIZE =>
      if PGSIZE * k + j < read && ofs + PGSIZE * k + j < |file| then file[ofs + PGSIZE * k + j] else 0)
  }

  ghost predicate PageIs(m: Memory, file: seq<Byte>, ofs: nat, read: nat, p: nat, k: nat, w: bool) {
    p + k in m && m[p + k] == Page(Image(file, ofs, read, k), w)
  }

  /** N pages from page P are the segment's. */
  ghost predicate Filled(m: Memory, file: seq<Byte>, ofs: nat, read: nat, p: nat, n: nat, w: bool) {
    (read == 0 || ofs + read <= |file|) && forall k :: 0 <= k < n ==> PageIs(m, file, ofs, read, p, k, w)
  }

  /** Byte X of the segment: of the file up to FILESZ, zero after that. */
  ghost predicate ByteLoaded(m: Memory, file: seq<Byte>, ph: Phdr, x: nat) {
    var a := ph.vaddr + x;
    && a / PGSIZE in m && |m[a / PGSIZE].bytes| == PGSIZE && m[a / PGSIZE].writable == ph.writable
    && if x < ph.filesz then ph.offset + x < |file| && m[a / PGSIZE].bytes[a % PGSIZE] == file[ph.offset + x]
       else m[a / PGSIZE].bytes[a % PGSIZE] == 0
  }

  /** The segment is in memory as the ELF specification says: FILESZ bytes of the
      file at VADDR, then zeros up to MEMSZ, writable as flagged. */
  ghost predicate Loaded(m: Memory, file: seq<Byte>, ph: Phdr) {
    forall x :: 0 <= x < ph.memsz ==> ByteLoaded(m, file, ph, x)
  }

  lemma LoadedStays(m: Memory, m': Memory, file: seq<Byte>, ph: Phdr)
    requires Extends(m, m') && Loaded(m, file, ph)
    ensures Loaded(m', file, ph)
  {
    forall x | 0 <= x < ph.memsz ensures ByteLoaded(m', file, ph, x) {
      assert ByteLoaded(m, file, ph, x);
    }
  }

  /** Address VADDR + X lies in page K at offset J of the segment's pages. */
  lemma SegmentAddress(vaddr: nat, x: nat, k: nat, j: nat)
    requires k == (vaddr % PGSIZE + x) / PGSIZE && j == (vaddr % PGSIZE + x) % PGSIZE
    ensures (vaddr + x) / PGSIZE == vaddr / PGSIZE + k && (vaddr + x) % PGSIZE == j
    ensures PGSIZE * k + j == vaddr % PGSIZE + x
  {
  }

  /** Pages filled by load_segment make up the segment. */
  lemma FilledIsLoaded(m: Memory, file: seq<Byte>, ph: Phdr)
    requires Words(ph) && Validate(ph, |file|) && ZeroBytes(ph) >= 0
    requires Filled(m, file, ph.offset - ph.offset % PGSIZE, ReadBytes(ph), ph.vaddr / PGSIZE,
                    (ReadBytes(ph) + ZeroBytes(ph)) / PGSIZE, ph.writable)
    ensures Loaded(m, file, ph)
  {
    ValidateExact(ph, |file|);
    SegmentSizes(ph, |file|);
    forall x | 0 <= x < ph.memsz ensures ByteLoaded(m, file, ph, x) {
      var n := (ReadBytes(ph) + ZeroBytes(ph)) / PGSIZE;
      var k := (ph.vaddr % PGSIZE + x) / PGSIZE;
      assert k < n;
      assert PageIs(m, file, ph.offset - ph.offset % PGSIZE, ReadBytes(ph), ph.vaddr / PGSIZE, k, ph.writable);
      OneByte(m, file, ph, x);
    }
  }

  lemma OneByte(m: Memory, file: seq<Byte>, ph: Phdr, x: nat)
    requires x < ph.memsz && ph.offset % PGSIZE == ph.vaddr % PGSIZE
    requires var read := if ph.filesz > 0 then ph.vaddr % PGSIZE + ph.filesz else 0;
             && (read == 0 || ph.offset - ph.offset % PGSIZE + read <= |file|)
             && PageIs(m, file, ph.offset - ph.offset % PGSIZE, read, ph.vaddr / PGSIZE,
                       (ph.vaddr % PGSIZE + x) / PGSIZE, ph.writable)
    ensures ByteLoaded(m, file, ph, x)
  {
    var k, j := (ph.vaddr % PGSIZE + x) / PGSIZE, (ph.vaddr % PGSIZE + x) % PGSIZE;
    SegmentAddress(ph.vaddr, x, k, j);
  }

  // ----- physical memory

  /** A page directory, the bytes of the frames of the user pool, and the frames
      still free in the user pool and the kernel pool, in the order palloc_get_page
      will return them. */
  datatype Phys = Phys(dir: Dir, frames: map<nat, seq<Byte>>, pool: seq<nat>, tables: seq<nat>)

  ghost predicate IsFrame(s: Phys, f: nat) {
    f < 0x4_0000 && f in s.frames && |s.frames[f]| == PGSIZE
  }

  /** Frame F is in the user pool and free. */
  ghost predicate PoolOk(s: Phys, f: nat) {
    f in s.pool ==> IsFrame(s, f) && f !in s.tables && f !in s.dir.tables
  }

  ghost predicate TablesOk(s: Phys, f: nat) {
    f in s.tables ==> f < 0x4_0000 && f !in s.dir.tables
  }

  /** Frame F is neither free nor a page table. */
  ghost predicate Taken(s: Phys, f: nat) {
    IsFrame(s, f) && f !in s.pool && f !in s.tables && f !in s.dir.tables
  }

  ghost predicate MapsTo(d: Dir, p: nat, f: nat)
    requires DirOk(d)
  {
    p < USER_PAGES && Maps(d, p, f)
  }

  /** No page maps to frame F. */
  ghost predicate Unmapped(d: Dir, f: nat)
    requires DirOk(d)
  {
    forall p :: !MapsTo(d, p, f)
  }

  ghost predicate PhysOk(s: Phys) {
    && DirOk(s.dir) && NoDup(s.pool) && NoDup(s.tables)
    && (forall f :: PoolOk(s, f)) && (forall f :: TablesOk(s, f))
    && (forall p, f :: MapsTo(s.dir, p, f) ==> Taken(s, f))
    && (forall p, q, f :: MapsTo(s.dir, p, f) && MapsTo(s.dir, q, f) ==> p == q)
    && (forall p :: ForUser(s.dir, p))
  }

  /** User code can use page P as its entry says, if it is mapped at all. */
  ghost predicate ForUser(d: Dir, p: nat)
    requires DirOk(d)
  {
    p < USER_PAGES ==> Reach(d, p) == Lookup(d, p)
  }

  /** Through the directory, as far as user code may go, page P leads to the bytes of
      its frame. */
  ghost predicate SeesAt(s: Phys, m: Memory, p: nat)
    requires DirOk(s.dir)
  {
    if p < USER_PAGES && Reach(s.dir, p).Some? then
      var e := Reach(s.dir, p).value;
      p in m && e.frame in s.frames && m[p] == Page(s.frames[e.frame], e.writable)
    else p !in m
  }

  /** M is what the process can read, and with which rights. */
  ghost predicate Sees(s: Phys, m: Memory)
    requires DirOk(s.dir)
  {
    forall p :: SeesAt(s, m, p)
  }

  /** palloc_get_page and what is read into the page. */
  function Grabbed(s: Phys, bytes: seq<Byte>): Phys
    requires s.pool != []
  {
    s.(pool := s.pool[1..], frames := s.frames[s.pool[0] := bytes])
  }

  /** The process sees nothing of that: the frame is nobody's. */
  lemma GrabKeeps(s: Phys, bytes: seq<Byte>, m: Memory)
    requires PhysOk(s) && s.pool != [] && |bytes| == PGSIZE && Sees(s, m)
    ensures PhysOk(Grabbed(s, bytes)) && Sees(Grabbed(s, bytes), m)
    ensures Taken(Grabbed(s, bytes), s.pool[0]) && Unmapped(s.dir, s.pool[0])
  {
    var f, s' := s.pool[0], Grabbed(s, bytes);
    NoDupTail(s.pool);
    assert PoolOk(s, f);
    forall p ensures !MapsTo(s.dir, p, f) {
      assert MapsTo(s.dir, p, f) ==> Taken(s, f);
    }
    forall g ensures PoolOk(s', g) {
      assert PoolOk(s, g);
    }
    forall g ensures TablesOk(s', g) {
      assert TablesOk(s, g);
    }
    forall p, g | MapsTo(s'.dir, p, g) ensures Taken(s', g) {
      assert MapsTo(s.dir, p, g) && Taken(s, g);
    }
    forall p ensures SeesAt(s', m, p) {
      assert SeesAt(s, m, p) && !MapsTo(s.dir, p, f);
    }
  }

  /** palloc_free_page. */
  lemma GiveKeeps(s: Phys, f: nat, m: Memory)
    requires PhysOk(s) && Taken(s, f) && Unmapped(s.dir, f) && Sees(s, m)
    ensures PhysOk(s.(pool := [f] + s.pool)) && Sees(s.(pool := [f] + s.pool), m)
  {
    var s' := s.(pool := [f] + s.pool);
    forall g ensures PoolOk(s', g) {
      assert PoolOk(s, g);
    }
    forall g ensures TablesOk(s', g) {
      assert TablesOk(s, g);
    }
    forall p, g | MapsTo(s'.dir, p, g) ensures Taken(s', g) {
      assert MapsTo(s.dir, p, g) && Taken(s, g) && !MapsTo(s.dir, p, f);
    }
    forall p ensures SeesAt(s', m, p) {
      assert SeesAt(s, m, p);
    }
  }

  // ----- install_page

  /** The directory and kernel pool of S' are those of S with page P mapped to
      frame F. */
  ghost predicate Installed(s: Phys, s': Phys, p: nat, f: nat, w: bool) {
    && DirOk(s.dir) && DirOk(s'.dir) && p < USER_PAGES && s'.frames == s.frames && s'.pool == s.pool
    && TableAdded(s.dir, s'.dir, p / ENTRIES, if s.tables == [] then None else Some(s.tables[0]))
    && s'.tables == (if s.dir.pd[p / ENTRIES] == 0 && s.tables != [] then s.tables[1..] else s.tables)
    && forall q :: 0 <= q < ENTRIES * ENTRIES ==>
         && Lookup(s'.dir, q) == (if q == p then Some(Mapping(f, w)) else Lookup(s.dir, q))
         && Reach(s'.dir, q) == (if q == p then Some(Mapping(f, w)) else Reach(s.dir, q))
  }

  lemma InstalledMaps(s: Phys, s': Phys, p: nat, f: nat, w: bool, q: nat, g: nat)
    requires Installed(s, s', p, f, w)
    ensures MapsTo(s'.dir, q, g) <==> if q == p then g == f else MapsTo(s.dir, q, g)
  {
  }

  lemma InstalledTables(s: Phys, s': Phys, p: nat, f: nat, w: bool, g: nat)
    requires PhysOk(s) && Installed(s, s', p, f, w)
    ensures PoolOk(s', g) && TablesOk(s', g) && NoDup(s'.tables) && (Taken(s, g) ==> Taken(s', g))
  {
    assert PoolOk(s, g) && TablesOk(s, g);
    if s.tables != [] {
      NoDupTail(s.tables);
    }
  }

  lemma InstalledKeeps(s: Phys, s': Phys, p: nat, f: nat, w: bool)
    requires PhysOk(s) && Taken(s, f) && Unmapped(s.dir, f) && Installed(s, s', p, f, w)
    ensures PhysOk(s')
  {
    forall g ensures PoolOk(s', g) && TablesOk(s', g) && NoDup(s'.tables) && (Taken(s, g) ==> Taken(s', g)) {
      InstalledTables(s, s', p, f, w, g);
    }
    assert NoDup(s'.tables) by {
      InstalledTables(s, s', p, f, w, 0);
    }
    forall q, g ensures MapsTo(s'.dir, q, g) <==> if q == p then g == f else MapsTo(s.dir, q, g) {
      InstalledMaps(s, s', p, f, w, q, g);
    }
    forall q, g | MapsTo(s'.dir, q, g) ensures Taken(s', g) {
      assert q != p ==> MapsTo(s.dir, q, g) && Taken(s, g);
    }
    forall q, r, g | MapsTo(s'.dir, q, g) && MapsTo(s'.dir, r, g) ensures q == r {
      assert !MapsTo(s.dir, q, f) && !MapsTo(s.dir, r, f);
      assert q != p && r != p ==> MapsTo(s.dir, q, g) && MapsTo(s.dir, r, g);
    }
    forall q ensures ForUser(s'.dir, q) {
      assert ForUser(s.dir, q);
    }
  }

  lemma InstalledView(s: Phys, s': Phys, p: nat, f: nat, w: bool, m: Memory)
    requires PhysOk(s) && Taken(s, f) && Installed(s, s', p, f, w) && Sees(s, m)
    ensures Sees(s', m[p := Page(s.frames[f], w)])
  {
    var m' := m[p := Page(s.frames[f], w)];
    forall q ensures SeesAt(s', m', q) {
      assert SeesAt(s, m, q);
    }
  }

  // ----- stores

  /** The byte at OFS of frame F becomes V. */
  function Stored(s: Phys, f: nat, ofs: nat, v: Byte): Phys
    requires f in s.frames && ofs < |s.frames[f]|
  {
    s.(frames := s.frames[f := SetByte(s.frames[f], ofs, v)])
  }

  /** A store to page P changes what page P shows and nothing else: no other page
      maps to its frame. */
  lemma StoredKeeps(s: Phys, p: nat, f: nat, ofs: nat, v: Byte, m: Memory)
    requires PhysOk(s) && Sees(s, m) && MapsTo(s.dir, p, f) && ofs < PGSIZE
    ensures Taken(s, f) && p in m && |m[p].bytes| == PGSIZE && PhysOk(Stored(s, f, ofs, v))
    ensures Sees(Stored(s, f, ofs, v), m[p := m[p].(bytes := SetByte(m[p].bytes, ofs, v))])
  {
    assert MapsTo(s.dir, p, f) && Taken(s, f) && SeesAt(s, m, p) && ForUser(s.dir, p);
    var s', m' := Stored(s, f, ofs, v), m[p := m[p].(bytes := SetByte(m[p].bytes, ofs, v))];
    forall g ensures PoolOk(s', g) {
      assert PoolOk(s, g);
    }
    forall g ensures TablesOk(s', g) {
      assert TablesOk(s, g);
    }
    forall q, g | MapsTo(s'.dir, q, g) ensures Taken(s', g) {
      assert MapsTo(s.dir, q, g) && Taken(s, g);
    }
    forall q ensures SeesAt(s', m', q) {
      assert SeesAt(s, m, q) && (MapsTo(s.dir, q, f) ==> q == p);
    }
  }

  // ----- is there room

  /** What decides whether pages can be mapped: the pages that are, the directory
      entries with a page table, and the number of free frames for pages and for
      tables. */
  datatype Room = Room(mapped: set<nat>, dirs: set<nat>, pages: nat, tables: nat)

  ghost predicate PageRoom(s: Phys, r: Room, p: nat)
    requires DirOk(s.dir)
  {
    p in r.mapped <==> p < USER_PAGES && Lookup(s.dir, p).Some?
  }

  ghost predicate DirRoom(s: Phys, r: Room, k: nat)
    requires DirOk(s.dir)
  {
    k in r.dirs <==> k < ENTRIES && s.dir.pd[k] != 0
  }

  ghost predicate HasRoom(s: Phys, r: Room)
    requires DirOk(s.dir)
  {
    (forall p :: PageRoom(s, r, p)) && (forall k :: DirRoom(s, r, k)) && r.pages == |s.pool| && r.tables == |s.tables|
  }

  predicate Fits(r: Room, p: nat) {
    p !in r.mapped && r.pages > 0 && (p / ENTRIES in r.dirs || r.tables > 0)
  }

  function Take(r: Room, p: nat): Room {
    Room(r.mapped + {p}, r.dirs + {p / ENTRIES}, if r.pages > 0 then r.pages - 1 else 0,
         if p / ENTRIES in r.dirs || r.tables == 0 then r.tables else r.tables - 1)
  }

  /** The pages PS can be mapped one after the other. */
  predicate FitAll(r: Room, ps: seq<nat>)
    decreases |ps|
  {
    ps == [] || (Fits(r, ps[0]) && FitAll(Take(r, ps[0]), ps[1..]))
  }

  function TakeAll(r: Room, ps: seq<nat>): Room
    decreases |ps|
  {
    if ps == [] then r else TakeAll(Take(r, ps[0]), ps[1..])
  }

  lemma {:induction false} FitSplit(r: Room, a: seq<nat>, b: seq<nat>)
    ensures FitAll(r, a + b) <==> FitAll(r, a) && FitAll(TakeAll(r, a), b)
    ensures TakeAll(r, a + b) == TakeAll(TakeAll(r, a), b)
    decreases |a|
  {
    if a == [] {
      assert a + b == b;
    } else {
      FitSplit(Take(r, a[0]), a[1..], b);
      assert (a + b)[1..] == a[1..] + b;
    }
  }

  /** Directory entries that need a page table for the pages PS. */
  ghost function NewDirs(r: Room, ps: seq<nat>): set<nat> {
    (set p | p in ps :: p / ENTRIES) - r.dirs
  }

  /** They fit if and only if they differ from each other and from the mapped ones
      and there are enough frames for them and for their page tables. */
  lemma {:induction false} FitAllExact(r: Room, ps: seq<nat>)
    ensures FitAll(r, ps) <==>
            && NoDup(ps) && (forall p :: p in ps ==> p !in r.mapped) && |ps| <= r.pages && |NewDirs(r, ps)| <= r.tables
    decreases |ps|
  {
    if ps == [] {
      assert NewDirs(r, ps) == {};
    } else {
      var p, rest := ps[0], ps[1..];
      FitAllExact(Take(r, p), rest);
      NewDirsStep(r, ps);
      NoDupCons(ps);
      assert forall q :: q in ps <==> q == p || q in rest;
    }
  }

  lemma NewDirsStep(r: Room, ps: seq<nat>)
    requires ps != []
    ensures var k := ps[0] / ENTRIES;
            |NewDirs(r, ps)| == |NewDirs(Take(r, ps[0]), ps[1..])| + if k in r.dirs then 0 else 1
  {
    var k, a, b := ps[0] / ENTRIES, NewDirs(r, ps), NewDirs(Take(r, ps[0]), ps[1..]);
    forall d ensures d in a <==> d in b || (d == k && k !in r.dirs) {
      if d in a {
        var p :| p in ps && p / ENTRIES == d;
        assert p != ps[0] ==> p in ps[1..];
      }
      if d in b {
        var p :| p in ps[1..] && p / ENTRIES == d;
        assert p in ps;
      }
      if d == k {
        assert ps[0] in ps;
      }
    }
    if k in r.dirs {
      assert a == b;
    } else {
      assert a == b + {k};
    }
  }

  lemma InstalledRoom(s: Phys, s': Phys, p: nat, f: nat, w: bool, r: Room)
    requires DirOk(s.dir) && Installed(s, s', p, f, w) && HasRoom(s, r) && (p / ENTRIES in r.dirs || s.tables != [])
    ensures HasRoom(s', Take(r, p).(pages := r.pages))
  {
    var r' := Take(r, p).(pages := r.pages);
    assert DirRoom(s, r, p / ENTRIES);
    forall q ensures PageRoom(s', r', q) {
      assert PageRoom(s, r, q);
    }
    forall k ensures DirRoom(s', r', k) {
      assert DirRoom(s, r, k);
    }
  }

  lemma RoomSame(s: Phys, s': Phys, r: Room)
    requires DirOk(s.dir) && s'.dir == s.dir && s'.tables == s.tables && HasRoom(s, r)
    ensures HasRoom(s', r.(pages := |s'.pool|))
  {
    forall q ensures PageRoom(s', r.(pages := |s'.pool|), q) {
      assert PageRoom(s, r, q);
    }
    forall k ensures DirRoom(s', r.(pages := |s'.pool|), k) {
      assert DirRoom(s, r, k);
    }
  }

  lemma StoredRoom(s: Phys, s': Phys, r: Room)
    requires DirOk(s.dir) && s' == s.(frames := s'.frames) && HasRoom(s, r)
    ensures HasRoom(s', r)
  {
    RoomSame(s, s', r);
  }

  lemma KernelPageKeeps(s: Phys, m: Memory, r: Room)
    requires PhysOk(s) && Sees(s, m) && HasRoom(s, r) && s.tables != []
    ensures var s' := s.(tables := s.tables[1..]); PhysOk(s') && Sees(s', m) && HasRoom(s', r.(tables := r.tables - 1))
  {
    var s', r' := s.(tables := s.tables[1..]), r.(tables := r.tables - 1);
    NoDupTail(s.tables);
    forall g ensures PoolOk(s', g) {
      assert PoolOk(s, g);
    }
    forall g ensures TablesOk(s', g) {
      assert TablesOk(s, g);
    }
    forall q, g | MapsTo(s'.dir, q, g) ensures Taken(s', g) {
      assert MapsTo(s.dir, q, g) && Taken(s, g);
    }
    forall q ensures SeesAt(s', m, q) {
      assert SeesAt(s, m, q);
    }
    forall q ensures PageRoom(s', r', q) {
      assert PageRoom(s, r, q);
    }
    forall k ensures DirRoom(s', r', k) {
      assert DirRoom(s, r, k);
    }
  }

  lemma SeenBelow(s: Phys, m: Memory)
    requires DirOk(s.dir) && Sees(s, m)
    ensures forall p :: p in m ==> p < USER_PAGES
  {
    forall p | p in m ensures p < USER_PAGES {
      assert SeesAt(s, m, p);
    }
  }

  lemma SeenSized(s: Phys, m: Memory)
    requires PhysOk(s) && Sees(s, m)
    ensures forall p :: p in m ==> |m[p].bytes| == PGSIZE
  {
    forall p | p in m ensures |m[p].bytes| == PGSIZE {
      assert SeesAt(s, m, p);
      assert MapsTo(s.dir, p, Lookup(s.dir, p).value.frame);
    }
  }

  lemma SeenIsMapped(s: Phys, m: Memory, r: Room, p: nat)
    requires PhysOk(s) && Sees(s, m) && HasRoom(s, r)
    ensures p in m <==> p in r.mapped
  {
    assert SeesAt(s, m, p) && PageRoom(s, r, p) && ForUser(s.dir, p);
  }

  // ----- loading

  /** CNT bytes of the file from POS and zeros up to a page. */
  function PageOfFile(file: seq<Byte>, pos: nat, cnt: nat): seq<Byte>
    requires cnt <= PGSIZE && (cnt == 0 || pos + cnt <= |file|)
  {
    (if cnt > 0 then file[pos..pos + cnt] else []) + seq(PGSIZE - cnt, _ => 0)
  }

  /** N pages from page A. */
  function Range(a: nat, n: nat): seq<nat> {
    seq(n, i requires 0 <= i => a + i)
  }

  /** The file has all bytes the segment takes from it. */
  predicate FileHas(file: seq<Byte>, ofs: nat, read: nat) {
    read == 0 || ofs + read <= |file|
  }

  /** The pages load_segment maps for a valid segment. */
  function SegmentPages(ph: Phdr): seq<nat> {
    Range(ph.vaddr / PGSIZE, (ReadBytes(ph) + if ZeroBytes(ph) < 0 then 0 else ZeroBytes(ph)) / PGSIZE)
  }

  /** The pages of all segments to be loaded, in order. */
  function AllPages(phdrs: seq<Phdr>): seq<nat> {
    if phdrs == [] then []
    else AllPages(phdrs[..|phdrs| - 1]) + if phdrs[|phdrs| - 1].kind.Load? then SegmentPages(phdrs[|phdrs| - 1]) else []
  }

  /** A header that does not fail by itself: it is not refused, and a segment to be
      loaded is valid and in the file. */
  predicate HeaderOk(file: seq<Byte>, ph: Phdr) {
    !ph.kind.Refused? && (ph.kind.Load? ==> Validate(ph, |file|) && SegmentInFile(file, ph))
  }

  predicate SegmentInFile(file: seq<Byte>, ph: Phdr) {
    ph.filesz == 0 || ph.offset + ph.filesz <= |file|
  }

  /** What load_segment is to do: READ bytes of the file from OFS, and zeros, in N
      pages from page P. */
  datatype Job = Job(ofs: nat, read: nat, p: nat, n: nat, writable: bool)

  /** Page P, if new in M', is one of N pages from page A. */
  ghost predicate NewIn(m: Memory, m': Memory, a: nat, n: nat, p: nat) {
    p in m' && p !in m ==> a <= p < a + n
  }

  /** How it ends, for what the process sees and the room there is. */
  ghost predicate Segment(m: Memory, m': Memory, r: Room, r': Room, file: seq<Byte>, j: Job, ok: bool) {
    && Extends(m, m') && (forall p :: NewIn(m, m', j.p, j.n, p))
    && (ok <==> FileHas(file, j.ofs, j.read) && FitAll(r, Range(j.p, j.n)))
    && (ok ==> r' == TakeAll(r, Range(j.p, j.n)) && Filled(m', file, j.ofs, j.read, j.p, j.n, j.writable))
  }

  /** The first K pages are done. */
  ghost predicate SomePages(m0: Memory, m: Memory, r0: Room, r: Room, file: seq<Byte>, j: Job, k: nat) {
    && k <= j.n && Extends(m0, m) && FitAll(r0, Range(j.p, k)) && r == TakeAll(r0, Range(j.p, k))
    && (k == 0 || j.read == 0 || j.ofs + (if PGSIZE * k <= j.read then PGSIZE * k else j.read) <= |file|)
    && (forall i :: 0 <= i < k ==> PageIs(m, file, j.ofs, j.read, j.p, i, j.writable))
    && forall p :: NewIn(m0, m, j.p, k, p)
  }

  /** The loop's variables after K pages. */
  ghost predicate At(j: Job, k: nat, page: nat, read: nat, zero: nat, pos: nat) {
    && k <= j.n && page == j.p + k && read + zero == PGSIZE * (j.n - k) && j.p + j.n <= USER_PAGES
    && read == (if PGSIZE * k <= j.read then j.read - PGSIZE * k else 0) && pos == j.ofs + j.read - read
  }

  lemma RangeSplit(p: nat, k: nat, n: nat)
    requires k < n
    ensures Range(p, k + 1) == Range(p, k) + [p + k] && Range(p, n) == Range(p, k + 1) + Range(p + k + 1, n - k - 1)
  {
  }

  /** One more page: it can be loaded exactly when the rest of the job allows. */
  lemma NextPage(m0: Memory, m: Memory, r0: Room, r: Room, file: seq<Byte>, j: Job, k: nat, page: nat, read: nat,
                 zero: nat, pos: nat)
    requires SomePages(m0, m, r0, r, file, j, k) && At(j, k, page, read, zero, pos) && k < j.n
    ensures var cnt := if read < PGSIZE then read else PGSIZE;
            var fits := Fits(r, page) && (cnt == 0 || pos + cnt <= |file|);
            && At(j, k + 1, page + 1, read - cnt, zero - (PGSIZE - cnt), pos + cnt)
            && (!fits ==> !(FileHas(file, j.ofs, j.read) && FitAll(r0, Range(j.p, j.n))))
            && (fits && page !in m ==>
                  SomePages(m0, m[page := Page(PageOfFile(file, pos, cnt), j.writable)], r0, Take(r, page), file, j,
                    k + 1))
  {
    var cnt := if read < PGSIZE then read else PGSIZE;
    RangeSplit(j.p, k, j.n);
    FitSplit(r0, Range(j.p, k), [page]);
    FitSplit(r0, Range(j.p, k + 1), Range(j.p + k + 1, j.n - k - 1));
    FitOne(r, page);
    if Fits(r, page) && (cnt == 0 || pos + cnt <= |file|) && page !in m {
      PageImage(file, j.ofs, j.read, k, pos, cnt);
      var m' := m[page := Page(PageOfFile(file, pos, cnt), j.writable)];
      PagesKept(m, m', file, j.ofs, j.read, j.p, k, j.writable);
      var n := k + 1;
      forall p ensures NewIn(m0, m', j.p, n, p) {
        assert NewIn(m0, m, j.p, k, p);
      }
    }
  }

  lemma FitOne(r: Room, p: nat)
    ensures (FitAll(r, [p]) <==> Fits(r, p)) && TakeAll(r, [p]) == Take(r, p)
  {
    assert [p][1..] == [];
  }

  lemma NewSoFar(m0: Memory, m: Memory, j: Job, k: nat)
    requires k <= j.n && forall p :: NewIn(m0, m, j.p, k, p)
    ensures forall p :: NewIn(m0, m, j.p, j.n, p)
  {
    forall p ensures NewIn(m0, m, j.p, j.n, p) {
      assert NewIn(m0, m, j.p, k, p);
    }
  }

  lemma LastPage(m0: Memory, m: Memory, r0: Room, r: Room, file: seq<Byte>, j: Job, k: nat, page: nat, read: nat,
                 zero: nat, pos: nat)
    requires SomePages(m0, m, r0, r, file, j, k) && At(j, k, page, read, zero, pos) && read + zero == 0
    ensures Segment(m0, m, r0, r, file, j, true)
  {
  }

  /** A process with its page directory and physical memory. MEMORY is what it can
      read and ROOM what is left to map. */
  class Process {
    const pagedir: PageDirectory
    var frames: map<nat, seq<Byte>>
    var pool: seq<nat>
    var tables: seq<nat>
    ghost var memory: Memory
    ghost var room: Room

    ghost function State(): Phys
      reads this, pagedir
    {
      Phys(pagedir.State(), frames, pool, tables)
    }

    ghost predicate Valid()
      reads this, pagedir
    {
      PhysOk(State()) && Sees(State(), memory) && HasRoom(State(), room)
    }

    /** The page directory a new process gets, and the memory there is. */
    constructor (kernel: Table, kernelTables: map<nat, Table>, frames: map<nat, seq<Byte>>, pool: seq<nat>,
                 tables: seq<nat>)
      requires DirOk(Dir(kernel, kernelTables)) && forall i :: 0 <= i < PdNo(PHYS_BASE) ==> kernel[i] == 0
      requires NoDup(pool) && NoDup(tables)
      requires forall f :: f in pool ==>
                 f < 0x4_0000 && f in frames && |frames[f]| == PGSIZE && f !in tables && f !in kernelTables
      requires forall f :: f in tables ==> f < 0x4_0000 && f !in kernelTables
      ensures Valid() && memory == map[] && fresh(pagedir)
      ensures room == Room({}, set k: nat | k < ENTRIES && kernel[k] != 0, |pool|, |tables|)
    {
      pagedir := new PageDirectory(kernel, kernelTables);
      this.frames, this.pool, this.tables := frames, pool, tables;
      memory, room := map[], Room({}, set k: nat | k < ENTRIES && kernel[k] != 0, |pool|, |tables|);
      new;
      forall p, f ensures !MapsTo(State().dir, p, f) {
      }
    }

    /** install_page. */
    method InstallPage(p: nat, frame: nat, writable: bool) returns (ok: bool)
      requires Valid() && p < USER_PAGES && Taken(State(), frame) && Unmapped(State().dir, frame)
      modifies this`tables, this`memory, this`room, pagedir
      ensures Valid() && (ok <==> p !in old(room).mapped && (p / ENTRIES in old(room).dirs || old(room).tables > 0))
      ensures ok ==>
                memory == old(memory)[p := Page(frames[frame], writable)] &&
                room == Take(old(room), p).(pages := old(room).pages)
      ensures !ok ==> State() == old(State()) && memory == old(memory) && room == old(room)
    {
      ghost var s := State();
      PageAddress(p);
      assert PageRoom(s, room, p) && DirRoom(s, room, p / ENTRIES);
      var there := pagedir.GetPage(PGSIZE * p);
      if there.Some? {
        return false;
      }
      assert tables != [] ==> TablesOk(s, tables[0]);
      var created := pagedir.pd[p / ENTRIES] == 0 && tables != [];
      ok := pagedir.SetPage(PGSIZE * p, frame, writable, if tables == [] then None else Some(tables[0]));
      if created {
        tables := tables[1..];
      }
      if ok {
        InstalledKeeps(s, State(), p, frame, writable);
        InstalledView(s, State(), p, frame, writable, memory);
        InstalledRoom(s, State(), p, frame, writable, room);
        memory, room := memory[p := Page(frames[frame], writable)], Take(room, p).(pages := room.pages);
      }
    }

    /** palloc_free_page. */
    method GiveBack(f: nat)
      requires Valid() && Taken(State(), f) && Unmapped(State().dir, f)
      modifies this`pool, this`room
      ensures Valid() && room == old(room).(pages := old(room).pages + 1)
    {
      GiveKeeps(State(), f, memory);
      RoomSame(State(), State().(pool := [f] + pool), room);
      pool := [f] + pool;
      room := room.(pages := |pool|);
    }

    /** palloc_get_page for the kernel: a page of the pool page tables come from. */
    method TakeKernelPage() returns (ok: bool)
      requires Valid()
      modifies this`tables, this`room
      ensures Valid() && (ok <==> old(room).tables > 0)
      ensures room == if ok then old(room).(tables := old(room).tables - 1) else old(room)
    {
      ok := tables != [];
      if ok {
        KernelPageKeeps(State(), memory, room);
        tables := tables[1..];
        room := room.(tables := |tables|);
      }
    }

    /** palloc_get_page, file_read and memset: a frame with CNT bytes of the file and
        zeros, or none after a short read. */
    method ReadPage(file: seq<Byte>, pos: nat, cnt: nat) returns (frame: Option<nat>)
      requires Valid() && cnt <= PGSIZE
      modifies this`pool, this`room, this`frames
      ensures Valid()
      ensures frame.Some? <==> old(room).pages > 0 && (cnt == 0 || pos + cnt <= |file|)
      ensures room == if frame.Some? then old(room).(pages := old(room).pages - 1) else old(room)
      ensures frame.Some? ==> Taken(State(), frame.value) && Unmapped(State().dir, frame.value) &&
                              frames[frame.value] == PageOfFile(file, pos, cnt)
    {
      ghost var s := State();
      if pool == [] {
        return None;
      }
      var f := pool[0];
      assert PoolOk(s, f);
      var got := if pos >= |file| then 0 else if pos + cnt <= |file| then cnt else |file| - pos;
      var bytes := (if got > 0 then file[pos..pos + got] else []) + frames[f][got..];
      if got == cnt {
        bytes := bytes[..cnt] + seq(PGSIZE - cnt, _ => 0);
      }
      GrabKeeps(s, bytes, memory);
      RoomSame(s, Grabbed(s, bytes), room);
      pool, frames := pool[1..], frames[f := bytes];
      assert State() == Grabbed(s, bytes);
      room := room.(pages := |pool|);
      if got != cnt {
        GiveBack(f);
        return None;
      }
      frame := Some(f);
    }

    /** One turn of load_segment's loop. */
    method LoadPage(file: seq<Byte>, pos: nat, p: nat, cnt: nat, writable: bool) returns (ok: bool)
      requires Valid() && p < USER_PAGES && cnt <= PGSIZE
      modifies this, pagedir
      ensures Valid() && (ok <==> Fits(old(room), p) && (cnt == 0 || pos + cnt <= |file|))
      ensures ok ==> p !in old(memory) && memory == old(memory)[p := Page(PageOfFile(file, pos, cnt), writable)]
      ensures if ok then room == Take(old(room), p) else memory == old(memory)
    {
      SeenIsMapped(State(), memory, room, p);
      var f := ReadPage(file, pos, cnt);
      if f.None? {
        return false;
      }
      ok := InstallPage(p, f.value, writable);
      if !ok {
        GiveBack(f.value);
      }
    }

    /** What the processor does for a store: the frame of the page, if it is present
        and writable. */
    method Translate(x: nat) returns (frame: Option<nat>)
      requires Valid() && x < PHYS_BASE
      ensures frame.Some? <==> CanWrite(Prot(memory), x)
      ensures frame.Some? ==> MapsTo(State().dir, PageOf(x), frame.value)
    {
      assert SeesAt(State(), memory, PageOf(x)) && ForUser(State().dir, PageOf(x));
      var found, i, j := pagedir.Find(x);
      ZeroBit(0);
      if !found {
        return None;
      }
      var e := pagedir.tables[Frame(pagedir.pd[i])][j];
      FlagTest(e, 0);
      FlagTest(e, 1);
      Powers();
      if And(e, PTE_P) != 0 && And(e, PTE_W) != 0 {
        return Some(Frame(e));
      }
      frame := None;
    }

    /** A store of one byte: made through the page tables, or a fault. */
    method StoreByte(x: nat, v: Byte) returns (ok: bool)
      requires Valid() && x < PHYS_BASE
      modifies this`frames, this`memory
      ensures Valid() && (ok <==> CanWrite(Prot(old(memory)), x))
      ensures if ok then ByteStored(old(memory), memory, x, v) else memory == old(memory)
    {
      var f := Translate(x);
      if f.None? {
        return false;
      }
      ghost var s, m := State(), memory;
      StoredKeeps(s, PageOf(x), f.value, x % PGSIZE, v, m);
      frames := frames[f.value := SetByte(frames[f.value], x % PGSIZE, v)];
      PutStores(m, x, v);
      memory := Put(m, x, v);
      assert State() == Stored(s, f.value, x % PGSIZE, v);
      StoredRoom(s, State(), room);
      ok := true;
    }

    /** load_segment. It succeeds if and only if the file has the bytes and there is
        room for the pages. */
    method LoadSegment(file: seq<Byte>, ofs: nat, upage: nat, readBytes: nat, zeroBytes: nat, writable: bool)
      returns (ok: bool)
      requires Valid() && (readBytes + zeroBytes) % PGSIZE == 0 && upage % PGSIZE == 0 && ofs % PGSIZE == 0
      requires upage + readBytes + zeroBytes <= PHYS_BASE
      modifies this, pagedir
      ensures Valid() && Segment(old(memory), memory, old(room), room, file,
                                 Job(ofs, readBytes, upage / PGSIZE, (readBytes + zeroBytes) / PGSIZE, writable), ok)
    {
      var read: nat, zero: nat, page: nat, pos: nat := readBytes, zeroBytes, upage / PGSIZE, ofs;
      ghost var j, k := Job(ofs, readBytes, upage / PGSIZE, (readBytes + zeroBytes) / PGSIZE, writable), 0;
      while read > 0 || zero > 0
        invariant Valid() && SomePages(old(memory), memory, old(room), room, file, j, k)
        invariant At(j, k, page, read, zero, pos)
        decreases read + zero
      {
        var pageRead := if read < PGSIZE then read else PGSIZE;
        var pageZero := PGSIZE - pageRead;
        NextPage(old(memory), memory, old(room), room, file, j, k, page, read, zero, pos);
        var one := LoadPage(file, pos, page, pageRead, writable);
        if !one {
          NewSoFar(old(memory), memory, j, k);
          return false;
        }
        read, zero, page, pos := read - pageRead, zero - pageZero, page + 1, pos + pageRead;
        k := k + 1;
      }
      LastPage(old(memory), memory, old(room), room, file, j, k, page, read, zero, pos);
      ok := true;
    }

    /** The PT_LOAD case of load. */
    method LoadOne(file: seq<Byte>, ph: Phdr) returns (ok: bool)
      requires Valid() && Words(ph)
      modifies this, pagedir
      ensures Valid() && One(old(memory), memory, old(room), room, file, ph, ok)
    {
      if !Validate(ph, |file|) {
        return false;
      }
      SegmentCall(ph, |file|);
      var filePage, memPage := ph.offset - ph.offset % PGSIZE, ph.vaddr - ph.vaddr % PGSIZE;
      ok := LoadSegment(file, filePage, memPage, ReadBytes(ph), ZeroBytes(ph), ph.writable);
      SegmentIsOne(old(memory), memory, old(room), room, file, ph, ok);
    }

    /** The program headers of load. All goes well if and only if no header fails by
        itself and there is room for the pages of all segments; then they are in
        memory, all at the same time. */
    method LoadAll(file: seq<Byte>, phdrs: seq<Phdr>) returns (ok: bool)
      requires Valid() && forall i :: 0 <= i < |phdrs| ==> Words(phdrs[i])
      modifies this, pagedir
      ensures Valid() && Extends(old(memory), memory)
      ensures ok <==> (forall i :: 0 <= i < |phdrs| ==> HeaderOk(file, phdrs[i])) && FitAll(old(room), AllPages(phdrs))
      ensures ok ==> forall i :: 0 <= i < |phdrs| && phdrs[i].kind.Load? ==> Loaded(memory, file, phdrs[i])
      ensures NewPages(old(memory), memory, AllPages(phdrs))
      ensures ok ==> room == TakeAll(old(room), AllPages(phdrs)) && Prot(memory) == ProtectAll(Prot(old(memory)), phdrs)
    {
      var i := 0;
      while i < |phdrs|
        invariant Valid() && SomeHeaders(old(memory), memory, old(room), room, file, phdrs, i)
      {
        NextHeader(old(memory), memory, old(room), room, file, phdrs, i);
        if phdrs[i].kind.Refused? {
          return false;
        } else if phdrs[i].kind.Load? {
          ghost var m, r := memory, room;
          var one := LoadOne(file, phdrs[i]);
          if !one {
            NewUpTo(old(memory), m, memory, phdrs, i);
            return false;
          }
          OneMore(old(memory), m, memory, old(room), r, room, file, phdrs, i);
        }
        i := i + 1;
      }
      assert phdrs[..i] == phdrs;
      ok := true;
    }
  }

  /** How LoadOne ends. */
  ghost predicate One(m: Memory, m': Memory, r: Room, r': Room, file: seq<Byte>, ph: Phdr, ok: bool) {
    && Extends(m, m') && NewPages(m, m', SegmentPages(ph))
    && (ok <==> Validate(ph, |file|) && SegmentInFile(file, ph) && FitAll(r, SegmentPages(ph)))
    && (ok ==> r' == TakeAll(r, SegmentPages(ph)) && Loaded(m', file, ph))
    && (ok ==> Prot(m') == Protect(Prot(m), SegmentPages(ph), ph.writable))
  }

  /** The pages new in M' are among PS, above the first page and below the kernel. */
  ghost predicate NewPages(m: Memory, m': Memory, ps: seq<nat>) {
    forall p :: p in m' && p !in m ==> p in ps && 1 <= p < USER_PAGES
  }

  /** The protection of the pages once pages PS are mapped, all writable or none. */
  function Protect(pages: map<nat, bool>, ps: seq<nat>, w: bool): map<nat, bool> {
    pages + map p | p in ps :: w
  }

  /** ... and once all segments to be loaded are. */
  function ProtectAll(pages: map<nat, bool>, phdrs: seq<Phdr>): map<nat, bool> {
    if phdrs == [] then pages
    else
      var before, ph := ProtectAll(pages, phdrs[..|phdrs| - 1]), phdrs[|phdrs| - 1];
      if ph.kind.Load? then Protect(before, SegmentPages(ph), ph.writable) else before
  }

  lemma RangeHas(a: nat, n: nat, p: nat)
    ensures p in Range(a, n) <==> a <= p < a + n
  {
    if a <= p < a + n {
      assert Range(a, n)[p - a] == p;
    }
  }

  /** What load_segment leaves of the protection. */
  lemma FilledProt(m: Memory, m': Memory, file: seq<Byte>, j: Job)
    requires Extends(m, m') && (forall p :: NewIn(m, m', j.p, j.n, p))
    requires Filled(m', file, j.ofs, j.read, j.p, j.n, j.writable)
    ensures Prot(m') == Protect(Prot(m), Range(j.p, j.n), j.writable)
  {
    var q := Protect(Prot(m), Range(j.p, j.n), j.writable);
    forall p: nat ensures (p in Prot(m') <==> p in q) && (p in q ==> Prot(m')[p] == q[p]) {
      RangeHas(j.p, j.n, p);
      assert NewIn(m, m', j.p, j.n, p);
      assert j.p <= p < j.p + j.n ==> PageIs(m', file, j.ofs, j.read, j.p, p - j.p, j.writable);
    }
  }

  lemma SegmentIsOne(m: Memory, m': Memory, r: Room, r': Room, file: seq<Byte>, ph: Phdr, ok: bool)
    requires Words(ph) && Validate(ph, |file|) && ZeroBytes(ph) >= 0
    requires Segment(m, m', r, r', file, Job(ph.offset - ph.offset % PGSIZE, ReadBytes(ph), ph.vaddr / PGSIZE,
                                             (ReadBytes(ph) + ZeroBytes(ph)) / PGSIZE, ph.writable), ok)
    ensures One(m, m', r, r', file, ph, ok)
  {
    ValidateExact(ph, |file|);
    SegmentSizes(ph, |file|);
    var a, n := ph.vaddr / PGSIZE, (ReadBytes(ph) + ZeroBytes(ph)) / PGSIZE;
    forall p | p in m' && p !in m ensures p in SegmentPages(ph) && 1 <= p < USER_PAGES {
      assert NewIn(m, m', a, n, p);
      RangeHas(a, n, p);
    }
    if ok {
      FilledIsLoaded(m', file, ph);
      FilledProt(m, m', file, Job(ph.offset - ph.offset % PGSIZE, ReadBytes(ph), a, n, ph.writable));
    }
  }

  /** The first I headers are done. */
  ghost predicate SomeHeaders(m0: Memory, m: Memory, r0: Room, r: Room, file: seq<Byte>, phdrs: seq<Phdr>, i: nat) {
    && i <= |phdrs| && Extends(m0, m) && (forall k :: 0 <= k < i ==> HeaderOk(file, phdrs[k]))
    && FitAll(r0, AllPages(phdrs[..i])) && r == TakeAll(r0, AllPages(phdrs[..i]))
    && NewPages(m0, m, AllPages(phdrs[..i])) && Prot(m) == ProtectAll(Prot(m0), phdrs[..i])
    && forall k :: 0 <= k < i && phdrs[k].kind.Load? ==> Loaded(m, file, phdrs[k])
  }

  /** A header that is not loaded changes nothing; one that fails by itself or has no
      room for its pages fails them all. */
  lemma NextHeader(m0: Memory, m: Memory, r0: Room, r: Room, file: seq<Byte>, phdrs: seq<Phdr>, i: nat)
    requires SomeHeaders(m0, m, r0, r, file, phdrs, i) && i < |phdrs|
    ensures phdrs[i].kind.Load? && !FitAll(r, SegmentPages(phdrs[i])) ==> !FitAll(r0, AllPages(phdrs))
    ensures phdrs[i].kind.Ignored? ==> SomeHeaders(m0, m, r0, r, file, phdrs, i + 1)
    ensures NewPages(m0, m, AllPages(phdrs))
  {
    PagesSplit(r0, phdrs, i);
    AllPagesPrefix(phdrs, i);
    assert phdrs[..i + 1][..i] == phdrs[..i];
  }

  lemma OneMore(m0: Memory, m: Memory, m': Memory, r0: Room, r: Room, r': Room, file: seq<Byte>, phdrs: seq<Phdr>,
                i: nat)
    requires SomeHeaders(m0, m, r0, r, file, phdrs, i) && i < |phdrs| && phdrs[i].kind.Load?
    requires One(m, m', r, r', file, phdrs[i], true)
    ensures SomeHeaders(m0, m', r0, r', file, phdrs, i + 1)
  {
    PagesSplit(r0, phdrs, i);
    assert phdrs[..i + 1][..i] == phdrs[..i];
    forall k | 0 <= k < i && phdrs[k].kind.Load? ensures Loaded(m', file, phdrs[k]) {
      LoadedStays(m, m', file, phdrs[k]);
    }
  }

  /** The pages a failed segment leaves are among those of all segments. */
  lemma NewUpTo(m0: Memory, m: Memory, m': Memory, phdrs: seq<Phdr>, i: nat)
    requires i < |phdrs| && phdrs[i].kind.Load?
    requires NewPages(m0, m, AllPages(phdrs[..i])) && NewPages(m, m', SegmentPages(phdrs[i]))
    ensures NewPages(m0, m', AllPages(phdrs))
  {
    assert phdrs[..i + 1][..i] == phdrs[..i];
    AllPagesPrefix(phdrs, i + 1);
    var a := AllPages(phdrs[..i + 1]);
    assert a == AllPages(phdrs[..i]) + SegmentPages(phdrs[i]);
    forall p | p in m' && p !in m0 ensures p in AllPages(phdrs) {
      assert p in a;
    }
  }

  lemma {:induction false} AllPagesPrefix(phdrs: seq<Phdr>, i: nat)
    requires i <= |phdrs|
    ensures AllPages(phdrs[..i]) <= AllPages(phdrs)
  {
    if i < |phdrs| {
      AllPagesPrefix(phdrs[..|phdrs| - 1], i);
      assert phdrs[..|phdrs| - 1][..i] == phdrs[..i];
    } else {
      assert phdrs[..i] == phdrs;
    }
  }

  lemma PagesSplit(r: Room, phdrs: seq<Phdr>, i: nat)
    requires i < |phdrs| && FitAll(r, AllPages(phdrs[..i]))
    ensures var ps := if phdrs[i].kind.Load? then SegmentPages(phdrs[i]) else [];
            && (FitAll(r, AllPages(phdrs[..i + 1])) <==> FitAll(TakeAll(r, AllPages(phdrs[..i])), ps))
            && TakeAll(r, AllPages(phdrs[..i + 1])) == TakeAll(TakeAll(r, AllPages(phdrs[..i])), ps)
    ensures FitAll(r, AllPages(phdrs)) ==> FitAll(r, AllPages(phdrs[..i + 1]))
  {
    var ps := if phdrs[i].kind.Load? then SegmentPages(phdrs[i]) else [];
    PagesNext(phdrs, i);
    FitSplit(r, AllPages(phdrs[..i]), ps);
    FitPrefix(r, phdrs, i + 1);
  }

  lemma PagesNext(phdrs: seq<Phdr>, i: nat)
    requires i < |phdrs|
    ensures AllPages(phdrs[..i + 1]) ==
            AllPages(phdrs[..i]) + if phdrs[i].kind.Load? then SegmentPages(phdrs[i]) else []
  {
    assert phdrs[..i + 1][..i] == phdrs[..i];
  }

  lemma FitPrefix(r: Room, phdrs: seq<Phdr>, i: nat)
    requires i <= |phdrs|
    ensures FitAll(r, AllPages(phdrs)) ==> FitAll(r, AllPages(phdrs[..i]))
  {
    AllPagesPrefix(phdrs, i);
    var a, all := AllPages(phdrs[..i]), AllPages(phdrs);
    FitSplit(r, a, all[|a|..]);
    assert all == a + all[|a|..];
  }

  lemma PagesKept(m: Memory, m': Memory, file: seq<Byte>, ofs: nat, read: nat, p: nat, n: nat, w: bool)
    requires p + n !in m && m' == m[p + n := Page(Image(file, ofs, read, n), w)]
    requires forall i :: 0 <= i < n ==> PageIs(m, file, ofs, read, p, i, w)
    ensures forall i :: 0 <= i < n + 1 ==> PageIs(m', file, ofs, read, p, i, w)
    ensures Extends(m, m')
  {
    forall i | 0 <= i < n ensures PageIs(m', file, ofs, read, p, i, w) {
      assert PageIs(m, file, ofs, read, p, i, w);
    }
  }

  /** Whatever was loaded, destroying the directory frees no frame twice. */
  lemma LoadedUnshared(s: Phys, pdFrame: nat)
    requires PhysOk(s) && OwnFrame(s.dir, PdNo(PHYS_BASE), pdFrame)
    ensures Unshared(s.dir, PdNo(PHYS_BASE)) && NoDup(FreedUpTo(s.dir, PdNo(PHYS_BASE)) + [pdFrame])
  {
    var d, n := s.dir, PdNo(PHYS_BASE);
    forall p, q, x | 0 <= p < q < ENTRIES * n && Maps(d, p, x) ensures !Maps(d, q, x) {
      assert MapsTo(d, p, x) && (Maps(d, q, x) ==> MapsTo(d, q, x));
    }
    forall p, k, x | 0 <= p < ENTRIES * n && 0 <= k < ENTRIES && Maps(d, p, x) ensures !Points(d, k, x) {
      assert MapsTo(d, p, x) && Taken(s, x) && PdeOk(d, k);
    }
    DestroyedOnce(d, n, pdFrame);
  }

  lemma PageAddress(p: nat)
    requires p < USER_PAGES
    ensures PGSIZE * p < PHYS_BASE && PGSIZE * p / PGSIZE == p && PGSIZE * p % PGSIZE == 0 &&
            p / ENTRIES < PdNo(PHYS_BASE)
  {
  }

  /** What is read and zeroed for page K is its image. */
  lemma PageImage(file: seq<Byte>, ofs: nat, read: nat, k: nat, pos: nat, pageRead: nat)
    requires pageRead <= PGSIZE && (pageRead > 0 ==> pos + pageRead <= |file| && pos == ofs + PGSIZE * k)
    requires if PGSIZE * k + PGSIZE <= read then pageRead == PGSIZE
             else pageRead == if PGSIZE * k <= read then read - PGSIZE * k else 0
    ensures PageOfFile(file, pos, pageRead) == Image(file, ofs, read, k)
  {
  }
}
