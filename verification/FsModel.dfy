/** Who owns the sectors of the disk: the state of inode.c, free-map.c, file.c
    and the root directory, and the invariant their operations keep. */
module FsModel {
  import opened Common
  import opened Bitmap

  const SECTOR_SIZE := 512

  type Name = string
  type Id = nat       // address of a struct inode
  type FileId = nat   // address of a struct file

  /** struct inode_disk. */
  datatype Rec = Rec(start: nat, length: nat)

  /** struct inode. */
  datatype Inode = Inode(sector: nat, openCnt: nat, removed: bool, denyCnt: nat, data: Rec)

  /** struct file. */
  datatype File = File(inode: Id, deny: bool)

  /** What a marked sector is for: a fixed inode, the inode of a named file, the
      inode of a removed file still open, data of the inode at D, or nothing that
      can be reached. */
  datatype Owner = Nobody | System | Named(name: Name) | Orphan(id: Id) | Data(d: nat) | Lost

  /** The free map, the purpose of each sector, the inodes on disk, the root
      directory, the inodes in memory with the list of them, and the open files. */
  datatype Fs = Fs(used: seq<bool>, owner: seq<Owner>, disk: map<nat, Rec>, dir: map<Name, nat>,
                   inodes: map<Id, Inode>, list: seq<Id>, files: map<FileId, File>)

  /** bytes_to_sectors. */
  function Sectors(length: nat): nat {
    (length + SECTOR_SIZE - 1) / SECTOR_SIZE
  }

  ghost predicate InExtent(r: Rec, p: nat) {
    r.start <= p < r.start + Sectors(r.length)
  }

  /** Sector P holds the inode of a file that can be reached. */
  ghost predicate Live(s: Fs, p: nat) {
    p < |s.owner| && (s.owner[p].System? || s.owner[p].Named? || s.owner[p].Orphan?)
  }

  ghost predicate SectorOk(s: Fs, p: nat)
    requires p < |s.used| == |s.owner|
  {
    && (s.used[p] <==> s.owner[p] != Nobody)
    && (p <= 1 <==> s.owner[p].System?)
    && match s.owner[p]
       case Named(nm) => nm in s.dir && s.dir[nm] == p
       case Orphan(id) => id in s.inodes && s.inodes[id].sector == p && s.inodes[id].removed
       case Data(d) => Live(s, d) && d in s.disk && InExtent(s.disk[d], p)
       case _ => true
  }

  /** A file that can be reached has its inode on the disk. */
  ghost predicate LiveOk(s: Fs, d: nat) {
    Live(s, d) ==> d in s.disk && s.disk[d].start + Sectors(s.disk[d].length) <= |s.owner|
  }

  /** ... and owns all sectors of its extent. */
  ghost predicate ExtentAt(s: Fs, d: nat, p: nat) {
    Live(s, d) && d in s.disk && p < |s.owner| && InExtent(s.disk[d], p) ==> s.owner[p] == Data(d)
  }

  ghost predicate DirOk(s: Fs, nm: Name) {
    nm in s.dir ==> s.dir[nm] < |s.owner| && s.owner[s.dir[nm]] == Named(nm)
  }

  ghost function FileRefs(s: Fs, id: Id): set<FileId> {
    set f | f in s.files && s.files[f].inode == id
  }

  ghost function Deniers(s: Fs, id: Id): set<FileId> {
    set f | f in s.files && s.files[f].inode == id && s.files[f].deny
  }

  /** An inode in memory is a copy of the one on disk; it counts its openers, the
      files on it and the PINS of the call at work, and the files that deny
      writes. */
  ghost predicate InodeOk(s: Fs, pins: multiset<Id>, id: Id) {
    id in s.inodes ==>
    var i := s.inodes[id];
    && Live(s, i.sector) && i.sector in s.disk && i.data == s.disk[i.sector]
    && (i.removed <==> s.owner[i.sector] == Orphan(id))
    && i.openCnt > 0 && i.openCnt == |FileRefs(s, id)| + pins[id]
    && i.denyCnt == |Deniers(s, id)|
  }

  ghost predicate Alike(s: Fs, i: Id, j: Id)
    requires i in s.inodes && j in s.inodes
  {
    s.inodes[i].sector == s.inodes[j].sector
  }

  ghost predicate Disk(s: Fs) {
    && |s.used| == |s.owner| >= 2
    && (forall p :: 0 <= p < |s.used| ==> SectorOk(s, p))
    && (forall d :: LiveOk(s, d))
    && (forall d, p :: ExtentAt(s, d, p))
    && (forall nm :: DirOk(s, nm))
  }

  /** No sector has two inodes in memory. */
  ghost predicate Unique(s: Fs) {
    forall i, j {:trigger Alike(s, i, j)} :: i in s.inodes && j in s.inodes && Alike(s, i, j) ==> i == j
  }

  /** Files and pins refer to inodes in memory, which are on the list once. */
  ghost predicate Tables(s: Fs, pins: multiset<Id>) {
    && (forall f :: f in s.files ==> s.files[f].inode in s.inodes)
    && (forall id :: id in pins ==> id in s.inodes)
    && NoDup(s.list) && (forall id :: id in s.list <==> id in s.inodes)
  }

  ghost predicate Memory(s: Fs, pins: multiset<Id>) {
    (forall id :: InodeOk(s, pins, id)) && Unique(s) && Tables(s, pins)
  }

  ghost predicate Inv(s: Fs, pins: multiset<Id>) {
    Disk(s) && Memory(s, pins)
  }

  // ----- what it means

  /** Extents of files that can be reached share no sector, and are marked. */
  lemma ExtentsDisjoint(s: Fs, pins: multiset<Id>, c: nat, d: nat, p: nat)
    requires Inv(s, pins) && Live(s, c) && Live(s, d) && c in s.disk && d in s.disk && p < |s.used|
    requires InExtent(s.disk[c], p) && InExtent(s.disk[d], p)
    ensures c == d && s.used[p] && !Live(s, p)
  {
    assert ExtentAt(s, c, p) && ExtentAt(s, d, p) && SectorOk(s, p);
  }

  /** Named files and open files can be reached, and their inodes are marked. */
  lemma NamedAndOpenLive(s: Fs, pins: multiset<Id>, nm: Name, id: Id)
    requires Inv(s, pins)
    ensures nm in s.dir ==> Live(s, s.dir[nm]) && s.used[s.dir[nm]]
    ensures id in s.inodes ==> Live(s, s.inodes[id].sector) && s.used[s.inodes[id].sector]
  {
    assert DirOk(s, nm);
    if nm in s.dir {
      assert SectorOk(s, s.dir[nm]);
    }
    if id in s.inodes {
      assert InodeOk(s, pins, id) && SectorOk(s, s.inodes[id].sector);
    }
  }

  /** Nothing else is marked, but for lost sectors. */
  lemma MarkedHasReason(s: Fs, pins: multiset<Id>, p: nat)
    requires Inv(s, pins) && p < |s.used| && s.used[p] && s.owner[p] != Lost
    ensures p <= 1 || (exists nm :: nm in s.dir && s.dir[nm] == p) ||
            (exists id :: id in s.inodes && s.inodes[id].sector == p) ||
            (exists d :: Live(s, d) && d in s.disk && InExtent(s.disk[d], p))
  {
    assert SectorOk(s, p);
  }

  /** Two names are two files. */
  lemma NamesApart(s: Fs, pins: multiset<Id>, a: Name, b: Name)
    requires Inv(s, pins) && a in s.dir && b in s.dir && s.dir[a] == s.dir[b]
    ensures a == b
  {
    assert DirOk(s, a) && DirOk(s, b);
  }

  /** byte_to_sector; None is its -1. */
  function ByteToSector(r: Rec, pos: nat): Option<nat> {
    if pos < r.length then Some(r.start + pos / SECTOR_SIZE) else None
  }

  /** A file has just enough sectors. */
  lemma SectorsLeast(length: nat)
    ensures length <= SECTOR_SIZE * Sectors(length) < length + SECTOR_SIZE
  {
  }

  /** Block K of a file is on the K-th sector of its extent, so two bytes share a
      sector exactly when they are in the same block; past the end there is none. */
  lemma BlocksInOrder(r: Rec, k: nat, pos: nat, pos': nat)
    ensures ByteToSector(r, pos).Some? <==> pos < r.length
    ensures SECTOR_SIZE * k <= pos < SECTOR_SIZE * (k + 1) && pos < r.length ==>
              k < Sectors(r.length) && ByteToSector(r, pos) == Some(r.start + k)
    ensures pos < r.length && pos' < r.length ==>
              (ByteToSector(r, pos) == ByteToSector(r, pos') <==> pos / SECTOR_SIZE == pos' / SECTOR_SIZE)
  {
    SectorsLeast(r.length);
  }

  /** Reads and writes of an open file stay on its own sectors. */
  lemma BytesStayInside(s: Fs, pins: multiset<Id>, id: Id, pos: nat)
    requires Inv(s, pins) && id in s.inodes && pos < s.inodes[id].data.length
    ensures var p := ByteToSector(s.inodes[id].data, pos);
            p.Some? && p.value < |s.owner| && s.owner[p.value] == Data(s.inodes[id].sector)
  {
    var i := s.inodes[id];
    var p := i.data.start + pos / SECTOR_SIZE;
    assert InodeOk(s, pins, id) && LiveOk(s, i.sector);
    assert InExtent(i.data, p);
    assert ExtentAt(s, i.sector, p);
  }

  /** The assertions of inode_deny_write and inode_allow_write: no more deniers
      than openers. */
  lemma DeniersAreOpeners(s: Fs, pins: multiset<Id>, id: Id)
    requires Inv(s, pins) && id in s.inodes
    ensures s.inodes[id].denyCnt == |Deniers(s, id)| <= s.inodes[id].openCnt
    ensures forall f :: f in s.files && s.files[f].inode == id && !s.files[f].deny ==>
              s.inodes[id].denyCnt < s.inodes[id].openCnt
    ensures forall f :: f in s.files && s.files[f].inode == id && s.files[f].deny ==> s.inodes[id].denyCnt > 0
  {
    assert InodeOk(s, pins, id);
    SubsetSize(Deniers(s, id), FileRefs(s, id));
    forall f | f in s.files && s.files[f].inode == id && !s.files[f].deny
      ensures s.inodes[id].denyCnt < s.inodes[id].openCnt
    {
      SubsetSize(Deniers(s, id), FileRefs(s, id) - {f});
    }
    forall f | f in s.files && s.files[f].inode == id && s.files[f].deny ensures s.inodes[id].denyCnt > 0 {
      assert f in Deniers(s, id);
    }
  }

  // ----- a new disk

  /** A disk of N sectors with the free map's file of LEN0 bytes in front, the
      root directory of LEN1 bytes behind it, and the free map's file open. */
  function Laid(n: nat, len0: nat, len1: nat): Fs {
    var m, r := Sectors(len0), Sectors(len1);
    Fs(seq(n, p => p < 2 + m + r),
       seq(n, p => if p <= 1 then System else if p < 2 + m then Data(0) else if p < 2 + m + r then Data(1) else Nobody),
       map[0 := Rec(2, len0), 1 := Rec(2 + m, len1)],
       map[],
       map[0 := Inode(0, 1, false, 0, Rec(2, len0))], [0],
       map[0 := File(0, false)])
  }

  /** The state after formatting a disk of N sectors: a directory has room for 16
      entries of 20 bytes. */
  function Formatted(n: nat): Fs {
    Laid(n, 4 * ElemCnt(n), 16 * 20)
  }

  lemma LaidDisk(n: nat, len0: nat, len1: nat)
    requires 2 + Sectors(len0) + Sectors(len1) <= n
    ensures Disk(Laid(n, len0, len1))
  {
    var s := Laid(n, len0, len1);
    forall p | 0 <= p < |s.used| ensures SectorOk(s, p) {
    }
    forall d ensures LiveOk(s, d) {
    }
    forall d, p ensures ExtentAt(s, d, p) {
    }
  }

  lemma FormattedInv(n: nat)
    requires 2 + Sectors(4 * ElemCnt(n)) + Sectors(16 * 20) <= n
    ensures Inv(Formatted(n), multiset{})
  {
    LaidDisk(n, 4 * ElemCnt(n), 16 * 20);
    LaidMemory(n, 4 * ElemCnt(n), 16 * 20);
  }

  lemma LaidMemory(n: nat, len0: nat, len1: nat)
    requires 2 <= n
    ensures Memory(Laid(n, len0, len1), multiset{})
  {
    var s := Laid(n, len0, len1);
    assert FileRefs(s, 0) == {0} && Deniers(s, 0) == {};
  }
}
