/** Each change the file system makes to its state keeps the invariant. */
module FsSteps {
  import opened Common
  import opened Bitmap
  import opened FsModel

  /** Sectors START to START + CNT get owner O. */
  function Assign(owner: seq<Owner>, start: nat, cnt: nat, o: Owner): seq<Owner> {
    seq(|owner|, p requires 0 <= p < |owner| => if start <= p < start + cnt then o else owner[p])
  }

  ghost predicate AllOwned(owner: seq<Owner>, start: nat, cnt: nat, o: Owner) {
    start + cnt <= |owner| && forall p :: start <= p < start + cnt ==> owner[p] == o
  }

  // ----- the free map

  /** Free sectors are marked; nothing refers to them yet. */
  ghost function Claim(s: Fs, start: nat, cnt: nat): Fs {
    s.(used := Fill(s.used, start, cnt, true), owner := Assign(s.owner, start, cnt, Lost))
  }

  /** Sectors nothing refers to are cleared. */
  ghost function Release(s: Fs, start: nat, cnt: nat): Fs {
    s.(used := Fill(s.used, start, cnt, false), owner := Assign(s.owner, start, cnt, Nobody))
  }

  /** Sectors that nothing refers to may change between lost and free. */
  lemma LooseKeeps(s: Fs, s': Fs, pins: multiset<Id>)
    requires Inv(s, pins) && s' == s.(used := s'.used, owner := s'.owner)
    requires |s'.used| == |s.used| && |s'.owner| == |s.owner|
    requires forall p :: 0 <= p < |s.owner| ==>
               (if s'.owner[p] == s.owner[p] then s'.used[p] == s.used[p]
                else s.owner[p] in {Nobody, Lost} && s'.owner[p] in {Nobody, Lost} &&
                     (s'.used[p] <==> s'.owner[p] != Nobody))
    ensures Inv(s', pins)
  {
    assert forall p :: Live(s', p) <==> Live(s, p);
    forall p | 0 <= p < |s'.used| ensures SectorOk(s', p) {
      assert SectorOk(s, p);
    }
    forall d ensures LiveOk(s', d) {
      assert LiveOk(s, d);
    }
    forall d, p ensures ExtentAt(s', d, p) {
      assert ExtentAt(s, d, p);
    }
    forall nm ensures DirOk(s', nm) {
      assert DirOk(s, nm);
    }
    LooseMemory(s, s', pins);
  }

  /** The inodes in memory only look at sectors that can be reached. */
  lemma LooseMemory(s: Fs, s': Fs, pins: multiset<Id>)
    requires Memory(s, pins) && s'.inodes == s.inodes && s'.list == s.list && s'.files == s.files
    requires |s'.owner| == |s.owner|
    requires forall d: nat :: Live(s, d) && d in s.disk ==>
               s'.owner[d] == s.owner[d] && d in s'.disk && s'.disk[d] == s.disk[d]
    ensures Memory(s', pins)
  {
    forall id ensures InodeOk(s', pins, id) {
      assert InodeOk(s, pins, id);
      assert FileRefs(s', id) == FileRefs(s, id) && Deniers(s', id) == Deniers(s, id);
    }
    UniqueKept(s, s');
  }

  lemma UniqueKept(s: Fs, s': Fs)
    requires Unique(s) && forall i :: i in s'.inodes ==> i in s.inodes && s'.inodes[i].sector == s.inodes[i].sector
    ensures Unique(s')
  {
    forall i, j | i in s'.inodes && j in s'.inodes && Alike(s', i, j) ensures i == j {
      assert Alike(s, i, j);
    }
  }

  lemma ClaimKeeps(s: Fs, pins: multiset<Id>, start: nat, cnt: nat)
    requires Inv(s, pins) && start + cnt <= |s.used| && AllAre(s.used, start, cnt, false)
    ensures Inv(Claim(s, start, cnt), pins) && AllOwned(Claim(s, start, cnt).owner, start, cnt, Lost)
  {
    var s' := Claim(s, start, cnt);
    forall p | 0 <= p < |s.owner|
      ensures if start <= p < start + cnt then s.owner[p] == Nobody && s'.owner[p] == Lost && s'.used[p]
              else s'.owner[p] == s.owner[p] && s'.used[p] == s.used[p]
    {
      assert SectorOk(s, p);
    }
    LooseKeeps(s, s', pins);
  }

  lemma ReleaseKeeps(s: Fs, pins: multiset<Id>, start: nat, cnt: nat)
    requires Inv(s, pins) && AllOwned(s.owner, start, cnt, Lost)
    ensures AllAre(s.used, start, cnt, true) && Inv(Release(s, start, cnt), pins)
  {
    var s' := Release(s, start, cnt);
    forall p | start <= p < start + cnt ensures s.used[p] {
      assert SectorOk(s, p) && s.owner[p] == Lost;
    }
    LooseKeeps(s, s', pins);
  }

  /** Writes to lost sectors change no file. */
  lemma WriteKeeps(s: Fs, s': Fs, pins: multiset<Id>)
    requires Inv(s, pins) && s' == s.(disk := s'.disk)
    requires forall d :: Live(s, d) ==> d in s.disk && d in s'.disk && s'.disk[d] == s.disk[d]
    ensures Inv(s', pins)
  {
    assert forall p :: Live(s', p) <==> Live(s, p);
    forall p | 0 <= p < |s'.used| ensures SectorOk(s', p) {
      assert SectorOk(s, p);
    }
    forall d ensures LiveOk(s', d) {
      assert LiveOk(s, d);
    }
    forall d, p ensures ExtentAt(s', d, p) {
      assert ExtentAt(s, d, p);
    }
    forall nm ensures DirOk(s', nm) {
      assert DirOk(s, nm);
    }
    LooseMemory(s, s', pins);
  }

  // ----- the directory

  /** A new file gets its name, and with it its sectors. */
  ghost function Adopt(s: Fs, nm: Name, d: nat): Fs
    requires d in s.disk
  {
    s.(dir := s.dir[nm := d],
       owner := seq(|s.owner|, p requires 0 <= p < |s.owner| =>
         if p == d then Named(nm) else if InExtent(s.disk[d], p) then Data(d) else s.owner[p]))
  }

  lemma AdoptKeeps(s: Fs, pins: multiset<Id>, nm: Name, d: nat)
    requires Inv(s, pins) && nm !in s.dir && d in s.disk && AllOwned(s.owner, d, 1, Lost) && !InExtent(s.disk[d], d)
    requires AllOwned(s.owner, s.disk[d].start, Sectors(s.disk[d].length), Lost)
    ensures Inv(Adopt(s, nm, d), pins)
  {
    var s' := Adopt(s, nm, d);
    AdoptLive(s, nm, d);
    forall p | 0 <= p < |s'.used| ensures SectorOk(s', p) {
      assert SectorOk(s, p);
    }
    forall c ensures LiveOk(s', c) {
      assert LiveOk(s, c);
    }
    forall c, p ensures ExtentAt(s', c, p) {
      assert ExtentAt(s, c, p) && (c != d && Live(s', c) ==> Live(s, c));
    }
    forall n ensures DirOk(s', n) {
      assert DirOk(s, n);
    }
    LooseMemory(s, s', pins);
  }

  lemma AdoptLive(s: Fs, nm: Name, d: nat)
    requires d in s.disk && AllOwned(s.owner, d, 1, Lost) && !InExtent(s.disk[d], d)
    requires AllOwned(s.owner, s.disk[d].start, Sectors(s.disk[d].length), Lost)
    ensures forall p :: Live(Adopt(s, nm, d), p) <==> Live(s, p) || p == d
    ensures s.owner[d] == Lost
  {
    assert s.owner[d] == Lost;
  }

  /** The name of an open file goes; its inode is marked removed. */
  ghost function Unname(s: Fs, nm: Name, id: Id): Fs
    requires id in s.inodes
  {
    var d := s.inodes[id].sector;
    s.(dir := s.dir - {nm}, inodes := s.inodes[id := s.inodes[id].(removed := true)],
       owner := Assign(s.owner, d, 1, Orphan(id)))
  }

  lemma UnnameKeeps(s: Fs, pins: multiset<Id>, nm: Name, id: Id)
    requires Inv(s, pins) && nm in s.dir && id in s.inodes && s.inodes[id].sector == s.dir[nm]
    ensures Inv(Unname(s, nm, id), pins)
  {
    var s', d := Unname(s, nm, id), s.dir[nm];
    assert DirOk(s, nm) && InodeOk(s, pins, id);
    assert forall p :: Live(s', p) <==> Live(s, p);
    forall p | 0 <= p < |s'.used| ensures SectorOk(s', p) {
      assert SectorOk(s, p);
    }
    forall c ensures LiveOk(s', c) {
      assert LiveOk(s, c);
    }
    forall c, p ensures ExtentAt(s', c, p) {
      assert ExtentAt(s, c, p);
    }
    forall n ensures DirOk(s', n) {
      assert DirOk(s, n);
    }
    UnnameMemory(s, pins, nm, id);
  }

  lemma UnnameMemory(s: Fs, pins: multiset<Id>, nm: Name, id: Id)
    requires Memory(s, pins) && id in s.inodes && s.inodes[id].sector < |s.owner|
    requires s.owner[s.inodes[id].sector].Named?
    ensures Memory(Unname(s, nm, id), pins)
  {
    var s' := Unname(s, nm, id);
    forall i ensures InodeOk(s', pins, i) {
      assert InodeOk(s, pins, i) && (i in s.inodes && Alike(s, i, id) ==> i == id);
      assert FileRefs(s', i) == FileRefs(s, i) && Deniers(s', i) == Deniers(s, i);
    }
    UniqueKept(s, s');
  }

  // ----- inodes in memory

  /** inode_open of an inode not in memory. */
  ghost function Load(s: Fs, id: Id, d: nat): Fs
    requires d in s.disk
  {
    s.(inodes := s.inodes[id := Inode(d, 1, false, 0, s.disk[d])], list := [id] + s.list)
  }

  /** inode_reopen. */
  ghost function Reopen(s: Fs, id: Id): Fs
    requires id in s.inodes
  {
    s.(inodes := s.inodes[id := s.inodes[id].(openCnt := s.inodes[id].openCnt + 1)])
  }

  /** inode_close by an opener who is not the last. */
  ghost function Unpin(s: Fs, id: Id): Fs
    requires id in s.inodes && s.inodes[id].openCnt > 0
  {
    s.(inodes := s.inodes[id := s.inodes[id].(openCnt := s.inodes[id].openCnt - 1)])
  }

  /** Inodes may come and change their counts while the disk stays. */
  lemma DiskKept(s: Fs, s': Fs)
    requires Disk(s) && s' == s.(inodes := s'.inodes, list := s'.list, files := s'.files)
    requires forall id :: id in s.inodes && s.inodes[id].removed ==>
               id in s'.inodes && s'.inodes[id].sector == s.inodes[id].sector && s'.inodes[id].removed
    ensures Disk(s')
  {
    assert forall p :: Live(s', p) <==> Live(s, p);
    forall p | 0 <= p < |s'.used| ensures SectorOk(s', p) {
      assert SectorOk(s, p);
    }
    forall d ensures LiveOk(s', d) {
      assert LiveOk(s, d);
    }
    forall d, p ensures ExtentAt(s', d, p) {
      assert ExtentAt(s, d, p);
    }
    forall nm ensures DirOk(s', nm) {
      assert DirOk(s, nm);
    }
  }

  lemma LoadKeeps(s: Fs, pins: multiset<Id>, id: Id, d: nat)
    requires Inv(s, pins) && id !in s.inodes && Live(s, d) && d in s.disk && !s.owner[d].Orphan?
    requires forall i :: i in s.inodes ==> s.inodes[i].sector != d
    ensures Inv(Load(s, id, d), pins + multiset{id})
  {
    var s', pins' := Load(s, id, d), pins + multiset{id};
    DiskKept(s, s');
    forall i ensures InodeOk(s', pins', i) {
      assert InodeOk(s, pins, i);
      LoadInode(s, pins, id, d, i);
    }
    forall i, j | i in s'.inodes && j in s'.inodes && Alike(s', i, j) ensures i == j {
      assert i != id && j != id ==> Alike(s, i, j);
    }
  }

  lemma LoadInode(s: Fs, pins: multiset<Id>, id: Id, d: nat, i: Id)
    requires id !in s.inodes && Live(s, d) && d in s.disk && !s.owner[d].Orphan? && Tables(s, pins)
    requires InodeOk(s, pins, i)
    ensures InodeOk(Load(s, id, d), pins + multiset{id}, i)
  {
    var s' := Load(s, id, d);
    if i == id {
      assert id !in pins;
      assert FileRefs(s', id) == {} && Deniers(s', id) == {};
    } else {
      assert FileRefs(s', i) == FileRefs(s, i) && Deniers(s', i) == Deniers(s, i);
    }
  }

  /** The counters of one inode and the files on it change together. */
  lemma CountsKept(s: Fs, s': Fs, pins: multiset<Id>, pins': multiset<Id>, id: Id)
    requires Inv(s, pins) && id in s.inodes && id in s'.inodes
    requires s' == s.(inodes := s.inodes[id := s'.inodes[id]], files := s'.files)
    requires s'.inodes[id] == s.inodes[id].(openCnt := s'.inodes[id].openCnt, denyCnt := s'.inodes[id].denyCnt)
    requires SameElsewhere(s, s', id) && forall i :: i != id ==> pins'[i] == pins[i]
    requires s'.inodes[id].openCnt > 0 && s'.inodes[id].openCnt == |FileRefs(s', id)| + pins'[id]
    requires s'.inodes[id].denyCnt == |Deniers(s', id)|
    requires forall f :: f in s'.files ==> s'.files[f].inode in s.inodes
    ensures Inv(s', pins')
  {
    DiskKept(s, s');
    forall i ensures InodeOk(s', pins', i) {
      assert InodeOk(s, pins, i);
      InodeKept(s, s', pins, pins', id, i);
    }
    UniqueKept(s, s');
    forall i | i in pins' ensures i in s'.inodes {
      assert i != id ==> i in pins;
    }
  }

  lemma InodeKept(s: Fs, s': Fs, pins: multiset<Id>, pins': multiset<Id>, id: Id, i: Id)
    requires InodeOk(s, pins, i) && id in s.inodes && id in s'.inodes
    requires s' == s.(inodes := s.inodes[id := s'.inodes[id]], files := s'.files)
    requires s'.inodes[id] == s.inodes[id].(openCnt := s'.inodes[id].openCnt, denyCnt := s'.inodes[id].denyCnt)
    requires i != id ==> pins'[i] == pins[i] && FileRefs(s', i) == FileRefs(s, i) && Deniers(s', i) == Deniers(s, i)
    requires s'.inodes[id].openCnt > 0 && s'.inodes[id].openCnt == |FileRefs(s', id)| + pins'[id]
    requires s'.inodes[id].denyCnt == |Deniers(s', id)|
    ensures InodeOk(s', pins', i)
  {
  }

  lemma ReopenKeeps(s: Fs, pins: multiset<Id>, id: Id)
    requires Inv(s, pins) && id in s.inodes
    ensures Inv(Reopen(s, id), pins + multiset{id})
  {
    var s' := Reopen(s, id);
    assert InodeOk(s, pins, id);
    assert forall i :: FileRefs(s', i) == FileRefs(s, i) && Deniers(s', i) == Deniers(s, i);
    CountsKept(s, s', pins, pins + multiset{id}, id);
  }

  lemma UnpinKeeps(s: Fs, pins: multiset<Id>, id: Id)
    requires Inv(s, pins) && id in pins && id in s.inodes && s.inodes[id].openCnt > 1
    ensures Inv(Unpin(s, id), pins - multiset{id})
  {
    var s' := Unpin(s, id);
    assert InodeOk(s, pins, id);
    assert forall i :: FileRefs(s', i) == FileRefs(s, i) && Deniers(s', i) == Deniers(s, i);
    CountsKept(s, s', pins, pins - multiset{id}, id);
  }

  /** inode_close by the last opener. The sectors of a removed file are left with
      no one referring to them. */
  ghost function Drop(s: Fs, id: Id): Fs
    requires id in s.inodes
  {
    var i := s.inodes[id];
    s.(inodes := s.inodes - {id}, list := Unlink(s.list, id),
       owner := if i.removed then Abandon(s.owner, i) else s.owner)
  }

  ghost function Abandon(owner: seq<Owner>, i: Inode): seq<Owner> {
    seq(|owner|, p requires 0 <= p < |owner| => if p == i.sector || InExtent(i.data, p) then Lost else owner[p])
  }

  lemma DropKeeps(s: Fs, pins: multiset<Id>, id: Id)
    requires Inv(s, pins) && id in pins && id in s.inodes && s.inodes[id].openCnt == 1
    ensures Inv(Drop(s, id), pins - multiset{id})
    ensures var i := s.inodes[id];
            i.removed ==> AllOwned(Drop(s, id).owner, i.sector, 1, Lost) && !InExtent(i.data, i.sector) &&
                          AllOwned(Drop(s, id).owner, i.data.start, Sectors(i.data.length), Lost)
  {
    var i := s.inodes[id];
    assert InodeOk(s, pins, id) && ExtentAt(s, i.sector, i.sector) && LiveOk(s, i.sector);
    if i.removed {
      DropDisk(s, pins, id);
    } else {
      assert forall p :: 0 <= p < |s.used| ==> SectorOk(s, p);
      DropOther(s, id);
    }
    DropMemory(s, pins, id);
  }

  /** Dropping an inode that still has its name changes nothing on disk. */
  lemma DropOther(s: Fs, id: Id)
    requires Disk(s) && id in s.inodes && !s.inodes[id].removed
    ensures Disk(Drop(s, id))
  {
    DiskKept(s, Drop(s, id));
  }

  lemma DropDisk(s: Fs, pins: multiset<Id>, id: Id)
    requires Disk(s) && id in s.inodes && s.inodes[id].removed && InodeOk(s, pins, id)
    ensures Disk(Drop(s, id))
  {
    var s', d := Drop(s, id), s.inodes[id].sector;
    assert ExtentAt(s, d, d);
    DropLive(s, pins, id);
    forall p | 0 <= p < |s'.used| ensures SectorOk(s', p) {
      assert SectorOk(s, p) && ExtentAt(s, d, p);
    }
    forall c ensures LiveOk(s', c) {
      assert LiveOk(s, c);
    }
    forall c, p ensures ExtentAt(s', c, p) {
      assert ExtentAt(s, c, p) && ExtentAt(s, d, p);
      assert Live(s', c) ==> Live(s, c) && c != d;
    }
    forall nm ensures DirOk(s', nm) {
      assert DirOk(s, nm);
      if nm in s.dir {
        assert ExtentAt(s, d, s.dir[nm]);
      }
    }
  }

  lemma DropLive(s: Fs, pins: multiset<Id>, id: Id)
    requires Disk(s) && id in s.inodes && s.inodes[id].removed && InodeOk(s, pins, id)
    ensures forall p :: Live(Drop(s, id), p) <==> Live(s, p) && p != s.inodes[id].sector
  {
    var s', d := Drop(s, id), s.inodes[id].sector;
    forall p ensures Live(s', p) <==> Live(s, p) && p != d {
      assert ExtentAt(s, d, p);
    }
  }

  lemma DropMemory(s: Fs, pins: multiset<Id>, id: Id)
    requires Disk(s) && Memory(s, pins) && id in pins && id in s.inodes && s.inodes[id].openCnt == 1
    ensures Memory(Drop(s, id), pins - multiset{id})
  {
    var s', pins' := Drop(s, id), pins - multiset{id};
    assert InodeOk(s, pins, id);
    NoRefs(s, id);
    UnlinkMembers(s.list, id);
    UniqueKept(s, s');
    forall i ensures InodeOk(s', pins', i) {
      assert InodeOk(s, pins, i);
      DropInode(s, pins, id, i);
    }
  }

  lemma NoRefs(s: Fs, id: Id)
    requires |FileRefs(s, id)| == 0
    ensures forall f :: f in s.files ==> s.files[f].inode != id
  {
    forall f | f in s.files ensures s.files[f].inode != id {
      assert s.files[f].inode == id ==> f in FileRefs(s, id);
    }
  }

  lemma DropInode(s: Fs, pins: multiset<Id>, id: Id, i: Id)
    requires Disk(s) && Unique(s) && id in s.inodes
    requires InodeOk(s, pins, i) && InodeOk(s, pins, id)
    ensures InodeOk(Drop(s, id), pins - multiset{id}, i)
  {
    var s' := Drop(s, id);
    if i in s.inodes && i != id {
      assert ExtentAt(s, s.inodes[id].sector, s.inodes[i].sector);
      assert !Alike(s, i, id);
      assert FileRefs(s', i) == FileRefs(s, i) && Deniers(s', i) == Deniers(s, i);
    }
  }

  // ----- files

  /** file_open: the new file takes over the opener's pin. */
  ghost function AddFile(s: Fs, f: FileId, id: Id): Fs {
    s.(files := s.files[f := File(id, false)])
  }

  /** Files with other inodes are the same. */
  ghost predicate SameElsewhere(s: Fs, s': Fs, id: Id) {
    forall i :: i != id ==> FileRefs(s', i) == FileRefs(s, i) && Deniers(s', i) == Deniers(s, i)
  }

  lemma FileAdded(s: Fs, f: FileId, id: Id)
    requires f !in s.files
    ensures var s' := AddFile(s, f, id);
            && SameElsewhere(s, s', id)
            && |FileRefs(s', id)| == |FileRefs(s, id)| + 1 && |Deniers(s', id)| == |Deniers(s, id)|
  {
    var s' := AddFile(s, f, id);
    assert FileRefs(s', id) == FileRefs(s, id) + {f} && Deniers(s', id) == Deniers(s, id);
  }

  lemma AddFileKeeps(s: Fs, pins: multiset<Id>, f: FileId, id: Id)
    requires Inv(s, pins) && id in pins && id in s.inodes && f !in s.files
    ensures Inv(AddFile(s, f, id), pins - multiset{id})
  {
    assert InodeOk(s, pins, id);
    FileAdded(s, f, id);
    CountsKept(s, AddFile(s, f, id), pins, pins - multiset{id}, id);
  }

  /** file_close once writes are allowed: the file's place is pinned by the call. */
  ghost function RemoveFile(s: Fs, f: FileId): Fs {
    s.(files := s.files - {f})
  }

  lemma FileRemoved(s: Fs, f: FileId)
    requires f in s.files && !s.files[f].deny
    ensures var s', id := RemoveFile(s, f), s.files[f].inode;
            && SameElsewhere(s, s', id)
            && |FileRefs(s, id)| == |FileRefs(s', id)| + 1 && |Deniers(s', id)| == |Deniers(s, id)|
  {
    var s', id := RemoveFile(s, f), s.files[f].inode;
    assert FileRefs(s, id) == FileRefs(s', id) + {f} && Deniers(s', id) == Deniers(s, id);
  }

  lemma RemoveFileKeeps(s: Fs, pins: multiset<Id>, f: FileId)
    requires Inv(s, pins) && f in s.files && !s.files[f].deny
    ensures Inv(RemoveFile(s, f), pins + multiset{s.files[f].inode})
  {
    var id := s.files[f].inode;
    assert InodeOk(s, pins, id);
    FileRemoved(s, f);
    CountsKept(s, RemoveFile(s, f), pins, pins + multiset{id}, id);
  }

  /** file_deny_write and file_allow_write, when they change something. */
  ghost function SetDeny(s: Fs, f: FileId, deny: bool): Fs
    requires f in s.files && s.files[f].inode in s.inodes
    requires !deny ==> s.inodes[s.files[f].inode].denyCnt > 0
  {
    var id := s.files[f].inode;
    var n := s.inodes[id].denyCnt;
    s.(files := s.files[f := s.files[f].(deny := deny)],
       inodes := s.inodes[id := s.inodes[id].(denyCnt := if deny then n + 1 else n - 1)])
  }

  /** A file that keeps its inode is one of the same files. */
  lemma SameInode(s: Fs, s': Fs, f: FileId)
    requires f in s.files && s'.files == s.files[f := File(s.files[f].inode, !s.files[f].deny)]
    ensures SameElsewhere(s, s', s.files[f].inode) && FileRefs(s', s.files[f].inode) == FileRefs(s, s.files[f].inode)
  {
  }

  lemma DenySet(s: Fs, f: FileId, deny: bool)
    requires f in s.files && s.files[f].deny != deny && s.files[f].inode in s.inodes
    requires !deny ==> s.inodes[s.files[f].inode].denyCnt > 0
    ensures var s', id := SetDeny(s, f, deny), s.files[f].inode;
            |Deniers(s', id)| == |Deniers(s, id)| + if deny then 1 else -1
  {
    var s', id := SetDeny(s, f, deny), s.files[f].inode;
    if deny {
      assert Deniers(s', id) == Deniers(s, id) + {f};
    } else {
      assert Deniers(s, id) == Deniers(s', id) + {f};
    }
  }

  lemma SetDenyKeeps(s: Fs, pins: multiset<Id>, f: FileId, deny: bool)
    requires Inv(s, pins) && f in s.files && s.files[f].deny != deny
    requires s.files[f].inode in s.inodes && (!deny ==> s.inodes[s.files[f].inode].denyCnt > 0)
    ensures Inv(SetDeny(s, f, deny), pins)
  {
    var id := s.files[f].inode;
    assert InodeOk(s, pins, id);
    DenySet(s, f, deny);
    SameInode(s, SetDeny(s, f, deny), f);
    CountsKept(s, SetDeny(s, f, deny), pins, pins, id);
  }
}
