/** free-map.c, inode.c, file.c and filesys.c as code over the file system's
    variables. Parameters named ...Ok say whether an allocation or a write
    succeeds; parameters named new... are addresses the allocator returns. */
module FileSystem {
  import opened Common
  import opened Bitmap
  import opened FsModel
  import opened FsSteps

  const ROOT_DIR_SECTOR := 1
  const NAME_MAX := 14

  /** What inode_create leaves: LENGTH bytes at START for the inode at D. */
  ghost function Created(s: Fs, d: nat, start: nat, length: nat): Fs {
    Claim(s, start, Sectors(length)).(disk := Zeroed(s.disk[d := Rec(start, length)], start, Sectors(length)))
  }

  /** The inodes on disk after CNT sectors from START are overwritten. */
  ghost function Zeroed(disk: map<nat, Rec>, start: nat, cnt: nat): map<nat, Rec> {
    map p | p in disk && !(start <= p < start + cnt) :: disk[p]
  }

  /** inode_close. */
  ghost function Closed(s: Fs, id: Id): Fs
    requires id in s.inodes && s.inodes[id].openCnt > 0
  {
    var i := s.inodes[id];
    if i.openCnt > 1 then Unpin(s, id)
    else if i.removed then Release(Release(Drop(s, id), i.sector, 1), i.data.start, Sectors(i.data.length))
    else Drop(s, id)
  }

  /** The sectors of a removed file, its inode and all its data, are released when
      its last opener closes it and at no other close. */
  lemma ReleasedOnce(s: Fs, pins: multiset<Id>, id: Id, p: nat)
    requires Inv(s, pins) && id in pins && id in s.inodes && p < |s.used|
    ensures s.inodes[id].openCnt > 0 && |Closed(s, id).used| == |s.used|
    ensures var i := s.inodes[id];
            var mine := p == i.sector || InExtent(i.data, p);
            && (mine ==> s.used[p])
            && Closed(s, id).used[p] == (s.used[p] && !(mine && i.openCnt == 1 && i.removed))
  {
    var i := s.inodes[id];
    assert InodeOk(s, pins, id) && ExtentAt(s, i.sector, p) && SectorOk(s, p);
  }

  /** One opener of inode ID is gone: the free map loses the file's sectors if it
      was the last one and the file is removed, and no sector is lost. */
  ghost predicate ClosedBy(s: Fs, s': Fs, id: Id) {
    && id in s.inodes && |s'.used| == |s.used| == |s.owner| == |s'.owner|
    && var i := s.inodes[id];
       forall p :: 0 <= p < |s.used| ==>
         && s'.used[p] == (s.used[p] && !((p == i.sector || InExtent(i.data, p)) && i.openCnt == 1 && i.removed))
         && (s'.owner[p] == Lost ==> s.owner[p] == Lost)
  }

  lemma ClosedFacts(s: Fs, pins: multiset<Id>, id: Id)
    requires Inv(s, pins) && id in pins && id in s.inodes
    ensures s.inodes[id].openCnt > 0 && ClosedBy(s, Closed(s, id), id)
  {
    assert InodeOk(s, pins, id);
    forall p | 0 <= p < |s.used| {
      ReleasedOnce(s, pins, id, p);
    }
  }

  // ----- lost sectors stay lost

  ghost predicate LostAt(s: Fs, p: nat) {
    p < |s.used| == |s.owner| && s.used[p] && s.owner[p] == Lost
  }

  /** Sectors that are marked and lost are marked and lost afterwards. */
  ghost predicate LostKept(s: Fs, s': Fs) {
    forall p: nat :: LostAt(s, p) ==> LostAt(s', p)
  }

  /** So they are after any number of calls that keep them. */
  lemma {:induction false} LostForGood(run: seq<Fs>, p: nat)
    requires run != [] && LostAt(run[0], p) && forall i :: 0 <= i < |run| - 1 ==> LostKept(run[i], run[i + 1])
    ensures forall i :: 0 <= i < |run| ==> LostAt(run[i], p)
  {
    if |run| > 1 {
      assert LostKept(run[0], run[0 + 1]);
      forall i | 0 <= i < |run[1..]| - 1 ensures LostKept(run[1..][i], run[1..][i + 1]) {
        assert LostKept(run[i + 1], run[i + 1 + 1]);
      }
      LostForGood(run[1..], p);
      forall i | 0 < i < |run| ensures LostAt(run[i], p) {
        assert LostAt(run[1..][i - 1], p);
      }
    }
  }

  /** Closing an inode releases none of them. */
  lemma CloseKeepsLost(s: Fs, pins: multiset<Id>, id: Id)
    requires Inv(s, pins) && id in pins && id in s.inodes
    ensures s.inodes[id].openCnt > 0 && LostKept(s, Closed(s, id))
  {
    var i := s.inodes[id];
    assert InodeOk(s, pins, id);
    forall p: nat | LostAt(s, p) ensures LostAt(Closed(s, id), p) {
      ReleasedOnce(s, pins, id, p);
      assert ExtentAt(s, i.sector, p);
    }
  }

  /** Nor does a creation, however it ends. */
  lemma CreateKeepsLost(s: Fs, nm: Name, size: nat, o: Outcome)
    requires |s.used| == |s.owner| && Fits(s, size, o)
    ensures LostKept(s, After(s, nm, size, o))
  {
    if !o.Nothing? {
      FitsFree(s, size, o);
    }
  }

  /** Nor a removal. */
  lemma RemoveKeepsLost(s: Fs, g: Fs, pins: multiset<Id>, id: Id, nm: Name)
    requires Inv(s, pins) && nm in s.dir && OpenedFrom(s, g, id, s.dir[nm]) && Inv(g, pins + multiset{id})
    ensures Unname(g, nm, id).inodes[id].openCnt > 0 && LostKept(s, Closed(Unname(g, nm, id), id))
  {
    var t := Unname(g, nm, id);
    UnnameKeeps(g, pins + multiset{id}, nm, id);
    assert DirOk(s, nm);
    assert LostKept(s, t);
    CloseKeepsLost(t, pins + multiset{id}, id);
  }

  /** A map of N sectors with the first K marked. */
  ghost function FirstMarked(n: nat, k: nat): seq<bool> {
    seq(n, p => p < k)
  }

  lemma FirstFree(n: nat, k: nat, cnt: nat, r: Option<nat>)
    requires cnt > 0 && k + cnt <= n && FirstRun(FirstMarked(n, k), 0, cnt, false, r)
    ensures r == Some(k) && Fill(FirstMarked(n, k), k, cnt, true) == FirstMarked(n, k + cnt)
  {
    var v := FirstMarked(n, k);
    assert AllAre(v, k, cnt, false);
    assert r.Some? && r.value < n ==> (v[r.value] <==> r.value < k);
  }

  /** A run of unmarked sectors, marked and unmarked again. */
  lemma FillBack(used: seq<bool>, start: nat, cnt: nat)
    requires start + cnt <= |used| && AllAre(used, start, cnt, false)
    ensures Fill(Fill(used, start, cnt, true), start, cnt, false) == used
  {
  }

  lemma CreatedKeeps(s: Fs, pins: multiset<Id>, d: nat, start: nat, length: nat)
    requires Inv(s, pins) && AllOwned(s.owner, d, 1, Lost)
    requires start + Sectors(length) <= |s.used| && AllAre(s.used, start, Sectors(length), false)
    ensures var s' := Created(s, d, start, length);
            && Inv(s', pins) && d in s'.disk && s'.disk[d] == Rec(start, length) && !InExtent(s'.disk[d], d)
            && AllOwned(s'.owner, d, 1, Lost) && AllOwned(s'.owner, start, Sectors(length), Lost)
  {
    var c, s' := Claim(s, start, Sectors(length)), Created(s, d, start, length);
    ClaimKeeps(s, pins, start, Sectors(length));
    assert s.owner[d] == Lost && SectorOk(s, d);
    forall e | Live(c, e) ensures e in c.disk && e in s'.disk && s'.disk[e] == c.disk[e] {
      assert LiveOk(c, e);
    }
    WriteKeeps(c, s', pins);
  }

  // ----- filesys_create

  predicate ValidName(nm: Name) {
    0 < |nm| <= NAME_MAX
  }

  /** How filesys_create ends: with the file's inode at D and its data at START,
      with its data sectors marked but lost, or without a change. */
  datatype Outcome = Made(d: nat, start: nat) | Leak(d: nat, start: nat) | Nothing

  /** The sectors were the first free ones. */
  ghost predicate Fits(s: Fs, size: nat, o: Outcome) {
    !o.Nothing? ==> FirstRun(s.used, 0, 1, false, Some(o.d)) &&
                    FirstRun(Fill(s.used, o.d, 1, true), 0, Sectors(size), false, Some(o.start))
  }

  ghost function After(s: Fs, nm: Name, size: nat, o: Outcome): Fs {
    match o
    case Nothing => s
    case Made(d, start) =>
      var c := Created(Claim(s, d, 1), d, start, size);
      if d in c.disk then Adopt(c, nm, d) else c
    case Leak(d, start) => Release(Created(Claim(s, d, 1), d, start, size), d, 1)
  }

  lemma FitsFree(s: Fs, size: nat, o: Outcome)
    requires Fits(s, size, o) && !o.Nothing?
    ensures o.d < |s.used| && !s.used[o.d] && o.start + Sectors(size) <= |s.used|
    ensures forall p :: o.start <= p < o.start + Sectors(size) ==> p != o.d && !s.used[p]
  {
    var v := Fill(s.used, o.d, 1, true);
    assert !s.used[o.d] && v[o.d];
    forall p | o.start <= p < o.start + Sectors(size) ensures p != o.d && !s.used[p] {
      assert !v[p];
    }
  }

  // ----- what decides the outcome

  /** What memory and disk answer during filesys_create: memory for the root's
      inode and for its struct dir, the free map's write for the inode's sector,
      memory in inode_create, the free map's write for the data, and the write of
      the directory entry. */
  datatype Chances = Chances(inodeOk: bool, dirOk: bool, writeOk: bool, memOk: bool, writeOk2: bool, addOk: bool)

  /** dir_open_root succeeds. */
  ghost predicate RootOpens(s: Fs, inodeOk: bool, dirOk: bool) {
    (inodeOk || !NotOpen(s, ROOT_DIR_SECTOR)) && dirOk
  }

  /** The first place at or after I with CNT free sectors. */
  ghost function FirstFit(used: seq<bool>, cnt: nat, i: nat): Option<nat>
    decreases |used| + 1 - i
  {
    if i + cnt > |used| then None
    else if AllAre(used, i, cnt, false) then Some(i)
    else FirstFit(used, cnt, i + 1)
  }

  lemma {:induction false} FirstFitRuns(used: seq<bool>, cnt: nat, i: nat)
    ensures FirstRun(used, i, cnt, false, FirstFit(used, cnt, i))
    decreases |used| + 1 - i
  {
    if i + cnt <= |used| && !AllAre(used, i, cnt, false) {
      FirstFitRuns(used, cnt, i + 1);
    }
  }

  /** The bitmap's scan is first fit. */
  lemma {:induction false} FirstFitIs(used: seq<bool>, cnt: nat, i: nat, r: Option<nat>)
    requires FirstRun(used, i, cnt, false, r)
    ensures r == FirstFit(used, cnt, i)
    decreases |used| + 1 - i
  {
    if i + cnt <= |used| && !AllAre(used, i, cnt, false) {
      FirstFitIs(used, cnt, i + 1, r);
    }
  }

  /** filesys_create with the directory open. */
  ghost function OutcomeIn(used: seq<bool>, dir: map<Name, nat>, nm: Name, size: nat, c: Chances): Outcome {
    var d := FirstFit(used, 1, 0);
    if d.None? || !c.writeOk || !c.memOk then Nothing else
    var start := FirstFit(Fill(used, d.value, 1, true), Sectors(size), 0);
    if start.None? || !c.writeOk2 then Nothing
    else if ValidName(nm) && nm !in dir && c.addOk then Made(d.value, start.value)
    else Leak(d.value, start.value)
  }

  /** filesys_create. */
  ghost function OutcomeOf(s: Fs, nm: Name, size: nat, c: Chances): Outcome {
    if RootOpens(s, c.inodeOk, c.dirOk) then OutcomeIn(s.used, s.dir, nm, size, c) else Nothing
  }

  /** There is a free sector for the inode and a run of others for the data. */
  ghost predicate HasRoom(s: Fs, size: nat) {
    exists d, start :: Fits(s, size, Made(d, start))
  }

  /** The file and its data are allocated: what is left is the directory entry. */
  ghost predicate Allocates(s: Fs, size: nat, c: Chances) {
    RootOpens(s, c.inodeOk, c.dirOk) && HasRoom(s, size) && c.writeOk && c.memOk && c.writeOk2
  }

  ghost predicate Enters(s: Fs, nm: Name, c: Chances) {
    ValidName(nm) && nm !in s.dir && c.addOk
  }

  lemma RoomIsFit(s: Fs, size: nat)
    ensures var d := FirstFit(s.used, 1, 0);
            HasRoom(s, size) <==> d.Some? && FirstFit(Fill(s.used, d.value, 1, true), Sectors(size), 0).Some?
  {
    var d := FirstFit(s.used, 1, 0);
    FirstFitRuns(s.used, 1, 0);
    if d.Some? {
      var start := FirstFit(Fill(s.used, d.value, 1, true), Sectors(size), 0);
      FirstFitRuns(Fill(s.used, d.value, 1, true), Sectors(size), 0);
      if start.Some? {
        assert Fits(s, size, Made(d.value, start.value));
      }
    }
    if HasRoom(s, size) {
      var e, start :| Fits(s, size, Made(e, start));
      FirstFitIs(s.used, 1, 0, Some(e));
      FirstFitIs(Fill(s.used, e, 1, true), Sectors(size), 0, Some(start));
    }
  }

  /** The file is made exactly when it is allocated and its entry written; its data
      sectors leak exactly when it is allocated and the entry is not written;
      otherwise nothing changes. Allocated files get the first free sectors. */
  lemma OutcomeExact(s: Fs, nm: Name, size: nat, c: Chances)
    ensures var o := OutcomeOf(s, nm, size, c);
            && Fits(s, size, o)
            && (o.Made? <==> Allocates(s, size, c) && Enters(s, nm, c))
            && (o.Leak? <==> Allocates(s, size, c) && !Enters(s, nm, c))
            && (o.Nothing? <==> !Allocates(s, size, c))
  {
    RoomIsFit(s, size);
    FirstFitRuns(s.used, 1, 0);
    var d := FirstFit(s.used, 1, 0);
    if d.Some? {
      FirstFitRuns(Fill(s.used, d.value, 1, true), Sectors(size), 0);
    }
  }

  /** A created file has the size asked for and sectors that were free; every
      other sector, name and file is as before. */
  lemma MadeFile(s: Fs, pins: multiset<Id>, nm: Name, size: nat, c: Chances, p: nat)
    requires Inv(s, pins) && Allocates(s, size, c) && Enters(s, nm, c) && p < |s.used|
    ensures var o := OutcomeOf(s, nm, size, c);
            && o.Made?
            && var s' := After(s, nm, size, o);
               var mine := p == o.d || o.start <= p < o.start + Sectors(size);
               && s'.dir == s.dir[nm := o.d] && o.d in s'.disk && s'.disk[o.d] == Rec(o.start, size)
               && |s'.used| == |s'.owner| == |s.used|
               && (mine ==> !s.used[p] && s'.used[p])
               && (!mine ==> s'.used[p] == s.used[p] && s'.owner[p] == s.owner[p])
  {
    OutcomeExact(s, nm, size, c);
    FitsFree(s, size, OutcomeOf(s, nm, size, c));
    assert SectorOk(s, p);
  }

  /** What a leak leaves marked. */
  lemma LeakMarks(s: Fs, nm: Name, size: nat, o: Outcome)
    requires |s.used| == |s.owner| && Fits(s, size, o) && o.Leak?
    ensures var s' := After(s, nm, size, o);
            s'.used == Fill(s.used, o.start, Sectors(size), true) && |s'.owner| == |s.owner|
    ensures forall p :: o.start <= p < o.start + Sectors(size) ==> !s.used[p] && After(s, nm, size, o).owner[p] == Lost
  {
    FitsFree(s, size, o);
    var s', v := After(s, nm, size, o), Fill(s.used, o.start, Sectors(size), true);
    forall p | 0 <= p < |s.used| ensures s'.used[p] == v[p] {
    }
    assert s'.used == v;
  }

  /** A failed creation leaves the free map as it was if and only if the file has
      no data or was not allocated; when the name is bad or taken or its entry
      cannot be written, all data sectors stay marked and nothing refers to
      them. */
  lemma FailedCreate(s: Fs, pins: multiset<Id>, nm: Name, size: nat, c: Chances)
    requires Inv(s, pins) && !(Allocates(s, size, c) && Enters(s, nm, c))
    ensures var s' := After(s, nm, size, OutcomeOf(s, nm, size, c));
            && (s'.used == s.used <==> size == 0 || !Allocates(s, size, c)) && s'.dir == s.dir
            && (Allocates(s, size, c) ==>
                  exists start: nat ::
                    start + Sectors(size) <= |s.used| == |s'.owner| && AllAre(s.used, start, Sectors(size), false) &&
                    s'.used == Fill(s.used, start, Sectors(size), true) &&
                    AllOwned(s'.owner, start, Sectors(size), Lost))
  {
    var o := OutcomeOf(s, nm, size, c);
    OutcomeExact(s, nm, size, c);
    if o.Leak? {
      LeakMarks(s, nm, size, o);
      FitsFree(s, size, o);
      var s' := After(s, nm, size, o);
      assert AllAre(s.used, o.start, Sectors(size), false) && AllOwned(s'.owner, o.start, Sectors(size), Lost);
      if size > 0 {
        assert !s.used[o.start] && s'.used[o.start];
      }
    }
  }

  /** A disk of seven sectors with an empty file "a" whose inode is at sector 4. */
  ghost function WithEmptyFile(): Fs {
    After(Formatted(7), "a", 0, Made(4, 0))
  }

  lemma FirstFitMarked(n: nat, k: nat, cnt: nat)
    requires k + cnt <= n
    ensures cnt > 0 ==> FirstFit(FirstMarked(n, k), cnt, 0) == Some(k)
    ensures cnt == 0 ==> FirstFit(FirstMarked(n, k), cnt, 0) == Some(0)
    ensures Fill(FirstMarked(n, k), k, cnt, true) == FirstMarked(n, k + cnt)
  {
    FirstFitRuns(FirstMarked(n, k), cnt, 0);
    if cnt > 0 {
      FirstFree(n, k, cnt, FirstFit(FirstMarked(n, k), cnt, 0));
    } else {
      assert AllAre(FirstMarked(n, k), 0, 0, false);
    }
  }

  /** On a disk whose first K sectors are marked. */
  lemma FirstMarkedOutcome(s: Fs, k: nat, nm: Name, size: nat, c: Chances)
    requires c == Chances(true, true, true, true, true, true)
    requires s.used == FirstMarked(|s.used|, k) && k + 1 + Sectors(size) <= |s.used|
    ensures var start := if Sectors(size) == 0 then 0 else k + 1;
            OutcomeOf(s, nm, size, c) == if ValidName(nm) && nm !in s.dir then Made(k, start) else Leak(k, start)
  {
    FirstFitMarked(|s.used|, k, 1);
    FirstFitMarked(|s.used|, k + 1, Sectors(size));
  }

  lemma EmptyFileMade(c: Chances)
    requires c == Chances(true, true, true, true, true, true)
    ensures OutcomeOf(Formatted(7), "a", 0, c) == Made(4, 0) && Inv(Formatted(7), multiset{})
    ensures var s := WithEmptyFile(); s.used == FirstMarked(7, 5) && |s.owner| == 7 && "a" in s.dir
  {
    var s := Formatted(7);
    FormattedInv(7);
    assert s.used == FirstMarked(7, 4);
    FirstMarkedOutcome(s, 4, "a", 0, c);
    FirstFitMarked(7, 4, 1);
    assert WithEmptyFile().used == Claim(s, 4, 1).used;
  }

  /** Creating "a" again with one byte, with all memory there is and all writes
      done, fails and leaves sector 6 marked for good. */
  lemma LeakExample(c: Chances)
    requires c == Chances(true, true, true, true, true, true)
    ensures var s := WithEmptyFile(); var s' := After(s, "a", 1, OutcomeOf(s, "a", 1, c));
            && OutcomeOf(s, "a", 1, c) == Leak(5, 6) && s.used == FirstMarked(7, 5)
            && |s'.used| == 7 && s'.used[6] && |s'.owner| == 7 && s'.owner[6] == Lost && s'.dir == s.dir
  {
    var s := WithEmptyFile();
    EmptyFileMade(c);
    FirstMarkedOutcome(s, 5, "a", 1, c);
    OutcomeExact(s, "a", 1, c);
    LeakMarks(s, "a", 1, Leak(5, 6));
  }

  /** The data sectors of a creation that fails at the directory entry stay marked
      and lost in every state that later calls lead to. */
  lemma LeakedForGood(s: Fs, nm: Name, size: nat, c: Chances, run: seq<Fs>, p: nat)
    requires |s.used| == |s.owner| && Allocates(s, size, c) && !Enters(s, nm, c)
    requires run != [] && SameDisk(run[0], After(s, nm, size, OutcomeOf(s, nm, size, c)))
    requires forall i :: 0 <= i < |run| - 1 ==> LostKept(run[i], run[i + 1])
    ensures var o := OutcomeOf(s, nm, size, c);
            o.Leak? && (o.start <= p < o.start + Sectors(size) ==>
                          p < |s.used| && !s.used[p] && forall i :: 0 <= i < |run| ==> LostAt(run[i], p))
  {
    var o := OutcomeOf(s, nm, size, c);
    OutcomeExact(s, nm, size, c);
    FitsFree(s, size, o);
    LeakMarks(s, nm, size, o);
    if o.start <= p < o.start + Sectors(size) {
      assert LostAt(run[0], p);
      LostForGood(run, p);
    }
  }

  lemma ReleaseClaim(s: Fs, pins: multiset<Id>, d: nat)
    requires Inv(s, pins) && d < |s.used| && !s.used[d]
    ensures Release(Claim(s, d, 1), d, 1) == s
  {
    assert SectorOk(s, d);
    assert Release(Claim(s, d, 1), d, 1).owner == s.owner;
    assert Release(Claim(s, d, 1), d, 1).used == s.used;
  }

  // ----- filesys_remove

  /** The same sectors, inodes on disk and names. */
  ghost predicate SameDisk(s: Fs, t: Fs) {
    s.used == t.used && s.owner == t.owner && s.disk == t.disk && s.dir == t.dir
  }

  lemma AfterSame(s: Fs, t: Fs, nm: Name, size: nat, o: Outcome)
    requires SameDisk(s, t)
    ensures SameDisk(After(s, nm, size, o), After(t, nm, size, o))
  {
  }

  /** Closing an inode that has its name leaves the disk alone. */
  lemma CloseSame(s: Fs, id: Id)
    requires id in s.inodes && s.inodes[id].openCnt > 0 && !s.inodes[id].removed
    ensures SameDisk(Closed(s, id), s)
  {
  }

  /** No inode in memory is the one at D. */
  ghost predicate NotOpen(s: Fs, d: nat) {
    forall id :: id in s.inodes ==> s.inodes[id].sector != d
  }

  /** The name is gone, and with it, unless the file is open, its sectors. */
  ghost predicate Removed(s: Fs, s': Fs, nm: Name) {
    && nm in s.dir && s.dir[nm] in s.disk && s'.dir == s.dir - {nm} && |s'.used| == |s.used|
    && var d := s.dir[nm];
       forall p :: 0 <= p < |s.used| ==>
         s'.used[p] == (s.used[p] && !(NotOpen(s, d) && (p == d || InExtent(s.disk[d], p))))
  }

  /** The same files are open, the root directory aside. */
  ghost predicate OpenElsewhere(s: Fs, s': Fs) {
    forall d :: d != ROOT_DIR_SECTOR ==> (NotOpen(s', d) <==> NotOpen(s, d))
  }

  lemma RootOpened(s: Fs, g: Fs, root: Id)
    requires OpenedFrom(s, g, root, ROOT_DIR_SECTOR)
    ensures OpenElsewhere(s, g)
  {
    forall d | d != ROOT_DIR_SECTOR ensures NotOpen(g, d) <==> NotOpen(s, d) {
      if !NotOpen(s, d) {
        var i :| i in s.inodes && s.inodes[i].sector == d;
        assert i in g.inodes && g.inodes[i].sector == d;
      }
    }
  }

  lemma RootClosed(s: Fs, root: Id)
    requires root in s.inodes && s.inodes[root].sector == ROOT_DIR_SECTOR && s.inodes[root].openCnt > 0 &&
             !s.inodes[root].removed
    ensures OpenElsewhere(s, Closed(s, root)) && Closed(s, root).inodes.Keys <= s.inodes.Keys
  {
    var g := Closed(s, root);
    forall d | d != ROOT_DIR_SECTOR ensures NotOpen(g, d) <==> NotOpen(s, d) {
      if !NotOpen(s, d) {
        var i :| i in s.inodes && s.inodes[i].sector == d;
        assert i in g.inodes && g.inodes[i].sector == d;
      }
    }
  }

  lemma NamedNotRoot(s: Fs, pins: multiset<Id>, nm: Name)
    requires Inv(s, pins) && nm in s.dir
    ensures s.dir[nm] != ROOT_DIR_SECTOR
  {
    RootLive(s, pins);
    NamedLive(s, pins, nm);
  }

  /** The name is there and so is its inode, or memory for it. */
  ghost predicate CanReach(s: Fs, nm: Name, inodeOk: bool) {
    nm in s.dir && (inodeOk || !NotOpen(s, s.dir[nm]))
  }

  lemma ReachSame(s: Fs, g: Fs, nm: Name, inodeOk: bool, pins: multiset<Id>)
    requires Inv(g, pins) && SameDisk(g, s) && OpenElsewhere(s, g)
    ensures CanReach(g, nm, inodeOk) <==> CanReach(s, nm, inodeOk)
  {
    if nm in g.dir {
      NamedNotRoot(g, pins, nm);
      assert NotOpen(g, g.dir[nm]) <==> NotOpen(s, s.dir[nm]);
    }
  }

  lemma LostAround(s: Fs, g: Fs, f: Fs, e: Fs)
    requires SameDisk(g, s) && LostKept(g, f) && SameDisk(e, f)
    ensures LostKept(s, e)
  {
    forall p: nat | LostAt(s, p) ensures LostAt(e, p) {
      assert LostAt(g, p) && LostAt(f, p);
    }
  }

  lemma RemovedSame(s: Fs, g: Fs, f: Fs, nm: Name)
    requires SameDisk(g, s) && OpenElsewhere(s, g) && Removed(g, f, nm) && g.dir[nm] != ROOT_DIR_SECTOR
    ensures Removed(s, f, nm)
  {
    assert NotOpen(g, g.dir[nm]) <==> NotOpen(s, s.dir[nm]);
  }

  ghost predicate SameSectors(s: Fs, s': Fs) {
    forall id :: id in s.inodes && id in s'.inodes ==> s'.inodes[id].sector == s.inodes[id].sector
  }

  /** S with inode ID, the one at D, open once more. */
  ghost predicate OpenedFrom(s: Fs, g: Fs, id: Id, d: nat) {
    && id in g.inodes && g.inodes[id].sector == d
    && if id in s.inodes then g == Reopen(s, id) else d in s.disk && NotOpen(s, d) && g == Load(s, id, d)
  }

  lemma RemovedFacts(s: Fs, g: Fs, pins: multiset<Id>, id: Id, nm: Name)
    requires Inv(s, pins) && nm in s.dir && OpenedFrom(s, g, id, s.dir[nm]) && Inv(g, pins + multiset{id})
    ensures Unname(g, nm, id).inodes[id].openCnt > 0 && Removed(s, Closed(Unname(g, nm, id), id), nm)
    ensures SameSectors(s, Closed(Unname(g, nm, id), id)) && Closed(Unname(g, nm, id), id).files == s.files
  {
    var d, t := s.dir[nm], Unname(g, nm, id);
    UnnameKeeps(g, pins + multiset{id}, nm, id);
    assert DirOk(s, nm) && LiveOk(s, d);
    if id in s.inodes {
      assert InodeOk(s, pins, id);
    }
    assert InodeOk(g, pins + multiset{id}, id);
    forall p | 0 <= p < |s.used| {
      ReleasedOnce(t, pins + multiset{id}, id, p);
    }
  }

  class FileSystem {
    const freeMap: Bitmap
    ghost var owner: seq<Owner>
    var disk: map<nat, Rec>
    var dir: map<Name, nat>
    var inodes: map<Id, Inode>
    var openInodes: seq<Id>
    var files: map<FileId, File>

    ghost function State(): Fs
      requires freeMap.Valid()
      reads this, freeMap.bits
    {
      Fs(freeMap.View(), owner, disk, dir, inodes, openInodes, files)
    }

    ghost predicate Keeps(pins: multiset<Id>)
      reads this, freeMap.bits
    {
      freeMap.Valid() && Inv(State(), pins)
    }

    /** free_map_init, do_format and free_map_open on a disk of N sectors. */
    constructor (n: nat, storage: array<Word>)
      requires storage.Length == ElemCnt(n) && 2 + Sectors(4 * ElemCnt(n)) + Sectors(16 * 20) <= n
      modifies storage
      ensures Keeps(multiset{}) && State() == Formatted(n)
    {
      var b := new Bitmap(n, storage);
      b.Mark(0);
      b.Mark(1);
      var len0, len1 := 4 * ElemCnt(n), 16 * 20;
      assert b.View() == FirstMarked(n, 2);
      var m := b.ScanAndFlip(0, Sectors(len0), false);
      FirstFree(n, 2, Sectors(len0), m);
      var r := b.ScanAndFlip(0, Sectors(len1), false);
      FirstFree(n, 2 + Sectors(len0), Sectors(len1), r);
      freeMap := b;
      owner := Formatted(n).owner;
      disk := map[0 := Rec(m.value, len0), 1 := Rec(r.value, len1)];
      dir := map[];
      inodes := map[0 := Inode(0, 1, false, 0, Rec(m.value, len0))];
      openInodes := [0];
      files := map[0 := File(0, false)];
      new;
      FormattedInv(n);
      assert State() == Formatted(n);
    }

    // ----- free-map.c

    /** free_map_allocate: the first CNT free sectors in a row, or nothing at all
        when there are none or the map cannot be written. */
    method Allocate(cnt: nat, writeOk: bool, ghost pins: multiset<Id>) returns (r: Option<nat>)
      requires Keeps(pins)
      modifies this`owner, freeMap.bits
      ensures Keeps(pins)
      ensures r.Some? ==>
                FirstRun(old(freeMap.View()), 0, cnt, false, r) && State() == Claim(old(State()), r.value, cnt)
      ensures r.None? ==> State() == old(State())
      ensures r == if writeOk then FirstFit(old(freeMap.View()), cnt, 0) else None
    {
      ghost var s := State();
      r := freeMap.ScanAndFlip(0, cnt, false);
      FirstFitIs(s.used, cnt, 0, r);
      if r.Some? && !writeOk {
        FillBack(s.used, r.value, cnt);
        freeMap.SetMultiple(r.value, cnt, false);
        assert State() == s;
        r := None;
      } else if r.Some? {
        ClaimKeeps(s, pins, r.value, cnt);
        owner := Assign(owner, r.value, cnt, Lost);
        assert State() == Claim(s, r.value, cnt);
      }
    }

    /** free_map_release; its assertion holds. */
    method ReleaseSectors(start: nat, cnt: nat, ghost pins: multiset<Id>)
      requires Keeps(pins) && AllOwned(owner, start, cnt, Lost)
      modifies this`owner, freeMap.bits
      ensures Keeps(pins) && State() == Release(old(State()), start, cnt)
    {
      ghost var s := State();
      ReleaseKeeps(s, pins, start, cnt);
      var unmarked := freeMap.Contains(start, cnt, false);
      assert !unmarked;
      freeMap.SetMultiple(start, cnt, false);
      owner := Assign(owner, start, cnt, Nobody);
      assert State() == Release(s, start, cnt);
    }

    // ----- inode.c

    /** inode_create: zeros overwrite whatever was on the data sectors. */
    method ZeroSectors(start: nat, cnt: nat)
      modifies this`disk
      ensures disk == Zeroed(old(disk), start, cnt)
    {
      var i := 0;
      while i < cnt
        invariant i <= cnt && disk == Zeroed(old(disk), start, i)
      {
        disk := disk - {start + i};
        i := i + 1;
      }
    }

    /** inode_create. */
    method InodeCreate(d: nat, length: nat, memOk: bool, writeOk: bool, ghost pins: multiset<Id>)
      returns (start: Option<nat>)
      requires Keeps(pins) && AllOwned(owner, d, 1, Lost)
      modifies this`owner, this`disk, freeMap.bits
      ensures Keeps(pins)
      ensures start.None? ==> State() == old(State())
      ensures start == if memOk && writeOk then FirstFit(old(freeMap.View()), Sectors(length), 0) else None
      ensures start.Some? ==> FirstRun(old(freeMap.View()), 0, Sectors(length), false, start)
      ensures start.Some? ==> State() == Created(old(State()), d, start.value, length)
    {
      if !memOk {
        return None;
      }
      ghost var s := State();
      var sectors := Sectors(length);
      start := Allocate(sectors, writeOk, pins);
      if start.Some? {
        CreatedKeeps(s, pins, d, start.value, length);
        disk := disk[d := Rec(start.value, length)];
        ZeroSectors(start.value, sectors);
        assert State() == Created(s, d, start.value, length);
      }
    }

    /** inode_open: the inode in memory if there is one, else a new one. */
    method InodeOpen(d: nat, memOk: bool, newId: Id, ghost pins: multiset<Id>) returns (r: Option<Id>)
      requires Keeps(pins) && newId !in inodes && Live(State(), d) && !owner[d].Orphan?
      modifies this`inodes, this`openInodes
      ensures r.Some? ==> Keeps(pins + multiset{r.value}) && OpenedFrom(old(State()), State(), r.value, d)
      ensures r.Some? ==> r.value in old(inodes) || r.value == newId
      ensures r.None? ==> State() == old(State())
      ensures r.Some? <==> memOk || !NotOpen(old(State()), d)
    {
      ghost var s := State();
      var i := 0;
      while i < |openInodes|
        invariant i <= |openInodes| && State() == s
        invariant forall j :: 0 <= j < i ==> s.list[j] in s.inodes && s.inodes[s.list[j]].sector != d
      {
        var id := openInodes[i];
        assert id in s.list;
        if inodes[id].sector == d {
          ReopenKeeps(s, pins, id);
          inodes := inodes[id := inodes[id].(openCnt := inodes[id].openCnt + 1)];
          assert State() == Reopen(s, id);
          return Some(id);
        }
        i := i + 1;
      }
      NotListed(s, pins, d);
      if !memOk {
        return None;
      }
      assert LiveOk(s, d);
      LoadKeeps(s, pins, newId, d);
      openInodes := [newId] + openInodes;
      inodes := inodes[newId := Inode(d, 1, false, 0, disk[d])];
      assert State() == Load(s, newId, d);
      r := Some(newId);
    }

    /** inode_close. */
    method InodeClose(id: Id, ghost pins: multiset<Id>)
      requires Keeps(pins) && id in pins && id in inodes && inodes[id].openCnt > 0
      modifies this`owner, this`inodes, this`openInodes, freeMap.bits
      ensures Keeps(pins - multiset{id}) && State() == Closed(old(State()), id)
    {
      if inodes[id].openCnt > 1 {
        Decrement(id, pins);
      } else {
        LastClose(id, pins);
      }
    }

    /** inode_close by another opener. */
    method Decrement(id: Id, ghost pins: multiset<Id>)
      requires Keeps(pins) && id in pins && id in inodes && inodes[id].openCnt > 1
      modifies this`inodes
      ensures Keeps(pins - multiset{id}) && State() == Closed(old(State()), id)
    {
      UnpinKeeps(State(), pins, id);
      inodes := inodes[id := inodes[id].(openCnt := inodes[id].openCnt - 1)];
      assert State() == Unpin(old(State()), id);
    }

    /** inode_close by the last opener. */
    method LastClose(id: Id, ghost pins: multiset<Id>)
      requires Keeps(pins) && id in pins && id in inodes && inodes[id].openCnt == 1
      modifies this`owner, this`inodes, this`openInodes, freeMap.bits
      ensures Keeps(pins - multiset{id}) && State() == Closed(old(State()), id)
    {
      ghost var s := State();
      DropKeeps(s, pins, id);
      var i := inodes[id];
      openInodes := Unlink(openInodes, id);
      inodes := inodes - {id};
      owner := Drop(s, id).owner;
      assert State() == Drop(s, id);
      if i.removed {
        ReleaseSectors(i.sector, 1, pins - multiset{id});
        ReleaseSectors(i.data.start, Sectors(i.data.length), pins - multiset{id});
      }
    }

    // ----- filesys.c

    /** dir_add, as far as ownership goes. */
    method DirAdd(nm: Name, d: nat, addOk: bool, ghost pins: multiset<Id>) returns (ok: bool)
      requires Keeps(pins) && d in disk && AllOwned(owner, d, 1, Lost) && !InExtent(disk[d], d)
      requires AllOwned(owner, disk[d].start, Sectors(disk[d].length), Lost)
      modifies this`owner, this`dir
      ensures Keeps(pins) && (ok <==> ValidName(nm) && nm !in old(dir) && addOk)
      ensures State() == if ok then Adopt(old(State()), nm, d) else old(State())
    {
      if !ValidName(nm) || nm in dir || !addOk {
        return false;
      }
      AdoptKeeps(State(), pins, nm, d);
      owner := Adopt(State(), nm, d).owner;
      dir := dir[nm := d];
      ok := true;
    }

    /** The end of filesys_create, once there is an inode at D. */
    method FinishCreate(nm: Name, size: nat, d: nat, start: nat, addOk: bool, ghost pins: multiset<Id>, ghost s: Fs)
      returns (ok: bool)
      requires Keeps(pins) && Inv(s, pins) && AllOwned(s.owner, d, 1, Lost)
      requires start + Sectors(size) <= |s.used| && AllAre(s.used, start, Sectors(size), false)
      requires State() == Created(s, d, start, size)
      modifies this`owner, this`dir, freeMap.bits
      ensures Keeps(pins) && (ok <==> ValidName(nm) && nm !in s.dir && addOk)
      ensures d in Created(s, d, start, size).disk
      ensures State() == if ok then Adopt(Created(s, d, start, size), nm, d)
                         else Release(Created(s, d, start, size), d, 1)
    {
      CreatedKeeps(s, pins, d, start, size);
      ok := DirAdd(nm, d, addOk, pins);
      if !ok {
        ReleaseSectors(d, 1, pins);
      }
    }

    /** filesys_create with the directory open. */
    method CreateIn(nm: Name, size: nat, c: Chances, ghost pins: multiset<Id>) returns (ok: bool, ghost o: Outcome)
      requires Keeps(pins)
      modifies this`owner, this`dir, this`disk, freeMap.bits
      ensures Keeps(pins) && State() == After(old(State()), nm, size, o)
      ensures o == OutcomeIn(old(freeMap.View()), old(dir), nm, size, c) && (ok <==> o.Made?)
    {
      ghost var s := State();
      var r := Allocate(1, c.writeOk, pins);
      if r.None? {
        return false, Nothing;
      }
      assert SectorOk(s, 0) && r.value != 0;   // so that zero can mean no sector
      ClaimKeeps(s, pins, r.value, 1);
      var start := InodeCreate(r.value, size, c.memOk, c.writeOk2, pins);
      if start.None? {
        ReleaseClaim(s, pins, r.value);
        ReleaseSectors(r.value, 1, pins);
        return false, Nothing;
      }
      ok := FinishCreate(nm, size, r.value, start.value, c.addOk, pins, Claim(s, r.value, 1));
      o := if ok then Made(r.value, start.value) else Leak(r.value, start.value);
    }

    /** dir_open_root. */
    method OpenRoot(inodeOk: bool, dirOk: bool, newId: Id) returns (root: Option<Id>)
      requires Keeps(multiset{}) && newId !in inodes
      modifies this`owner, this`inodes, this`openInodes, freeMap.bits
      ensures SameDisk(State(), old(State())) && files == old(files)
      ensures Keeps(if root.Some? then multiset{root.value} else multiset{})
      ensures root.Some? ==> root.value in inodes && inodes[root.value].sector == ROOT_DIR_SECTOR
      ensures root.Some? ==> forall i :: i in inodes ==> i in old(inodes) || i == newId
      ensures root.Some? <==> RootOpens(old(State()), inodeOk, dirOk)
      ensures OpenElsewhere(old(State()), State())
    {
      RootLive(State(), multiset{});
      ghost var s := State();
      root := InodeOpen(ROOT_DIR_SECTOR, inodeOk, newId, multiset{});
      assert root.Some? ==> multiset{} + multiset{root.value} == multiset{root.value};
      if root.Some? {
        RootOpened(s, State(), root.value);
      }
      if root.Some? && !dirOk {
        CloseRoot(root.value);
        root := None;
      }
    }

    /** dir_close on the root directory. */
    method CloseRoot(root: Id)
      requires Keeps(multiset{root}) && root in inodes && inodes[root].sector == ROOT_DIR_SECTOR
      modifies this`owner, this`inodes, this`openInodes, freeMap.bits
      ensures Keeps(multiset{}) && SameDisk(State(), old(State())) && files == old(files)
      ensures OpenElsewhere(old(State()), State()) && inodes.Keys <= old(inodes).Keys
    {
      RootStays(State(), multiset{root}, root);
      CloseSame(State(), root);
      RootClosed(State(), root);
      InodeClose(root, multiset{root});
      assert multiset{root} - multiset{root} == multiset{};
    }

    /** filesys_create. */
    method Create(nm: Name, size: nat, c: Chances, newId: Id) returns (ok: bool)
      requires Keeps(multiset{}) && newId !in inodes
      modifies this`owner, this`dir, this`disk, this`inodes, this`openInodes, freeMap.bits
      ensures Keeps(multiset{}) && files == old(files)
      ensures SameDisk(State(), After(old(State()), nm, size, OutcomeOf(old(State()), nm, size, c)))
      ensures ok <==> Allocates(old(State()), size, c) && Enters(old(State()), nm, c)
      ensures LostKept(old(State()), State())
    {
      OutcomeExact(State(), nm, size, c);
      CreateKeepsLost(State(), nm, size, OutcomeOf(State(), nm, size, c));
      var root := OpenRoot(c.inodeOk, c.dirOk, newId);
      if root.None? {
        return false;
      }
      ghost var s := State();
      ghost var o;
      ok, o := CreateIn(nm, size, c, multiset{root.value});
      AfterSame(s, old(State()), nm, size, o);
      CloseRoot(root.value);
    }

    /** dir_remove: the entry goes, and the inode, opened for it, is closed. */
    method RemoveIn(nm: Name, inodeOk: bool, newId: Id, writeOk: bool, ghost pins: multiset<Id>) returns (ok: bool)
      requires Keeps(pins) && newId !in inodes
      modifies this`owner, this`dir, this`inodes, this`openInodes, freeMap.bits
      ensures Keeps(pins) && files == old(files)
      ensures ok ==> Removed(old(State()), State(), nm)
      ensures !ok ==> SameDisk(State(), old(State()))
      ensures ok <==> CanReach(old(State()), nm, inodeOk) && writeOk
      ensures SameSectors(old(State()), State()) && LostKept(old(State()), State())
    {
      if nm !in dir {
        return false;
      }
      NamedLive(State(), pins, nm);
      var r := InodeOpen(dir[nm], inodeOk, newId, pins);
      if r.None? {
        return false;
      }
      ok := EraseOpen(nm, r.value, writeOk, pins, old(State()));
    }

    /** dir_remove once the inode is open. */
    method EraseOpen(nm: Name, id: Id, writeOk: bool, ghost pins: multiset<Id>, ghost s: Fs) returns (ok: bool)
      requires Keeps(pins + multiset{id}) && Inv(s, pins) && nm in s.dir && OpenedFrom(s, State(), id, s.dir[nm])
      modifies this`owner, this`dir, this`inodes, this`openInodes, freeMap.bits
      ensures Keeps(pins) && files == old(files) && (ok <==> writeOk)
      ensures ok ==> Removed(s, State(), nm)
      ensures !ok ==> SameDisk(State(), s)
      ensures SameSectors(s, State()) && LostKept(s, State())
    {
      OpenedFacts(s, State(), pins, id, nm);
      if writeOk {
        RemovedFacts(s, State(), pins, id, nm);
        RemoveKeepsLost(s, State(), pins, id, nm);
        MarkRemoved(nm, id, pins + multiset{id});
      }
      InodeClose(id, pins + multiset{id});
      assert pins + multiset{id} - multiset{id} == pins;
      ok := writeOk;
    }

    /** dir_remove: the entry is erased and inode_remove called. */
    method MarkRemoved(nm: Name, id: Id, ghost pins: multiset<Id>)
      requires Keeps(pins) && nm in dir && id in inodes && inodes[id].sector == dir[nm]
      modifies this`owner, this`dir, this`inodes
      ensures Keeps(pins) && State() == Unname(old(State()), nm, id)
    {
      UnnameKeeps(State(), pins, nm, id);
      owner := Unname(State(), nm, id).owner;
      dir := dir - {nm};
      inodes := inodes[id := inodes[id].(removed := true)];
      assert State() == Unname(old(State()), nm, id);
    }

    /** filesys_remove. */
    method Remove(nm: Name, rootOk: bool, dirOk: bool, newId: Id, inodeOk: bool, newId2: Id, writeOk: bool)
      returns (ok: bool)
      requires Keeps(multiset{}) && newId !in inodes && newId2 !in inodes && newId != newId2
      modifies this`owner, this`dir, this`inodes, this`openInodes, freeMap.bits
      ensures Keeps(multiset{}) && files == old(files)
      ensures ok ==> Removed(old(State()), State(), nm)
      ensures !ok ==> SameDisk(State(), old(State()))
      ensures ok <==> RootOpens(old(State()), rootOk, dirOk) && CanReach(old(State()), nm, inodeOk) && writeOk
      ensures LostKept(old(State()), State())
    {
      var root := OpenRoot(rootOk, dirOk, newId);
      if root.None? {
        return false;
      }
      ghost var s := State();
      ReachSame(old(State()), s, nm, inodeOk, multiset{root.value});
      ok := RemoveIn(nm, inodeOk, newId2, writeOk, multiset{root.value});
      ghost var f := State();
      if ok {
        NamedNotRoot(s, multiset{root.value}, nm);
        RemovedSame(old(State()), s, f, nm);
      }
      CloseRoot(root.value);
      LostAround(old(State()), s, f, State());
    }

    /** dir_lookup. */
    method Lookup(nm: Name, inodeOk: bool, newId: Id, ghost pins: multiset<Id>) returns (r: Option<Id>)
      requires Keeps(pins) && newId !in inodes
      modifies this`inodes, this`openInodes
      ensures r.Some? ==>
                nm in dir && Keeps(pins + multiset{r.value}) && r.value in inodes && inodes[r.value].sector == dir[nm]
      ensures r.None? ==> State() == old(State())
      ensures r.Some? <==> CanReach(old(State()), nm, inodeOk)
      ensures SameSectors(old(State()), State())
    {
      if nm !in dir {
        return None;
      }
      NamedLive(State(), pins, nm);
      r := InodeOpen(dir[nm], inodeOk, newId, pins);
    }

    /** filesys_open: a new file on the inode the name stands for. */
    method Open(nm: Name, rootOk: bool, dirOk: bool, newId: Id, inodeOk: bool, newId2: Id, memOk: bool, newFile: FileId)
      returns (f: Option<FileId>)
      requires Keeps(multiset{}) && newId !in inodes && newId2 !in inodes && newId != newId2 && newFile !in files
      modifies this`owner, this`inodes, this`openInodes, this`files, freeMap.bits
      ensures Keeps(multiset{}) && SameDisk(State(), old(State())) && LostKept(old(State()), State())
      ensures f.None? ==> files == old(files)
      ensures f.Some? <==> RootOpens(old(State()), rootOk, dirOk) && CanReach(old(State()), nm, inodeOk) && memOk
      ensures f.Some? ==>
                f.value == newFile && nm in dir && newFile in files && files == old(files)[newFile := files[newFile]] &&
                files[newFile].inode in inodes && inodes[files[newFile].inode].sector == dir[nm] && !files[newFile].deny
    {
      var root := OpenRoot(rootOk, dirOk, newId);
      if root.None? {
        return None;
      }
      ReachSame(old(State()), State(), nm, inodeOk, multiset{root.value});
      var r := Lookup(nm, inodeOk, newId2, multiset{root.value});
      if r.None? {
        CloseRoot(root.value);
        f := FileOpen(None, memOk, newFile, multiset{});
      } else {
        f := FinishOpen(nm, root.value, r.value, memOk, newFile);
      }
    }

    /** filesys_open once the inode ID is open: the directory is closed and the
        file made. */
    method FinishOpen(nm: Name, root: Id, id: Id, memOk: bool, newFile: FileId) returns (f: Option<FileId>)
      requires Keeps(multiset{root} + multiset{id}) && newFile !in files && nm in dir
      requires root in inodes && inodes[root].sector == ROOT_DIR_SECTOR && id in inodes && inodes[id].sector == dir[nm]
      modifies this`owner, this`inodes, this`openInodes, this`files, freeMap.bits
      ensures Keeps(multiset{}) && SameDisk(State(), old(State())) && (f.Some? <==> memOk)
      ensures f.None? ==> files == old(files)
      ensures f.Some? ==> f.value == newFile && files == old(files)[newFile := File(id, false)] && id in inodes &&
                          inodes[id].sector == dir[nm]
    {
      RootStays(State(), multiset{root} + multiset{id}, root);
      CloseSame(State(), root);
      InodeClose(root, multiset{root} + multiset{id});
      assert multiset{root} + multiset{id} - multiset{root} == multiset{id};
      assert multiset{id} - multiset{id} == multiset{};
      NamedStays(State(), multiset{id}, nm, id);
      CloseSame(State(), id);
      f := FileOpen(Some(id), memOk, newFile, multiset{id});
    }

    // ----- file.c

    /** file_open: takes over the opener's hold on the inode, or closes it. */
    method FileOpen(inode: Option<Id>, memOk: bool, newFile: FileId, ghost pins: multiset<Id>)
      returns (f: Option<FileId>)
      requires Keeps(pins) && newFile !in files && (inode.Some? ==> inode.value in pins && inode.value in inodes)
      modifies this`owner, this`inodes, this`openInodes, this`files, freeMap.bits
      ensures Keeps(if inode.Some? then pins - multiset{inode.value} else pins)
      ensures f.Some? <==> inode.Some? && memOk
      ensures f.Some? ==> f.value == newFile && State() == AddFile(old(State()), newFile, inode.value)
      ensures inode.None? ==> State() == old(State())
      ensures inode.Some? && !memOk ==>
                old(inodes)[inode.value].openCnt > 0 && State() == Closed(old(State()), inode.value)
    {
      if inode.None? {
        return None;
      }
      assert InodeOk(State(), pins, inode.value);
      if !memOk {
        InodeClose(inode.value, pins);
        return None;
      }
      AddFileKeeps(State(), pins, newFile, inode.value);
      files := files[newFile := File(inode.value, false)];
      assert State() == AddFile(old(State()), newFile, inode.value);
      f := Some(newFile);
    }

    /** file_reopen. */
    method FileReopen(f: FileId, memOk: bool, newFile: FileId) returns (r: Option<FileId>)
      requires Keeps(multiset{}) && f in files && newFile !in files
      modifies this`owner, this`inodes, this`openInodes, this`files, freeMap.bits
      ensures Keeps(multiset{}) && (r.Some? <==> memOk)
      ensures files == if memOk then old(files)[newFile := File(old(files)[f].inode, false)] else old(files)
      ensures freeMap.View() == old(freeMap.View()) && dir == old(dir) && LostKept(old(State()), State())
    {
      ghost var s := State();
      var id := files[f].inode;
      ReopenKeeps(s, multiset{}, id);
      ReopenNotLast(s, multiset{}, id);
      inodes := inodes[id := inodes[id].(openCnt := inodes[id].openCnt + 1)];
      assert State() == Reopen(s, id);
      assert multiset{} + multiset{id} == multiset{id} && multiset{id} - multiset{id} == multiset{};
      r := FileOpen(Some(id), memOk, newFile, multiset{id});
    }

    /** file_deny_write; inode_deny_write's assertion holds. */
    method DenyWrite(f: FileId, ghost pins: multiset<Id>)
      requires Keeps(pins) && f in files
      modifies this`inodes, this`files
      ensures Keeps(pins) && files == old(files)[f := File(old(files)[f].inode, true)]
      ensures State() == if old(files)[f].deny then old(State()) else SetDeny(old(State()), f, true)
    {
      ghost var s := State();
      var id := files[f].inode;
      DeniersAreOpeners(s, pins, id);
      if !files[f].deny {
        SetDenyKeeps(s, pins, f, true);
        files := files[f := files[f].(deny := true)];
        inodes := inodes[id := inodes[id].(denyCnt := inodes[id].denyCnt + 1)];
        assert inodes[id].denyCnt <= inodes[id].openCnt;
        assert State() == SetDeny(s, f, true);
      } else {
        assert files[f := files[f]] == files;
      }
    }

    /** file_allow_write; inode_allow_write's assertions hold. */
    method AllowWrite(f: FileId, ghost pins: multiset<Id>)
      requires Keeps(pins) && f in files
      modifies this`inodes, this`files
      ensures Keeps(pins) && files == old(files)[f := File(old(files)[f].inode, false)]
      ensures inodes.Keys == old(inodes).Keys
      ensures forall id :: id in inodes ==> inodes[id].(denyCnt := 0) == old(inodes)[id].(denyCnt := 0)
    {
      ghost var s := State();
      var id := files[f].inode;
      DeniersAreOpeners(s, pins, id);
      if files[f].deny {
        SetDenyKeeps(s, pins, f, false);
        assert 0 < inodes[id].denyCnt <= inodes[id].openCnt;
        files := files[f := files[f].(deny := false)];
        inodes := inodes[id := inodes[id].(denyCnt := inodes[id].denyCnt - 1)];
        assert State() == SetDeny(s, f, false);
      } else {
        assert files[f := files[f]] == files;
      }
    }

    /** file_close. */
    method FileClose(f: FileId)
      requires Keeps(multiset{}) && f in files
      modifies this`owner, this`inodes, this`openInodes, this`files, freeMap.bits
      ensures Keeps(multiset{}) && files == old(files) - {f} && dir == old(dir) && disk == old(disk)
      ensures ClosedBy(old(State()), State(), old(files)[f].inode) && LostKept(old(State()), State())
    {
      AllowWrite(f, multiset{});
      CloseAllowed(f);
    }

    /** file_close of a file that does not deny writes. */
    method CloseAllowed(f: FileId)
      requires Keeps(multiset{}) && f in files && !files[f].deny
      modifies this`owner, this`inodes, this`openInodes, this`files, freeMap.bits
      ensures Keeps(multiset{}) && files == old(files) - {f} && dir == old(dir) && disk == old(disk)
      ensures ClosedBy(old(State()), State(), old(files)[f].inode) && LostKept(old(State()), State())
    {
      ghost var s := State();
      var id := files[f].inode;
      RemoveFileKeeps(s, multiset{}, f);
      files := files - {f};
      assert State() == RemoveFile(s, f);
      assert InodeOk(s, multiset{}, id);
      assert multiset{} + multiset{id} == multiset{id} && multiset{id} - multiset{id} == multiset{};
      ClosedFacts(RemoveFile(s, f), multiset{id}, id);
      CloseKeepsLost(RemoveFile(s, f), multiset{id}, id);
      InodeClose(id, multiset{id});
    }
  }

  /** An inode not on the list is not in memory. */
  lemma NotListed(s: Fs, pins: multiset<Id>, d: nat)
    requires Tables(s, pins)
    requires forall j :: 0 <= j < |s.list| ==> s.list[j] in s.inodes && s.inodes[s.list[j]].sector != d
    ensures forall i :: i in s.inodes ==> s.inodes[i].sector != d
  {
    forall i | i in s.inodes ensures s.inodes[i].sector != d {
      assert i in s.list;
    }
  }

  lemma RootLive(s: Fs, pins: multiset<Id>)
    requires Inv(s, pins)
    ensures Live(s, ROOT_DIR_SECTOR) && s.owner[ROOT_DIR_SECTOR].System?
  {
    assert SectorOk(s, ROOT_DIR_SECTOR);
  }

  /** The root directory is never removed. */
  lemma RootStays(s: Fs, pins: multiset<Id>, root: Id)
    requires Inv(s, pins) && root in s.inodes && s.inodes[root].sector == ROOT_DIR_SECTOR
    ensures !s.inodes[root].removed && s.inodes[root].openCnt > 0
  {
    RootLive(s, pins);
    assert InodeOk(s, pins, root);
  }

  lemma NamedLive(s: Fs, pins: multiset<Id>, nm: Name)
    requires Inv(s, pins) && nm in s.dir
    ensures Live(s, s.dir[nm]) && s.owner[s.dir[nm]] == Named(nm)
  {
    assert DirOk(s, nm);
  }

  /** An inode opened by name has its name, so it is not removed. */
  lemma OpenedFacts(s: Fs, g: Fs, pins: multiset<Id>, id: Id, nm: Name)
    requires Inv(s, pins) && nm in s.dir && OpenedFrom(s, g, id, s.dir[nm]) && Inv(g, pins + multiset{id})
    ensures !g.inodes[id].removed && g.inodes[id].openCnt > 0
    ensures SameDisk(Closed(g, id), s) && SameSectors(s, Closed(g, id)) && Closed(g, id).files == s.files
    ensures nm in g.dir && g.dir[nm] == s.dir[nm] && g.files == s.files
  {
    NamedLive(s, pins, nm);
    assert InodeOk(g, pins + multiset{id}, id);
  }

  lemma ReopenNotLast(s: Fs, pins: multiset<Id>, id: Id)
    requires Inv(s, pins) && id in s.inodes
    ensures Reopen(s, id).inodes[id].openCnt > 1 && Unpin(Reopen(s, id), id) == s
  {
    assert InodeOk(s, pins, id);
    assert s.inodes[id := s.inodes[id]] == s.inodes;
  }

  lemma NamedStays(s: Fs, pins: multiset<Id>, nm: Name, id: Id)
    requires Inv(s, pins) && nm in s.dir && id in s.inodes && s.inodes[id].sector == s.dir[nm]
    ensures !s.inodes[id].removed && s.inodes[id].openCnt > 0
  {
    NamedLive(s, pins, nm);
    assert InodeOk(s, pins, id);
  }
}
