/** What an allocation comes to: alone, it takes the first group of clear bits; with
    frees at work beside it, it passes over only groups it saw a mark in. */
module PallocRuns {
  import opened Palloc

  /** The CNT bits from I are there and clear. */
  ghost predicate FreeGroup(used: seq<bool>, i: nat, cnt: nat) {
    i + cnt <= |used| && forall p :: i <= p < i + cnt ==> !used[p]
  }

  /** I is the least place with CNT clear bits. */
  ghost predicate FirstGroup(used: seq<bool>, i: nat, cnt: nat) {
    FreeGroup(used, i, cnt) && forall h: nat :: h < i ==> !FreeGroup(used, h, cnt)
  }

  /** The pages I to I + CNT are marked and T's, everything else is the same. */
  ghost predicate Granted(k: Pool, e: Pool, i: nat, cnt: nat, t: Tid) {
    && |e.used| == |k.used| == |k.owner| == |e.owner| && e.frees == k.frees
    && forall p :: 0 <= p < |k.used| ==>
         if i <= p < i + cnt then e.used[p] && e.owner[p] == Held(t)
         else e.used[p] == k.used[p] && e.owner[p] == k.owner[p]
  }

  /** How an allocation of CNT pages for T that nothing interferes with changes the
      pool. */
  ghost predicate Served(k: Pool, e: Pool, cnt: nat, t: Tid) {
    || (exists i: nat :: FirstGroup(k.used, i, cnt) && Granted(k, e, i, cnt, t))
    || ((forall i: nat :: !FreeGroup(k.used, i, cnt)) && Granted(k, e, 0, 0, t))
  }

  // ----- an allocation alone

  /** N AllocSteps lead from K to E. */
  ghost predicate Leads(k: Pool, e: Pool, n: nat)
    decreases n
  {
    if n == 0 then e == k else !k.alloc.Idle? && |k.used| == |k.owner| && Leads(AllocNext(k), e, n - 1)
  }

  function AllocSteps(n: nat): seq<Step> {
    seq(n, _ => AllocStep)
  }

  lemma {:induction false} LeadsIsRun(k: Pool, e: Pool, n: nat)
    ensures Leads(k, e, n) <==> CanRun(k, AllocSteps(n)) && RunFrom(k, AllocSteps(n)) == e
    decreases n
  {
    if n == 0 {
      assert AllocSteps(0) == [];
    } else {
      assert AllocSteps(n)[0] == AllocStep && AllocSteps(n)[1..] == AllocSteps(n - 1);
      if !k.alloc.Idle? && |k.used| == |k.owner| {
        LeadsIsRun(AllocNext(k), e, n - 1);
      }
    }
  }

  lemma FlipDone(k: Pool)
    requires Inv(k) && k.alloc.Flip? && AllocNext(k).alloc.Idle?
    ensures Granted(k, AllocNext(k), k.alloc.i, k.alloc.cnt, k.alloc.t)
  {
    var e := AllocNext(k);
    assert k.alloc.j == k.alloc.cnt;
    forall p | 0 <= p < |k.used|
      ensures if k.alloc.i <= p < k.alloc.i + k.alloc.cnt then e.used[p] && e.owner[p] == Held(k.alloc.t)
              else e.used[p] == k.used[p] && e.owner[p] == k.owner[p]
    {
      assert AllocAt(k, p) && PageOk(k, p);
    }
  }

  /** The bits are found: they are marked, and the pages handed out. */
  lemma {:induction false} FlipServes(k: Pool, e: Pool, n: nat)
    requires Inv(k) && k.alloc.Flip? && Leads(k, e, n) && e.alloc.Idle?
    ensures Granted(k, e, k.alloc.i, k.alloc.cnt, k.alloc.t)
    decreases n
  {
    AllocKeeps(k);
    if AllocNext(k).alloc.Idle? {
      FlipDone(k);
    } else {
      FlipServes(AllocNext(k), e, n - 1);
    }
  }

  /** No group before place I is free. */
  ghost predicate NoneBefore(used: seq<bool>, i: nat, cnt: nat) {
    forall h: nat :: h < i ==> !FreeGroup(used, h, cnt)
  }

  lemma Found(k: Pool)
    requires Inv(k) && k.alloc.Scan? && AllocNext(k).alloc.Flip? && NoneBefore(k.used, k.alloc.i, k.alloc.cnt)
    ensures FirstGroup(k.used, k.alloc.i, k.alloc.cnt)
  {
    forall p | k.alloc.i <= p < k.alloc.i + k.alloc.cnt ensures !k.used[p] {
      assert AllocAt(k, p);
    }
  }

  lemma PassOver(k: Pool)
    requires Inv(k) && k.alloc.Scan? && !AllocNext(k).alloc.Flip? && NoneBefore(k.used, k.alloc.i, k.alloc.cnt)
    ensures if AllocNext(k).alloc.Idle? then forall h: nat :: !FreeGroup(k.used, h, k.alloc.cnt)
            else NoneBefore(k.used, AllocNext(k).alloc.i, k.alloc.cnt)
  {
  }

  /** The scan has passed the places before I. */
  lemma {:induction false} ScanServes(k: Pool, e: Pool, n: nat)
    requires Inv(k) && k.alloc.Scan? && Leads(k, e, n) && e.alloc.Idle? && NoneBefore(k.used, k.alloc.i, k.alloc.cnt)
    ensures Served(k, e, k.alloc.cnt, k.alloc.t)
    decreases n
  {
    AllocKeeps(k);
    if AllocNext(k).alloc.Flip? {
      FoundServes(k, e, n);
    } else {
      PassOver(k);
      if AllocNext(k).alloc.Scan? {
        ScanServes(AllocNext(k), e, n - 1);
        ServedSame(k, AllocNext(k), e, k.alloc.cnt, k.alloc.t);
      }
    }
  }

  lemma FoundServes(k: Pool, e: Pool, n: nat)
    requires Inv(k) && k.alloc.Scan? && AllocNext(k).alloc.Flip? && NoneBefore(k.used, k.alloc.i, k.alloc.cnt)
    requires Leads(k, e, n) && e.alloc.Idle?
    ensures Served(k, e, k.alloc.cnt, k.alloc.t)
  {
    AllocKeeps(k);
    Found(k);
    FlipServes(AllocNext(k), e, n - 1);
    assert Granted(k, e, k.alloc.i, k.alloc.cnt, k.alloc.t);
  }

  lemma ServedSame(k: Pool, k': Pool, e: Pool, cnt: nat, t: Tid)
    requires k'.used == k.used && k'.owner == k.owner && k'.frees == k.frees && Served(k', e, cnt, t)
    ensures Served(k, e, cnt, t)
  {
    if i: nat :| FirstGroup(k'.used, i, cnt) && Granted(k', e, i, cnt, t) {
      assert FirstGroup(k.used, i, cnt) && Granted(k, e, i, cnt, t);
    }
  }

  /** From a pool with no allocation at work, palloc_get_multiple alone takes the
      first group of clear bits for T, and changes nothing only if there is none. */
  lemma AllocAlone(k: Pool, t: Tid, cnt: nat, n: nat)
    requires Inv(k) && k.alloc.Idle? && cnt > 0
    requires var k1 := Apply(k, AllocStart(t, cnt));
             CanRun(k1, AllocSteps(n)) && RunFrom(k1, AllocSteps(n)).alloc.Idle?
    ensures Served(k, RunFrom(Apply(k, AllocStart(t, cnt)), AllocSteps(n)), cnt, t)
  {
    var k1 := Apply(k, AllocStart(t, cnt));
    var e := RunFrom(k1, AllocSteps(n));
    StepKeeps(k, AllocStart(t, cnt));
    LeadsIsRun(k1, e, n);
    ScanServes(k1, e, n);
  }

  // ----- it ends

  lemma {:induction false} FlipEnds(k: Pool) returns (e: Pool, n: nat)
    requires Inv(k) && k.alloc.Flip?
    ensures Leads(k, e, n) && e.alloc.Idle?
    decreases k.alloc.cnt - k.alloc.j
  {
    AllocKeeps(k);
    var k' := AllocNext(k);
    if k'.alloc.Idle? {
      e, n := k', 1;
      assert Leads(k', e, 0);
    } else {
      e, n := FlipEnds(k');
      n := n + 1;
    }
  }

  lemma {:induction false} ScanEnds(k: Pool) returns (e: Pool, n: nat)
    requires Inv(k) && k.alloc.Scan?
    ensures Leads(k, e, n) && e.alloc.Idle?
    decreases |k.used| + 1 - k.alloc.i, k.alloc.cnt - k.alloc.j
  {
    AllocKeeps(k);
    var k' := AllocNext(k);
    if k'.alloc.Idle? {
      e, n := k', 1;
      assert Leads(k', e, 0);
    } else if k'.alloc.Flip? {
      e, n := FlipEnds(k');
      n := n + 1;
    } else {
      e, n := ScanEnds(k');
      n := n + 1;
    }
  }

  /** An allocation that nothing interferes with comes to its end. */
  lemma AllocEnds(k: Pool, t: Tid, cnt: nat) returns (n: nat)
    requires Inv(k) && k.alloc.Idle? && cnt > 0
    ensures var k1 := Apply(k, AllocStart(t, cnt));
            CanRun(k1, AllocSteps(n)) && RunFrom(k1, AllocSteps(n)).alloc.Idle?
  {
    var e;
    StepKeeps(k, AllocStart(t, cnt));
    e, n := ScanEnds(Apply(k, AllocStart(t, cnt)));
    LeadsIsRun(Apply(k, AllocStart(t, cnt)), e, n);
  }

  // ----- with frees at work

  /** Some step leads from K to K'. */
  ghost predicate Next(k: Pool, k': Pool) {
    exists s :: |k.used| == |k.owner| && Enabled(k, s) && k' == Apply(k, s)
  }

  /** The states of a run, the first one where T has just asked for CNT pages of
      K, and the allocation at work in all of them but perhaps the last. */
  ghost predicate AtWork(k: Pool, ks: seq<Pool>, t: Tid, cnt: nat) {
    && Inv(k) && k.alloc.Idle? && cnt > 0 && ks != [] && ks[0] == Apply(k, AllocStart(t, cnt))
    && forall m :: 0 <= m < |ks| - 1 ==> !ks[m].alloc.Idle? && Next(ks[m], ks[m + 1])
  }

  /** Some page of the group at H was marked in one of the states. */
  ghost predicate SawMark(ks: seq<Pool>, h: nat, cnt: nat) {
    exists m, p :: 0 <= m < |ks| && h <= p < h + cnt && p < |ks[m].used| && ks[m].used[p]
  }

  /** What holds while it is at work: every place before the one it is at was passed
      over for a mark. */
  ghost predicate Passed(ks: seq<Pool>, t: Tid, cnt: nat) {
    ks != [] && var g := ks[|ks| - 1];
    && Inv(g) && |g.used| == |ks[0].used| && !g.alloc.Idle? && g.alloc.t == t && g.alloc.cnt == cnt
    && forall h: nat :: h < g.alloc.i ==> SawMark(ks, h, cnt)
  }

  lemma SawMore(ks: seq<Pool>, k: Pool, h: nat, cnt: nat)
    requires SawMark(ks, h, cnt)
    ensures SawMark(ks + [k], h, cnt)
  {
    var m, p :| 0 <= m < |ks| && h <= p < h + cnt && p < |ks[m].used| && ks[m].used[p];
    assert (ks + [k])[m] == ks[m];
  }

  /** One more step of anyone while the allocation goes on. */
  lemma PassedStep(ks: seq<Pool>, k': Pool, t: Tid, cnt: nat)
    requires Passed(ks, t, cnt) && Next(ks[|ks| - 1], k') && !k'.alloc.Idle?
    ensures Passed(ks + [k'], t, cnt)
  {
    var g := ks[|ks| - 1];
    var s :| |g.used| == |g.owner| && Enabled(g, s) && k' == Apply(g, s);
    StepKeeps(g, s);
    forall h: nat | h < k'.alloc.i ensures SawMark(ks + [k'], h, cnt) {
      if h >= g.alloc.i {
        assert s.AllocStep? && h == g.alloc.i;
        assert g.used[g.alloc.i + g.alloc.j];
        assert SawMark(ks, h, cnt);
      }
      SawMore(ks, k', h, cnt);
    }
  }

  lemma {:induction false} WorkPasses(k: Pool, ks: seq<Pool>, t: Tid, cnt: nat)
    requires AtWork(k, ks, t, cnt) && !ks[|ks| - 1].alloc.Idle?
    ensures Passed(ks, t, cnt)
    decreases |ks|
  {
    StepKeeps(k, AllocStart(t, cnt));
    if |ks| > 1 {
      var before, m := ks[..|ks| - 1], |ks| - 2;
      assert !ks[m].alloc.Idle? && Next(ks[m], ks[m + 1]);
      WorkPasses(k, before, t, cnt);
      PassedStep(before, ks[|ks| - 1], t, cnt);
      assert ks == before + [ks[|ks| - 1]];
    }
  }

  /** At whatever place the allocation is, it saw a mark in every group before. */
  lemma PassedForAMark(k: Pool, ks: seq<Pool>, t: Tid, cnt: nat, h: nat)
    requires AtWork(k, ks, t, cnt) && !ks[|ks| - 1].alloc.Idle? && h < ks[|ks| - 1].alloc.i
    ensures SawMark(ks, h, cnt)
  {
    WorkPasses(k, ks, t, cnt);
  }

  /** Whatever frees are at work beside it, it ends with a group that is T's, having
      seen a mark in every group before, or with nothing, having seen one in every
      group. */
  lemma EndsForAMark(k: Pool, ks: seq<Pool>, t: Tid, cnt: nat)
    requires AtWork(k, ks, t, cnt) && |ks| > 1 && ks[|ks| - 1].alloc.Idle?
    ensures var g, e := ks[|ks| - 2], ks[|ks| - 1];
            || (exists i: nat :: Granted(g, e, i, cnt, t) && i + cnt <= |e.used| &&
                  forall h: nat :: h < i ==> SawMark(ks, h, cnt))
            || (e.owner == g.owner && e.used == g.used && forall h: nat :: h + cnt <= |e.used| ==> SawMark(ks, h, cnt))
  {
    var before, g, e := ks[..|ks| - 1], ks[|ks| - 2], ks[|ks| - 1];
    var m := |ks| - 2;
    assert !ks[m].alloc.Idle? && Next(ks[m], ks[m + 1]);
    WorkPasses(k, before, t, cnt);
    var s :| |g.used| == |g.owner| && Enabled(g, s) && e == Apply(g, s);
    StepKeeps(g, s);
    assert ks == before + [e];
    forall h: nat | h < g.alloc.i ensures SawMark(ks, h, cnt) {
      SawMore(before, e, h, cnt);
    }
    if g.alloc.Flip? {
      FlipDone(g);
    }
  }

  // ----- a free alone

  function FreeSteps(f: nat, n: nat): seq<Step> {
    seq(n, _ => FreeStep(f))
  }

  /** The pages call F still had to clear are clear and nobody's, the call is over,
      and everything else is the same. */
  ghost predicate Released(k: Pool, e: Pool, f: nat)
    requires f in k.frees
  {
    && |e.used| == |k.used| == |k.owner| == |e.owner| && e.frees == k.frees - {f} && e.alloc == k.alloc
    && forall p :: 0 <= p < |k.used| ==>
         if InOp(k.frees[f], p) then !e.used[p] && e.owner[p] == Nobody
         else e.used[p] == k.used[p] && e.owner[p] == k.owner[p]
  }

  ghost function FreeLeft(op: FreeOp): int {
    if op.Checking? then 2 * op.len + 2 - op.j else op.len + 1 - op.j
  }

  /** palloc_free_multiple alone comes to its end and releases exactly its pages. */
  lemma {:induction false} FreeAlone(k: Pool, f: nat) returns (n: nat)
    requires Inv(k) && f in k.frees
    ensures CanRun(k, FreeSteps(f, n)) && Released(k, RunFrom(k, FreeSteps(f, n)), f)
    decreases FreeLeft(k.frees[f])
  {
    FreeKeeps(k, f);
    assert FreeOk(k, f);
    var k' := FreeNext(k, f);
    if f !in k'.frees {
      n := 1;
      assert FreeSteps(f, 1) == [FreeStep(f)] && FreeSteps(f, 1)[1..] == [];
      assert RunFrom(k, FreeSteps(f, 1)) == k';
    } else {
      n := FreeAlone(k', f);
      FreeMore(k, k', RunFrom(k', FreeSteps(f, n)), f);
      n := n + 1;
      assert FreeSteps(f, n)[0] == FreeStep(f) && FreeSteps(f, n)[1..] == FreeSteps(f, n - 1);
    }
  }

  lemma FreeMore(k: Pool, k': Pool, e: Pool, f: nat)
    requires Inv(k) && f in k.frees && k' == FreeNext(k, f) && f in k'.frees && Released(k', e, f)
    ensures Released(k, e, f)
  {
    assert FreeOk(k, f);
    assert e.frees == k.frees - {f};
    forall p | 0 <= p < |k.used|
      ensures if InOp(k.frees[f], p) then !e.used[p] && e.owner[p] == Nobody
              else e.used[p] == k.used[p] && e.owner[p] == k.owner[p]
    {
    }
  }
}
