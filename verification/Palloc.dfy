/** The page allocator: allocations scan and mark bits one at a time under the
    pool's lock, while frees clear bits one at a time without it. */
module Palloc {

  type Tid = nat

  /** Who a page belongs to: nobody, the allocation marking it, the thread it was
      handed to, or the call freeing it. */
  datatype Owner = Nobody | Claimed | Held(t: Tid) | Leaving(f: nat)

  /** The thread inside the lock: in bitmap_scan at bit I + J, or in
      bitmap_set_multiple with J bits of the group at I marked. */
  datatype Alloc = Idle | Scan(t: Tid, cnt: nat, i: nat, j: nat) | Flip(t: Tid, cnt: nat, i: nat, j: nat)

  /** A call of palloc_free_multiple for LEN pages from START: J of them checked
      by the assertion, or J of them cleared. */
  datatype FreeOp = Checking(start: nat, len: nat, j: nat) | Clearing(start: nat, len: nat, j: nat)

  datatype Pool = Pool(used: seq<bool>, owner: seq<Owner>, alloc: Alloc, frees: map<nat, FreeOp>)

  datatype Step =
    | AllocStart(t: Tid, cnt: nat)
    | AllocStep
    | FreeStart(t: Tid, f: nat, start: nat, len: nat)
    | FreeStep(f: nat)

  /** The pages START to START + LEN change to owner O. */
  function Assign(owner: seq<Owner>, start: nat, len: nat, o: Owner): seq<Owner> {
    seq(|owner|, p requires 0 <= p < |owner| => if start <= p < start + len then o else owner[p])
  }

  ghost predicate AllOwned(owner: seq<Owner>, start: nat, end: nat, o: Owner) {
    end <= |owner| && forall p :: start <= p < end ==> owner[p] == o
  }

  /** A new pool of N pages. */
  function Init(n: nat): Pool {
    Pool(seq(n, _ => false), seq(n, _ => Nobody), Idle, map[])
  }

  /** The lock admits one allocation; a thread frees pages it holds, once. */
  ghost predicate Enabled(k: Pool, s: Step) {
    match s
    case AllocStart(t, cnt) => k.alloc.Idle? && cnt > 0
    case AllocStep => !k.alloc.Idle?
    case FreeStart(t, f, start, len) => f !in k.frees && len > 0 && AllOwned(k.owner, start, start + len, Held(t))
    case FreeStep(f) => f in k.frees
  }

  /** One bit of the allocation's work: a test, a mark, or leaving the lock. */
  function AllocNext(k: Pool): Pool
    requires !k.alloc.Idle? && |k.used| == |k.owner|
  {
    match k.alloc
    case Scan(t, cnt, i, j) =>
      if i + cnt > |k.used| then k.(alloc := Idle)
      else if j >= cnt then k.(alloc := Flip(t, cnt, i, 0))
      else if k.used[i + j] then k.(alloc := Scan(t, cnt, i + 1, 0))
      else k.(alloc := Scan(t, cnt, i, j + 1))
    case Flip(t, cnt, i, j) =>
      if j < cnt && i + j < |k.used| then
        k.(used := k.used[i + j := true], owner := k.owner[i + j := Claimed], alloc := Flip(t, cnt, i, j + 1))
      else k.(owner := Assign(k.owner, i, cnt, Held(t)), alloc := Idle)
  }

  /** One bit of a free's work: a check, a clear, or returning. */
  function FreeNext(k: Pool, f: nat): Pool
    requires f in k.frees && |k.used| == |k.owner|
  {
    match k.frees[f]
    case Checking(start, len, j) =>
      if j < len then k.(frees := k.frees[f := Checking(start, len, j + 1)])
      else k.(frees := k.frees[f := Clearing(start, len, 0)])
    case Clearing(start, len, j) =>
      if j < len && start + j < |k.used| then
        k.(used := k.used[start + j := false], owner := k.owner[start + j := Nobody],
           frees := k.frees[f := Clearing(start, len, j + 1)])
      else k.(frees := k.frees - {f})
  }

  function Apply(k: Pool, s: Step): Pool
    requires |k.used| == |k.owner| && Enabled(k, s)
  {
    match s
    case AllocStart(t, cnt) => k.(alloc := Scan(t, cnt, 0, 0))
    case AllocStep => AllocNext(k)
    case FreeStart(t, f, start, len) =>
      k.(owner := Assign(k.owner, start, len, Leaving(f)), frees := k.frees[f := Checking(start, len, 0)])
    case FreeStep(f) => FreeNext(k, f)
  }

  // ----- the invariant

  /** The pages a free still has to clear. */
  ghost predicate InOp(op: FreeOp, p: nat) {
    op.start + (if op.Clearing? then op.j else 0) <= p < op.start + op.len
  }

  /** A bit is set exactly for pages that belong to someone. */
  ghost predicate PageOk(k: Pool, p: nat)
    requires p < |k.used| == |k.owner|
  {
    && (k.used[p] <==> k.owner[p] != Nobody)
    && (k.owner[p].Claimed? ==> k.alloc.Flip? && k.alloc.i <= p < k.alloc.i + k.alloc.j)
    && (k.owner[p].Leaving? ==> k.owner[p].f in k.frees && InOp(k.frees[k.owner[p].f], p))
  }

  /** What the allocation knows of page P: a bit it found clear is still clear, a
      bit it marked is its own, and a bit it will mark is clear. */
  ghost predicate AllocAt(k: Pool, p: nat)
    requires p < |k.used| == |k.owner|
  {
    match k.alloc
    case Idle => true
    case Scan(t, cnt, i, j) => i <= p < i + j ==> !k.used[p]
    case Flip(t, cnt, i, j) => (i <= p < i + j ==> k.owner[p].Claimed?) && (i + j <= p < i + cnt ==> !k.used[p])
  }

  ghost predicate AllocOk(k: Pool) {
    match k.alloc
    case Idle => true
    case Scan(t, cnt, i, j) => cnt > 0 && j <= cnt
    case Flip(t, cnt, i, j) => cnt > 0 && j <= cnt && i + cnt <= |k.used|
  }

  /** A page that a free has yet to clear belongs to that free. */
  ghost predicate FreeAt(k: Pool, f: nat, p: nat)
    requires f in k.frees && p < |k.owner|
  {
    InOp(k.frees[f], p) ==> k.owner[p] == Leaving(f)
  }

  ghost predicate FreeOk(k: Pool, f: nat)
    requires f in k.frees
  {
    k.frees[f].j <= k.frees[f].len && k.frees[f].start + k.frees[f].len <= |k.owner|
  }

  ghost predicate Inv(k: Pool) {
    && |k.used| == |k.owner| && AllocOk(k)
    && (forall p :: 0 <= p < |k.used| ==> PageOk(k, p))
    && (forall p :: 0 <= p < |k.used| ==> AllocAt(k, p))
    && (forall f :: f in k.frees ==> FreeOk(k, f))
    && (forall f, p :: f in k.frees && 0 <= p < |k.owner| ==> FreeAt(k, f, p))
  }

  lemma InitInv(n: nat)
    ensures Inv(Init(n))
  {
  }

  lemma AllocKeeps(k: Pool)
    requires Inv(k) && !k.alloc.Idle?
    ensures Inv(AllocNext(k)) && |AllocNext(k).used| == |k.used|
  {
    var k' := AllocNext(k);
    forall p | 0 <= p < |k'.used| ensures PageOk(k', p) && AllocAt(k', p) {
      assert PageOk(k, p) && AllocAt(k, p);
    }
    forall f | f in k'.frees ensures FreeOk(k', f) {
      assert FreeOk(k, f);
    }
    forall f, p | f in k'.frees && 0 <= p < |k'.owner| ensures FreeAt(k', f, p) {
      assert FreeAt(k, f, p) && PageOk(k, p) && AllocAt(k, p);
    }
  }

  lemma FreeStartKeeps(k: Pool, s: Step)
    requires Inv(k) && s.FreeStart? && Enabled(k, s)
    ensures Inv(Apply(k, s))
  {
    var k' := Apply(k, s);
    forall p | 0 <= p < |k'.used| ensures PageOk(k', p) && AllocAt(k', p) {
      assert PageOk(k, p) && AllocAt(k, p) && (s.start <= p < s.start + s.len ==> k.owner[p].Held?);
    }
    forall f | f in k'.frees ensures FreeOk(k', f) {
      assert f != s.f ==> FreeOk(k, f);
    }
    forall f, p | f in k'.frees && 0 <= p < |k'.owner| ensures FreeAt(k', f, p) {
      assert PageOk(k, p) && (s.start <= p < s.start + s.len ==> k.owner[p].Held?);
      assert f != s.f ==> FreeAt(k, f, p);
    }
  }

  lemma FreeKeeps(k: Pool, f: nat)
    requires Inv(k) && f in k.frees
    ensures Inv(FreeNext(k, f)) && |FreeNext(k, f).used| == |k.used|
  {
    var k' := FreeNext(k, f);
    assert FreeOk(k, f);
    forall p | 0 <= p < |k'.used| ensures PageOk(k', p) && AllocAt(k', p) {
      assert PageOk(k, p) && AllocAt(k, p) && FreeAt(k, f, p);
    }
    forall g | g in k'.frees ensures FreeOk(k', g) {
      assert FreeOk(k, g);
    }
    forall g, p | g in k'.frees && 0 <= p < |k'.owner| ensures FreeAt(k', g, p) {
      assert FreeAt(k, g, p) && FreeAt(k, f, p);
    }
  }

  lemma StepKeeps(k: Pool, s: Step)
    requires Inv(k) && Enabled(k, s)
    ensures Inv(Apply(k, s)) && |Apply(k, s).used| == |k.used|
  {
    match s
    case AllocStart(t, cnt) =>
      var k' := Apply(k, s);
      assert forall p :: 0 <= p < |k'.used| ==> PageOk(k, p) ==> PageOk(k', p);
      assert forall f :: f in k'.frees ==> FreeOk(k, f) ==> FreeOk(k', f);
      assert forall f, p :: f in k'.frees && 0 <= p < |k'.owner| ==> FreeAt(k, f, p) ==> FreeAt(k', f, p);
    case AllocStep => AllocKeeps(k);
    case FreeStart(_, _, _, _) => FreeStartKeeps(k, s);
    case FreeStep(f) => FreeKeeps(k, f);
  }

  // ----- runs

  /** Every step of SS can be taken, one after the other. */
  ghost predicate CanRun(k: Pool, ss: seq<Step>)
    decreases |ss|
  {
    ss == [] || (|k.used| == |k.owner| && Enabled(k, ss[0]) && CanRun(Apply(k, ss[0]), ss[1..]))
  }

  ghost function RunFrom(k: Pool, ss: seq<Step>): Pool
    requires CanRun(k, ss)
    decreases |ss|
  {
    if ss == [] then k else RunFrom(Apply(k, ss[0]), ss[1..])
  }

  lemma {:induction false} RunKeeps(k: Pool, ss: seq<Step>)
    requires Inv(k) && CanRun(k, ss)
    ensures Inv(RunFrom(k, ss)) && |RunFrom(k, ss).used| == |k.used|
    decreases |ss|
  {
    if ss != [] {
      StepKeeps(k, ss[0]);
      RunKeeps(Apply(k, ss[0]), ss[1..]);
    }
  }

  lemma Reachable(n: nat, ss: seq<Step>)
    requires CanRun(Init(n), ss)
    ensures Inv(RunFrom(Init(n), ss)) && |RunFrom(Init(n), ss).used| == n
  {
    InitInv(n);
    RunKeeps(Init(n), ss);
  }

  /** Step S gives page P to the thread that asked for it. */
  ghost predicate Grants(k: Pool, s: Step, p: nat) {
    s.AllocStep? && k.alloc.Flip? && k.alloc.j >= k.alloc.cnt && k.alloc.i <= p < k.alloc.i + k.alloc.cnt
  }

  /** Step S gives page P up. */
  predicate GivesUp(s: Step, p: nat) {
    s.FreeStart? && s.start <= p < s.start + s.len
  }

  /** A page just granted belonged to no thread and to no free. */
  lemma GrantFresh(k: Pool, s: Step, p: nat)
    requires Inv(k) && Enabled(k, s) && p < |k.used| && Grants(k, s, p)
    ensures k.owner[p] == Claimed && Apply(k, s).owner[p] == Held(k.alloc.t) && Apply(k, s).used[p]
  {
    assert AllocAt(k, p) && PageOk(k, p);
  }

  /** A page stays with its holder until the holder gives it up. */
  lemma HeldStep(k: Pool, s: Step, p: nat, t: Tid)
    requires Inv(k) && Enabled(k, s) && p < |k.used| && k.owner[p] == Held(t) && !GivesUp(s, p)
    ensures Apply(k, s).owner[p] == Held(t) && !Grants(k, s, p)
  {
    assert PageOk(k, p) && AllocAt(k, p);
    if s.FreeStep? {
      assert FreeOk(k, s.f) && FreeAt(k, s.f, p);
    }
  }

  lemma {:induction false} HeldRun(k: Pool, ss: seq<Step>, p: nat, t: Tid, m: nat)
    requires Inv(k) && CanRun(k, ss) && p < |k.used| && k.owner[p] == Held(t) && m <= |ss|
    requires forall i :: 0 <= i < |ss| ==> !GivesUp(ss[i], p)
    ensures CanRun(k, ss[..m])
    ensures var g := RunFrom(k, ss[..m]);
            p < |g.owner| && g.owner[p] == Held(t) && (m < |ss| ==> !Grants(g, ss[m], p))
    decreases |ss|
  {
    if m > 0 {
      StepKeeps(k, ss[0]);
      HeldStep(k, ss[0], p, t);
      HeldRun(Apply(k, ss[0]), ss[1..], p, t, m - 1);
      assert ss[..m][1..] == ss[1..][..m - 1];
    } else if |ss| > 0 {
      HeldStep(k, ss[0], p, t);
    }
  }

  /** No page is handed to two owners: after any run, a page that thread T holds
      stays with T through all further steps until T gives it up, and none of
      those steps grants it. */
  lemma NeverHandedTwice(n: nat, before: seq<Step>, ss: seq<Step>, p: nat, t: Tid, m: nat)
    requires CanRun(Init(n), before) && CanRun(RunFrom(Init(n), before), ss) && m <= |ss| && p < n
    requires p < |RunFrom(Init(n), before).owner| && RunFrom(Init(n), before).owner[p] == Held(t)
    requires forall i :: 0 <= i < |ss| ==> !GivesUp(ss[i], p)
    ensures var k := RunFrom(Init(n), before);
            && CanRun(k, ss[..m])
            && var g := RunFrom(k, ss[..m]);
               p < |g.owner| && g.owner[p] == Held(t) && (m < |ss| ==> !Grants(g, ss[m], p))
  {
    Reachable(n, before);
    HeldRun(RunFrom(Init(n), before), ss, p, t, m);
  }

  /** The assertion in palloc_free_multiple holds at every test it makes. */
  lemma FreeAssertion(k: Pool, f: nat)
    requires Inv(k) && f in k.frees && k.frees[f].Checking? && k.frees[f].j < k.frees[f].len
    ensures var p := k.frees[f].start + k.frees[f].j; p < |k.used| && k.used[p]
  {
    assert FreeOk(k, f);
    var p := k.frees[f].start + k.frees[f].j;
    assert FreeAt(k, f, p) && PageOk(k, p);
  }

  /** Freed pages are free again: when no call is at work, the marked pages are
      exactly the pages some thread holds. */
  lemma QuietPool(k: Pool, p: nat)
    requires Inv(k) && k.alloc.Idle? && k.frees == map[] && p < |k.used|
    ensures k.used[p] <==> k.owner[p].Held?
  {
    assert PageOk(k, p);
  }
}
