/** Order on the wait lists: every semaphore wakes its sleepers first come, first
    served. */
module KernelWaits {
  import opened Common
  import opened KernelModel
  import opened KernelSched
  import opened KernelEvents

  // ----- one step

  /** From K to K', T becomes BLOCKED inside a sema_down of S. */
  ghost predicate FallsAsleep(k: Kernel, k': Kernel, s: Sem, t: Tid) {
    !AsleepOn(k, t, s) && AsleepOn(k', t, s)
  }

  /** From K to K', T stops being BLOCKED inside a sema_down of S. */
  ghost predicate Wakes(k: Kernel, k': Kernel, s: Sem, t: Tid) {
    AsleepOn(k, t, s) && !AsleepOn(k', t, s)
  }

  /** A wait list grows by the running thread at the back, shrinks at the front, or
      stays. */
  ghost predicate Shifts(w: seq<Tid>, w': seq<Tid>, t: Tid) {
    w' == w || w' == w + [t] || (w != [] && w' == w[1..])
  }

  ghost predicate ListShifts(k: Kernel, k': Kernel, s: Sem, t: Tid) {
    s in k.sems && s in k'.sems && Shifts(k.sems[s].waiters, k'.sems[s].waiters, t)
  }

  lemma UpShifts(k: Kernel, r: Sem, s: Sem, t: Tid)
    requires r in k.sems && s in k.sems
    ensures ListShifts(k, SemaUp(k, r), s, t)
  {
    var waiters := if k.sems[r].waiters == [] then [] else k.sems[r].waiters[1..];
    assert SemaUp(k, r).sems == k.sems[r := Sema(k.sems[r].value + 1, waiters)];
  }

  lemma DownShifts(k: Kernel, r: Sem, waiting: Pc, s: Sem)
    requires k.cur in k.status && CanDown(k, r) && s in k.sems
    ensures ListShifts(k, Down(k, r, waiting), s, k.cur)
  {
  }

  lemma ThreadShifts(k: Kernel, step: Step, s: Sem)
    requires Enabled(k, step) && s in k.sems && ThreadStep(step)
    ensures ListShifts(k, Apply(k, step), s, k.cur)
  {
    if step.IdleStep? && k.pc[k.cur].IdleUp? {
      UpShifts(SetPc(k, IdleLoop), IDLE_STARTED, s, k.cur);
    }
  }

  lemma SemaShifts(k: Kernel, step: Step, s: Sem)
    requires Enabled(k, step) && s in k.sems && SemaStep(step)
    ensures ListShifts(k, Apply(k, step), s, k.cur)
  {
    if step.HandlerUp? || step.CallUp? {
      UpShifts(k, UserSem(step.id), s, k.cur);
    } else if step.Resume? {
      DownShifts(k, WaitsOn(k.cur, k.pc[k.cur]).value, k.pc[k.cur], s);
    } else if step.CallDown? {
      DownShifts(k, UserSem(step.id), SemaWait(step.id), s);
    }
  }

  lemma LockShifts(k: Kernel, step: Step, s: Sem)
    requires Enabled(k, step) && s in k.sems && LockStep(step)
    ensures ListShifts(k, Apply(k, step), s, k.cur)
  {
    if step.CallAcquire? {
      DownShifts(k, LockSem(step.lock), LockWait(step.lock, Plain), s);
    } else if step.FinishRelease? {
      var pc := k.pc[k.cur];
      UpShifts(SetPc(k, if pc.caller.Plain? then User else WaitDown(pc.caller.cond)), LockSem(pc.lock), s, k.cur);
    }
  }

  lemma WaitShifts(k: Kernel, s: Sem)
    requires Enabled(k, WaitStep) && s in k.sems
    ensures ListShifts(k, WaitNow(k), s, k.cur)
  {
    var pc := k.pc[k.cur];
    if pc.WaitDown? {
      DownShifts(k, WaiterSem(k.cur), WaitSleep(pc.cond), s);
    } else if pc.WaitAcquire? {
      var l := k.lockOf[pc.cond];
      DownShifts(k, LockSem(l), LockWait(l, InWait(pc.cond)), s);
    }
  }

  /** cond_wait initialises a semaphore that nobody waits on. */
  lemma CondShifts(k: Kernel, step: Step, s: Sem)
    requires SchedInv(k) && Enabled(k, step) && s in k.sems && CondStep(step)
    ensures ListShifts(k, Apply(k, step), s, k.cur)
  {
    if step.CallWait? {
      NobodyWaits(k);
    } else if step.WaitStep? {
      WaitShifts(k, s);
    } else if step.SignalStep? && k.pc[k.cur].SignalUp? {
      var pc := k.pc[k.cur];
      UpShifts(SetPc(k, if pc.all then Broadcast(pc.cond) else User), WaiterSem(pc.waiter), s, k.cur);
    }
  }

  lemma StepShifts(k: Kernel, step: Step, s: Sem)
    requires SchedInv(k) && Enabled(k, step) && s in k.sems
    ensures ListShifts(k, Apply(k, step), s, k.cur)
  {
    if ThreadStep(step) {
      ThreadShifts(k, step, s);
    } else if SemaStep(step) {
      SemaShifts(k, step, s);
    } else if LockStep(step) {
      LockShifts(k, step, s);
    } else {
      CondShifts(k, step, s);
    }
  }

  /** Who falls asleep on S, and who wakes: in one step one thread at most. */
  ghost function Sleeper(k: Kernel, k': Kernel, s: Sem): seq<Tid> {
    if t :| FallsAsleep(k, k', s, t) then [t] else []
  }

  ghost function Waker(k: Kernel, k': Kernel, s: Sem): seq<Tid> {
    if t :| Wakes(k, k', s, t) then [t] else []
  }

  /** Only the running thread falls asleep, and goes to the back; only the front of
      the list wakes. */
  lemma WhoSleeps(k: Kernel, k': Kernel, s: Sem, t: Tid)
    requires WaitLists(k) && WaitLists(k') && ListShifts(k, k', s, k.cur)
    ensures var w, w' := k.sems[s].waiters, k'.sems[s].waiters;
            && (FallsAsleep(k, k', s, t) <==> t == k.cur && w' == w + [t])
            && (Wakes(k, k', s, t) <==> w != [] && t == w[0] && w' == w[1..])
  {
    ShiftMembers(k.sems[s].waiters, k'.sems[s].waiters, k.cur, t);
  }

  lemma ShiftMembers(w: seq<Tid>, w': seq<Tid>, cur: Tid, t: Tid)
    requires NoDup(w) && NoDup(w') && Shifts(w, w', cur)
    ensures t !in w && t in w' <==> t == cur && w' == w + [t]
    ensures t in w && t !in w' <==> w != [] && t == w[0] && w' == w[1..]
  {
    if w' == w + [cur] {
      assert w'[|w|] == cur;
      assert forall i :: 0 <= i < |w| ==> w[i] == w'[i];
    } else if w != [] && w' == w[1..] {
      NoDupCons(w);
      assert t in w <==> t == w[0] || t in w[1..];
    }
  }

  lemma SleeperIs(k: Kernel, k': Kernel, s: Sem)
    requires WaitLists(k) && WaitLists(k') && ListShifts(k, k', s, k.cur)
    ensures var w, w' := k.sems[s].waiters, k'.sems[s].waiters;
            Sleeper(k, k', s) == if w' == w + [k.cur] then [k.cur] else []
  {
    WhoSleeps(k, k', s, k.cur);
    var found := Sleeper(k, k', s);
    if found != [] {
      WhoSleeps(k, k', s, found[0]);
    }
  }

  lemma WakerIs(k: Kernel, k': Kernel, s: Sem)
    requires WaitLists(k) && WaitLists(k') && ListShifts(k, k', s, k.cur)
    ensures var w, w' := k.sems[s].waiters, k'.sems[s].waiters;
            Waker(k, k', s) == if w != [] && w' == w[1..] then [w[0]] else []
  {
    var w := k.sems[s].waiters;
    WhoSleeps(k, k', s, if w == [] then k.cur else w[0]);
    var found := Waker(k, k', s);
    if found != [] {
      WhoSleeps(k, k', s, found[0]);
    }
  }

  /** One step: who woke, then the list, is the list, then who fell asleep. */
  lemma OneStepInOrder(k: Kernel, k': Kernel, s: Sem)
    requires WaitLists(k) && WaitLists(k') && ListShifts(k, k', s, k.cur)
    ensures Waker(k, k', s) + k'.sems[s].waiters == k.sems[s].waiters + Sleeper(k, k', s)
  {
    SleeperIs(k, k', s);
    WakerIs(k, k', s);
  }

  // ----- whole runs

  /** The threads that fall asleep on S along a run, in order. */
  ghost function Sleepers(k: Kernel, steps: seq<Step>, s: Sem): seq<Tid>
    requires CanRun(k, steps)
    decreases |steps|
  {
    if steps == [] then [] else Sleeper(k, Apply(k, steps[0]), s) + Sleepers(Apply(k, steps[0]), steps[1..], s)
  }

  /** The threads that wake from S along a run, in order. */
  ghost function Wakers(k: Kernel, steps: seq<Step>, s: Sem): seq<Tid>
    requires CanRun(k, steps)
    decreases |steps|
  {
    if steps == [] then [] else Waker(k, Apply(k, steps[0]), s) + Wakers(Apply(k, steps[0]), steps[1..], s)
  }

  /** Along any run the threads woken from S, followed by those still waiting, are
      those that waited, followed by those that fell asleep, in this order. */
  lemma {:induction false} SleepersServedInOrder(k: Kernel, steps: seq<Step>, s: Sem)
    requires SchedInv(k) && CanRun(k, steps) && s in k.sems
    ensures s in RunFrom(k, steps).sems
    ensures Wakers(k, steps, s) + RunFrom(k, steps).sems[s].waiters == k.sems[s].waiters + Sleepers(k, steps, s)
    decreases |steps|
  {
    if steps == [] {
      assert [] + k.sems[s].waiters == k.sems[s].waiters + [];
    } else {
      var k' := Apply(k, steps[0]);
      StepKeepsSched(k, steps[0]);
      StepShifts(k, steps[0], s);
      OneStepInOrder(k, k', s);
      SleepersServedInOrder(k', steps[1..], s);
      InOrder(Waker(k, k', s), k'.sems[s].waiters, k.sems[s].waiters, Sleeper(k, k', s),
              Wakers(k', steps[1..], s), RunFrom(k', steps[1..]).sems[s].waiters, Sleepers(k', steps[1..], s));
    }
  }

  lemma InOrder(up: seq<Tid>, w': seq<Tid>, w: seq<Tid>, down: seq<Tid>, ups: seq<Tid>, e: seq<Tid>, downs: seq<Tid>)
    requires up + w' == w + down && ups + e == w' + downs
    ensures up + ups + e == w + (down + downs)
  {
    assert up + ups + e == up + (ups + e) == up + (w' + downs) == up + w' + downs == w + down + downs;
    assert w + down + downs == w + (down + downs);
  }

  /** So the thread at position I is the (I+1)-th to wake, and waits until then. */
  lemma {:induction false} WokenInTurn(k: Kernel, steps: seq<Step>, s: Sem, i: nat)
    requires SchedInv(k) && CanRun(k, steps) && s in k.sems && i < |k.sems[s].waiters|
    ensures s in RunFrom(k, steps).sems
    ensures var t, wakers := k.sems[s].waiters[i], Wakers(k, steps, s);
            if i < |wakers| then wakers[i] == t else t in RunFrom(k, steps).sems[s].waiters
  {
    SleepersServedInOrder(k, steps, s);
    AtPosition(Wakers(k, steps, s), RunFrom(k, steps).sems[s].waiters, k.sems[s].waiters, Sleepers(k, steps, s), i);
  }

  lemma AtPosition(ups: seq<Tid>, e: seq<Tid>, w: seq<Tid>, downs: seq<Tid>, i: nat)
    requires ups + e == w + downs && i < |w|
    ensures if i < |ups| then ups[i] == w[i] else w[i] in e
  {
    assert (w + downs)[i] == w[i];
    if i >= |ups| {
      assert (ups + e)[i] == e[i - |ups|];
    }
  }
}
