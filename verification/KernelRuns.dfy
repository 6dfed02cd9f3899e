/** What every run of the kernel satisfies, from thread_start on. */
module KernelRuns {
  import opened Common
  import opened KernelModel
  import opened KernelSched
  import opened KernelWake
  import opened KernelMonitor
  import opened KernelSteps
  import opened KernelEvents

  ghost predicate Inv(k: Kernel) {
    SchedInv(k) && WakeInv(k) && MonitorInv(k)
  }

  lemma InitSched(k: Kernel)
    requires Init(k)
    ensures SchedInv(k)
  {
    InitLists(k);
    assert k.boot in k.pc && k.cur in k.status;
  }

  lemma InitLists(k: Kernel)
    requires Init(k)
    ensures ReadyList(k) && WaitLists(k)
  {
    assert k.boot in k.ready;
    assert forall t :: OnReadyList(k, t) <==> t == k.boot;
    assert forall s, t :: !AsleepOn(k, t, s);
  }

  lemma InitMonitor(k: Kernel)
    requires Init(k)
    ensures MonitorInv(k) && WakeInv(k)
  {
    forall l ensures LockOk(k, l) {
      assert forall t :: !Owns(k, l, t);
    }
  }

  lemma {:induction false} RunKeeps(k: Kernel, steps: seq<Step>)
    requires Inv(k) && CanRun(k, steps)
    ensures Inv(RunFrom(k, steps))
    decreases |steps|
  {
    if steps != [] {
      StepKeepsSched(k, steps[0]);
      StepKeepsWake(k, steps[0]);
      StepKeepsMonitor(k, steps[0]);
      RunKeeps(Apply(k, steps[0]), steps[1..]);
    }
  }

  /** Every reachable state satisfies the three invariants. */
  lemma ReachableInv(k: Kernel, steps: seq<Step>)
    requires Init(k) && CanRun(k, steps)
    ensures Inv(RunFrom(k, steps))
  {
    InitSched(k);
    InitMonitor(k);
    RunKeeps(k, steps);
  }

  /** In every reachable state one thread is RUNNING, the run queue holds
      exactly the READY threads other than idle, and no thread is on two wait
      lists or on a wait list and the run queue. */
  lemma SchedulerSafety(k: Kernel, steps: seq<Step>)
    requires Init(k) && CanRun(k, steps)
    ensures var e := RunFrom(k, steps);
            && e.cur in e.status
            && (forall t :: t in e.status ==> (e.status[t] == Running <==> t == e.cur))
            && NoDup(e.ready)
            && (forall t :: t in e.ready <==> t in e.status && e.status[t] == Ready && e.idle != Some(t))
            && (forall s, t :: s in e.sems && t in e.sems[s].waiters ==>
                  t in e.status && e.status[t] == Blocked && t !in e.ready)
            && (forall r, s, t :: r in e.sems && s in e.sems && t in e.sems[r].waiters && t in e.sems[s].waiters ==>
                  r == s)
  {
    ReachableInv(k, steps);
    var e := RunFrom(k, steps);
    assert forall t :: t in e.ready <==> OnReadyList(e, t);
    assert forall s, t :: s in e.sems && t in e.sems[s].waiters ==> AsleepOn(e, t, s);
  }

  /** In every reachable state, while threads sleep on a semaphore its value is at
      most the number of threads sema_up has popped that have yet to test it. */
  lemma WakeupsNotLost(k: Kernel, steps: seq<Step>, s: Sem)
    requires Init(k) && CanRun(k, steps) && s in RunFrom(k, steps).sems && RunFrom(k, steps).sems[s].waiters != []
    ensures var e := RunFrom(k, steps);
            && e.sems[s].value <= |Woken(e, s)|
            && forall t :: t in Woken(e, s) ==> t == e.cur || t in e.ready
  {
    ReachableInv(k, steps);
    var e := RunFrom(k, steps);
    assert NoLostWakeup(e, s);
    forall t | t in Woken(e, s) ensures t == e.cur || t in e.ready {
      assert IsWoken(e, t, s) && Placed(e, t) && OnReadyList(e, t) == (t in e.ready);
    }
  }

  // ----- no assertion fails

  /** The step the running thread's program counter calls for. */
  function NextStep(k: Kernel): Step
    requires k.cur in k.pc
  {
    match k.pc[k.cur]
    case User => Yield
    case Embryo(_) => Yield
    case Creating(_) => CreateEnd
    case IdleStart => IdleStep
    case IdleUp => IdleStep
    case IdleLoop => IdleStep
    case SemaWait(_) => Resume
    case LockWait(_, _) => Resume
    case LockGot(_, _) => SetHolder
    case LockGive(_, _) => FinishRelease
    case WaitPush(_) => WaitStep
    case WaitRelease(_) => WaitStep
    case WaitDown(_) => WaitStep
    case WaitSleep(_) => Resume
    case WaitAcquire(_) => WaitStep
    case SignalUp(_, _, _) => SignalStep
    case Broadcast(_) => SignalStep
  }

  /** The kernel never reaches a point where an assertion of the code it is
      executing would fail: whatever statement comes next is enabled. */
  lemma NeverStuck(k: Kernel)
    requires Inv(k)
    ensures Enabled(k, NextStep(k))
  {
    assert PcOk(k, k.cur) && Placed(k, k.cur);
    if k.pc[k.cur] != IdleStart {
      SomeoneToRun(k);
    }
    if k.pc[k.cur].Creating? {
      ChildIsBlocked(k);
    }
    if k.pc[k.cur].SignalUp? {
      assert PcOk(k, k.pc[k.cur].waiter);
    }
    if k.pc[k.cur].WaitAcquire? {
      assert LockOk(k, k.lockOf[k.pc[k.cur].cond]);
    }
    if k.pc[k.cur].LockGive? {
      assert LockOk(k, k.pc[k.cur].lock);
    }
  }

  // ----- locks

  ghost function Owners(k: Kernel, l: nat): set<Tid>
    requires l in k.holder
  {
    (set t | t in k.pc && OwnerPc(k.pc[t], l)) + (if k.holder[l].Some? then {k.holder[l].value} else {})
  }

  /** Mutual exclusion: the value of a lock's semaphore plus its owners is one,
      and a non-null holder is that owner. */
  lemma LockExclusion(k: Kernel, l: nat)
    requires Inv(k) && l in k.holder
    ensures LockSem(l) in k.sems && k.sems[LockSem(l)].value + |Owners(k, l)| == 1
    ensures k.holder[l].Some? ==> Owners(k, l) == {k.holder[l].value}
  {
    assert LockOk(k, l);
    assert forall t :: t in Owners(k, l) <==> Owns(k, l, t);
    if Val(k, LockSem(l)) == 1 {
      assert Owners(k, l) == {};
    } else {
      var o: Tid :| SoleOwner(k, l, o);
      assert Owners(k, l) == {o};
    }
  }

  /** A free lock with threads queued on it has a woken thread ahead of them. */
  lemma FreeLockHasTaker(k: Kernel, l: nat)
    requires Inv(k) && LockSem(l) in k.sems
    requires k.sems[LockSem(l)].value > 0 && k.sems[LockSem(l)].waiters != []
    ensures exists t :: t in k.status && (t in k.ready || t == k.cur) && IsWoken(k, t, LockSem(l))
  {
    assert NoLostWakeup(k, LockSem(l));
    var t :| t in Woken(k, LockSem(l));
    assert IsWoken(k, t, LockSem(l)) && Placed(k, t) && OnReadyList(k, t) == (t in k.ready);
  }

  // ----- condition variables

  /** A waiting record on cond->waiters belongs to a cond_wait that has not
      returned, and it is on one list once. */
  lemma RecordsAreLive(k: Kernel, c: nat, w: Tid)
    requires Inv(k) && c in k.conds && w in k.conds[c]
    ensures w in k.pc && Phase(k.pc[w], c) && k.pc[w] != User
    ensures NoDup(k.conds[c])
    ensures forall d :: d in k.conds && w in k.conds[d] ==> d == c
  {
    assert CondOk(k, c);
    forall d | d in k.conds && w in k.conds[d] ensures d == c {
      assert CondOk(k, d);
    }
  }

  /** W has been signalled: its private semaphore holds the token. */
  ghost predicate Signalled(k: Kernel, c: nat, w: Tid) {
    w in k.pc && Phase(k.pc[w], c) && Val(k, WaiterSem(w)) == 1
  }

  /** A signalled thread is not asleep, even when the signal came before its
      sema_down. */
  lemma SignalledAwake(k: Kernel, c: nat, w: Tid)
    requires Inv(k) && Signalled(k, c, w)
    ensures w in k.status && k.status[w] != Blocked && w !in k.conds[c]
  {
    assert PcOk(k, w) && CondOk(k, c) && Placed(k, w) && NoLostWakeup(k, WaiterSem(w));
    assert k.status[w] == Blocked ==> AsleepOn(k, w, WaiterSem(w)) && Woken(k, WaiterSem(w)) == {};
  }

  /** The up of cond_signal goes to the record it has popped and to no other; no
      record leaves or joins a list with it. */
  lemma SignalUps(k: Kernel)
    requires Inv(k) && k.pc[k.cur].SignalUp? && Enabled(k, SignalStep)
    ensures var pc := k.pc[k.cur]; var k' := Apply(k, SignalStep);
            && Signalled(k', pc.cond, pc.waiter)
            && k'.conds == k.conds
            && (forall s :: s in k.sems && s != WaiterSem(pc.waiter) ==> k'.sems[s] == k.sems[s])
  {
    assert PcOk(k, k.cur);
  }

  lemma SignalDelivers(k: Kernel)
    requires Inv(k) && k.pc[k.cur].SignalUp? && Enabled(k, SignalStep)
    ensures var w := k.pc[k.cur].waiter; var k' := Apply(k, SignalStep);
            w in k'.status && k'.status[w] != Blocked
  {
    SignalUps(k);
    StepKeeps(k, SignalStep);
    SignalledAwake(Apply(k, SignalStep), k.pc[k.cur].cond, k.pc[k.cur].waiter);
  }

  lemma StepKeeps(k: Kernel, step: Step)
    requires Inv(k) && Enabled(k, step)
    ensures Inv(Apply(k, step))
  {
    StepKeepsSched(k, step);
    StepKeepsWake(k, step);
    StepKeepsMonitor(k, step);
  }

  // ----- a signal is kept until its receiver has taken it

  /** The receiver itself moves through the phases of cond_wait. */
  lemma ReceiverMoves(k: Kernel, step: Step, c: nat)
    requires Enabled(k, step) && Phase(k.pc[k.cur], c)
    ensures var k' := Apply(k, step);
            k.cur in k'.pc && (k'.pc[k.cur] == WaitAcquire(c) ||
                               (Phase(k'.pc[k.cur], c) && DownTarget(k, step) != Some(WaiterSem(k.cur))))
    ensures !step.CallWait?
  {
    if ThreadStep(step) {
      TickPc(k);
    } else if step.Resume? || step.WaitStep? {
      ReceiverDowns(k, step, c);
    }
  }

  lemma ReceiverDowns(k: Kernel, step: Step, c: nat)
    requires Enabled(k, step) && Phase(k.pc[k.cur], c) && (step.Resume? || step.WaitStep?)
    ensures var k' := Apply(k, step);
            k.cur in k'.pc && (k'.pc[k.cur] == WaitAcquire(c) ||
                               (Phase(k'.pc[k.cur], c) && DownTarget(k, step) != Some(WaiterSem(k.cur))))
  {
    match k.pc[k.cur]
    case WaitRelease(_) =>
    case WaitDown(_) => PrivateDownPc(k, c);
    case WaitSleep(_) => PrivateDownPc(k, c);
  }

  lemma PrivateDownPc(k: Kernel, c: nat)
    requires k.cur in k.status && CanDown(k, WaiterSem(k.cur))
    ensures var k' := Down(k, WaiterSem(k.cur), WaitSleep(c));
            k.cur in k'.pc && k'.pc[k.cur] == if Val(k, WaiterSem(k.cur)) == 0 then WaitSleep(c) else WaitAcquire(c)
  {
    if Val(k, WaiterSem(k.cur)) == 0 {
      SwitchFrame(Enqueue(k, WaiterSem(k.cur), WaitSleep(c)));
    }
  }

  /** Only the receiver's own sema_down consumes the token. */
  lemma SignalStays(k: Kernel, step: Step, c: nat, w: Tid)
    requires Inv(k) && Enabled(k, step) && Signalled(k, c, w)
    ensures var k' := Apply(k, step);
            w in k'.pc && (Signalled(k', c, w) || k'.pc[w] == WaitAcquire(c))
  {
    assert UpTarget(k, step) != Some(WaiterSem(w)) by {
      assert PcOk(k, k.cur);
    }
    assert WaiterSem(w) in k.sems by {
      assert PcOk(k, w);
    }
    if w == k.cur {
      ReceiverMoves(k, step, c);
    } else {
      PcStep(k, step, w);
    }
    ValStep(k, step, WaiterSem(w));
  }

  /** Along any run, a signalled thread keeps its signal, awake, until it has
      left the sema_down of its cond_wait. */
  lemma {:induction false} SignalNeverLost(k: Kernel, steps: seq<Step>, c: nat, w: Tid)
    requires Inv(k) && CanRun(k, steps) && Signalled(k, c, w)
    ensures LeavesWait(k, steps, c, w) ||
            (Signalled(RunFrom(k, steps), c, w) && w in RunFrom(k, steps).status &&
              RunFrom(k, steps).status[w] != Blocked)
    decreases |steps|
  {
    if steps == [] {
      SignalledAwake(k, c, w);
    } else {
      StepKeeps(k, steps[0]);
      SignalStays(k, steps[0], c, w);
      var k' := Apply(k, steps[0]);
      if k'.pc[w] != WaitAcquire(c) {
        SignalNeverLost(k', steps[1..], c, w);
      }
    }
  }

  /** Somewhere along the run W gets past its private semaphore. */
  ghost predicate LeavesWait(k: Kernel, steps: seq<Step>, c: nat, w: Tid)
    requires CanRun(k, steps)
    decreases |steps|
  {
    (w in k.pc && k.pc[w] == WaitAcquire(c)) ||
    (steps != [] && LeavesWait(Apply(k, steps[0]), steps[1..], c, w))
  }

  // ----- conservation of semaphore tokens

  ghost function Ups(k: Kernel, steps: seq<Step>, s: Sem): nat
    requires CanRun(k, steps)
    decreases |steps|
  {
    if steps == [] then 0
    else One(UpTarget(k, steps[0]) == Some(s)) + Ups(Apply(k, steps[0]), steps[1..], s)
  }

  ghost function Downs(k: Kernel, steps: seq<Step>, s: Sem): nat
    requires CanRun(k, steps)
    decreases |steps|
  {
    if steps == [] then 0
    else One(DownTarget(k, steps[0]) == Some(s)) + Downs(Apply(k, steps[0]), steps[1..], s)
  }

  /** The tokens cond_wait throws away when it initialises semaphore S. */
  ghost function Discarded(k: Kernel, steps: seq<Step>, s: Sem): nat
    requires CanRun(k, steps)
    decreases |steps|
  {
    if steps == [] then 0
    else (if Renews(k, steps[0], s) then Val(k, s) else 0) + Discarded(Apply(k, steps[0]), steps[1..], s)
  }

  predicate Renews(k: Kernel, step: Step, s: Sem) {
    step.CallWait? && s == WaiterSem(k.cur)
  }

  /** Initial value plus ups is final value plus completed downs plus what is thrown
      away, which is nothing but for the private semaphores of cond_wait. */
  lemma {:induction false} TokensConserved(k: Kernel, steps: seq<Step>, s: Sem)
    requires CanRun(k, steps) && s in k.sems
    ensures s in RunFrom(k, steps).sems
    ensures k.sems[s].value + Ups(k, steps, s) ==
            RunFrom(k, steps).sems[s].value + Downs(k, steps, s) + Discarded(k, steps, s)
    ensures !s.WaiterSem? ==> Discarded(k, steps, s) == 0
    decreases |steps|
  {
    if steps != [] {
      if !Renews(k, steps[0], s) {
        ValStep(k, steps[0], s);
      }
      TokensConserved(Apply(k, steps[0]), steps[1..], s);
    }
  }

  // ----- bounded waiting on the run queue

  ghost function Ticks(steps: seq<Step>): nat {
    if steps == [] then 0 else One(steps[0].Tick?) + Ticks(steps[1..])
  }

  ghost function SwitchCount(k: Kernel, steps: seq<Step>): nat
    requires CanRun(k, steps)
    decreases |steps|
  {
    if steps == [] then 0
    else One(Switches(k, steps[0])) + SwitchCount(Apply(k, steps[0]), steps[1..])
  }

  /** T runs at some point of the run. */
  ghost predicate Dispatched(k: Kernel, steps: seq<Step>, t: Tid)
    requires CanRun(k, steps)
    decreases |steps|
  {
    k.cur == t || (steps != [] && Dispatched(Apply(k, steps[0]), steps[1..], t))
  }

  /** The thread at position I of the run queue runs no later than the
      (I+1)-th call of schedule. */
  lemma {:induction false} RunsAfterSwitches(k: Kernel, steps: seq<Step>, i: nat)
    requires CanRun(k, steps) && i < |k.ready|
    requires SwitchCount(k, steps) >= i + 1
    ensures Dispatched(k, steps, k.ready[i])
    decreases |steps|, 0
  {
    QueueStep(k, steps[0], i);
    AfterOneSwitch(k, Apply(k, steps[0]), Switches(k, steps[0]), One(steps[0].Tick?), steps[1..], i);
  }

  lemma {:induction false} AfterOneSwitch(k: Kernel, k': Kernel, switched: bool, ticks: nat, rest: seq<Step>, i: nat)
    requires CanRun(k', rest) && i < |k.ready|
    requires if switched then Advanced(k, k', i) else Kept(k, k', i, ticks)
    requires One(switched) + SwitchCount(k', rest) >= i + 1
    ensures Dispatched(k', rest, k.ready[i])
    decreases |rest|, 1
  {
    if !switched {
      RunsAfterSwitches(k', rest, i);
    } else if i > 0 {
      RunsAfterSwitches(k', rest, i - 1);
    }
  }

  /** Not before, either: in a run of any length the thread at position I of the run
      queue has run if and only if schedule was called more than I times. */
  lemma {:induction false} RunsExactlyAfter(k: Kernel, steps: seq<Step>, i: nat)
    requires SchedInv(k) && CanRun(k, steps) && i < |k.ready|
    ensures Dispatched(k, steps, k.ready[i]) <==> SwitchCount(k, steps) > i
    decreases |steps|, 0
  {
    QueuedIsNotRunning(k, i);
    if steps != [] {
      StepKeepsSched(k, steps[0]);
      QueueStep(k, steps[0], i);
      ExactlyNext(k, Apply(k, steps[0]), Switches(k, steps[0]), One(steps[0].Tick?), steps[1..], i);
    }
  }

  lemma {:induction false} ExactlyNext(k: Kernel, k': Kernel, switched: bool, ticks: nat, rest: seq<Step>, i: nat)
    requires SchedInv(k') && CanRun(k', rest) && i < |k.ready|
    requires if switched then Advanced(k, k', i) else Kept(k, k', i, ticks)
    ensures Dispatched(k', rest, k.ready[i]) <==> One(switched) + SwitchCount(k', rest) > i
    decreases |rest|, 1
  {
    if !switched {
      RunsExactlyAfter(k', rest, i);
    } else if i > 0 {
      RunsExactlyAfter(k', rest, i - 1);
    } else {
      Here(k', rest, k.ready[0]);
    }
  }

  lemma QueuedIsNotRunning(k: Kernel, i: nat)
    requires SchedInv(k) && i < |k.ready|
    ensures k.ready[i] != k.cur
  {
    assert OnReadyList(k, k.ready[i]);
  }

  /** The thread at position I of the run queue runs within 4(I+1) timer ticks,
      those already charged to the running thread included. */
  lemma {:induction false} RunsWithinTicks(k: Kernel, steps: seq<Step>, i: nat)
    requires k.ticks < TIME_SLICE && CanRun(k, steps) && i < |k.ready|
    requires k.ticks + Ticks(steps) >= TIME_SLICE * (i + 1)
    ensures Dispatched(k, steps, k.ready[i])
    decreases |steps|, 0
  {
    QueueStep(k, steps[0], i);
    AfterOneTick(k, Apply(k, steps[0]), Switches(k, steps[0]), One(steps[0].Tick?), steps[1..], i);
  }

  lemma {:induction false} AfterOneTick(k: Kernel, k': Kernel, switched: bool, ticks: nat, rest: seq<Step>, i: nat)
    requires CanRun(k', rest) && i < |k.ready|
    requires if switched then Advanced(k, k', i) else Kept(k, k', i, ticks) && k'.ticks < TIME_SLICE
    requires ticks <= 1 && k.ticks < TIME_SLICE
    requires k.ticks + ticks + Ticks(rest) >= TIME_SLICE * (i + 1)
    ensures Dispatched(k', rest, k.ready[i])
    decreases |rest|, 2
  {
    if !switched {
      RunsWithinTicks(k', rest, i);
    } else if i > 0 {
      AfterTickSwitch(k, k', rest, i - 1);
    } else {
      Here(k', rest, k.ready[0]);
    }
  }

  lemma {:induction false} AfterTickSwitch(k: Kernel, k': Kernel, rest: seq<Step>, i: nat)
    requires CanRun(k', rest) && i + 1 < |k.ready| && Advanced(k, k', i + 1) && Ticks(rest) >= TIME_SLICE * (i + 1)
    ensures Dispatched(k', rest, k.ready[i + 1])
    decreases |rest|, 1
  {
    RunsWithinTicks(k', rest, i);
  }

  lemma Here(k: Kernel, steps: seq<Step>, t: Tid)
    requires CanRun(k, steps) && k.cur == t
    ensures Dispatched(k, steps, t)
  {
  }
}
