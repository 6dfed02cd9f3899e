/** What one step does to semaphore values, program counters and the run queue. */
module KernelEvents {
  import opened Common
  import opened KernelModel
  import opened KernelSched
  import opened KernelMonitor

  /** The semaphore whose sema_down or sema_try_down completes in this step. */
  function DownTarget(k: Kernel, step: Step): Option<Sem>
    requires Enabled(k, step)
  {
    var pc := k.pc[k.cur];
    var s := match step
      case TryDown(id) => Some(UserSem(id))
      case Resume => WaitsOn(k.cur, pc)
      case CallDown(id) => Some(UserSem(id))
      case CallAcquire(l) => Some(LockSem(l))
      case CallTryAcquire(l) => Some(LockSem(l))
      case WaitStep =>
        if pc.WaitDown? then Some(WaiterSem(k.cur))
        else if pc.WaitAcquire? then Some(LockSem(k.lockOf[pc.cond])) else None
      case _ => None;
    if s.Some? && Val(k, s.value) > 0 then s else None
  }

  /** The semaphore that sema_up increments in this step. */
  function UpTarget(k: Kernel, step: Step): Option<Sem>
    requires Enabled(k, step)
  {
    var pc := k.pc[k.cur];
    match step
    case HandlerUp(id) => Some(UserSem(id))
    case CallUp(id) => Some(UserSem(id))
    case FinishRelease => Some(LockSem(pc.lock))
    case SignalStep => if pc.SignalUp? then Some(WaiterSem(pc.waiter)) else None
    case IdleStep => if pc.IdleUp? then Some(IDLE_STARTED) else None
    case _ => None
  }

  function One(b: bool): nat {
    if b then 1 else 0
  }

  lemma ValUp(k: Kernel, r: Sem, s: Sem)
    requires r in k.sems && s in k.sems
    ensures s in SemaUp(k, r).sems && Val(SemaUp(k, r), s) == Val(k, s) + One(s == r)
  {
    var waiters := if k.sems[r].waiters == [] then [] else k.sems[r].waiters[1..];
    assert SemaUp(k, r).sems == k.sems[r := Sema(k.sems[r].value + 1, waiters)];
  }

  lemma ValDown(k: Kernel, r: Sem, waiting: Pc, s: Sem)
    requires k.cur in k.status && CanDown(k, r) && s in k.sems
    ensures s in Down(k, r, waiting).sems
    ensures Val(Down(k, r, waiting), s) + One(s == r && Val(k, r) > 0) == Val(k, s)
  {
  }

  lemma ValThread(k: Kernel, step: Step, s: Sem)
    requires Enabled(k, step) && s in k.sems && ThreadStep(step)
    ensures s in Apply(k, step).sems
    ensures Val(Apply(k, step), s) == Val(k, s) + One(UpTarget(k, step) == Some(s))
  {
    if step.IdleStep? && k.pc[k.cur].IdleUp? {
      ValUp(SetPc(k, IdleLoop), IDLE_STARTED, s);
    }
  }

  lemma ValSema(k: Kernel, step: Step, s: Sem)
    requires Enabled(k, step) && s in k.sems && SemaStep(step)
    ensures s in Apply(k, step).sems
    ensures Val(Apply(k, step), s) + One(DownTarget(k, step) == Some(s)) ==
            Val(k, s) + One(UpTarget(k, step) == Some(s))
  {
    match step
    case HandlerUp(id) => ValUp(k, UserSem(id), s);
    case CallUp(id) => ValUp(k, UserSem(id), s);
    case TryDown(id) =>
    case Resume => ValDown(k, WaitsOn(k.cur, k.pc[k.cur]).value, k.pc[k.cur], s);
    case CallDown(id) => ValDown(k, UserSem(id), SemaWait(id), s);
  }

  lemma ValLock(k: Kernel, step: Step, s: Sem)
    requires Enabled(k, step) && s in k.sems && LockStep(step)
    ensures s in Apply(k, step).sems
    ensures Val(Apply(k, step), s) + One(DownTarget(k, step) == Some(s)) ==
            Val(k, s) + One(UpTarget(k, step) == Some(s))
  {
    match step
    case CallAcquire(l) => ValDown(k, LockSem(l), LockWait(l, Plain), s);
    case FinishRelease =>
      var pc := k.pc[k.cur];
      ValUp(SetPc(k, if pc.caller.Plain? then User else WaitDown(pc.caller.cond)), LockSem(pc.lock), s);
    case _ =>
  }

  lemma ValCond(k: Kernel, step: Step, s: Sem)
    requires Enabled(k, step) && s in k.sems && CondStep(step)
    requires !(step.CallWait? && s == WaiterSem(k.cur))
    ensures s in Apply(k, step).sems
    ensures Val(Apply(k, step), s) + One(DownTarget(k, step) == Some(s)) ==
            Val(k, s) + One(UpTarget(k, step) == Some(s))
  {
    var pc := k.pc[k.cur];
    match step
    case WaitStep =>
      if pc.WaitDown? {
        ValDown(k, WaiterSem(k.cur), WaitSleep(pc.cond), s);
      } else if pc.WaitAcquire? {
        ValDown(k, LockSem(k.lockOf[pc.cond]), LockWait(k.lockOf[pc.cond], InWait(pc.cond)), s);
      }
    case SignalStep =>
      if pc.SignalUp? {
        ValUp(SetPc(k, if pc.all then Broadcast(pc.cond) else User), WaiterSem(pc.waiter), s);
      }
    case _ =>
  }

  /** Tokens are neither made nor lost, except when cond_wait initialises its
      private semaphore. */
  lemma ValStep(k: Kernel, step: Step, s: Sem)
    requires Enabled(k, step) && s in k.sems
    requires !(step.CallWait? && s == WaiterSem(k.cur))
    ensures s in Apply(k, step).sems
    ensures Val(Apply(k, step), s) + One(DownTarget(k, step) == Some(s)) ==
            Val(k, s) + One(UpTarget(k, step) == Some(s))
  {
    if ThreadStep(step) {
      ValThread(k, step, s);
    } else if SemaStep(step) {
      ValSema(k, step, s);
    } else if LockStep(step) {
      ValLock(k, step, s);
    } else {
      ValCond(k, step, s);
    }
  }

  /** A step moves the program counter of the running thread, and of a thread
      being created; of nobody else. */
  lemma PcStep(k: Kernel, step: Step, t: Tid)
    requires SchedInv(k) && Enabled(k, step) && t in k.pc && t != k.cur && !k.pc[t].User? && !k.pc[t].Embryo?
    ensures t in Apply(k, step).pc && Apply(k, step).pc[t] == k.pc[t]
  {
    if step.CreateBegin? {
      assert Placed(k, t);
    } else if step.CreateEnd? {
      ChildIsBlocked(k);
    } else if ThreadStep(step) {
      PcThread(k, step, t);
    } else if SemaStep(step) {
      PcSema(k, step, t);
    } else if LockStep(step) {
      PcLock(k, step, t);
    } else {
      PcCond(k, step, t);
    }
  }

  lemma PcDown(k: Kernel, s: Sem, waiting: Pc, t: Tid)
    requires k.cur in k.status && CanDown(k, s) && t in k.pc && t != k.cur
    ensures t in Down(k, s, waiting).pc && Down(k, s, waiting).pc[t] == k.pc[t]
  {
  }

  /** Switching threads moves no program counter and no condition's list. */
  lemma SwitchFrame(k: Kernel)
    requires k.cur in k.status && CanSwitch(k)
    ensures Switch(k).pc == k.pc && Switch(k).conds == k.conds
  {
  }

  lemma YieldPc(k: Kernel)
    requires k.cur in k.status
    ensures YieldNow(k).pc == k.pc && YieldNow(k).conds == k.conds
  {
    SwitchFrame(Requeue(k));
  }

  lemma LeavePc(k: Kernel, st: Status)
    requires k.cur in k.status && CanSwitch(k)
    ensures Switch(SetStatus(k, st)).pc == k.pc && Switch(SetStatus(k, st)).conds == k.conds
  {
    SwitchFrame(SetStatus(k, st));
  }

  lemma TickPc(k: Kernel)
    requires k.cur in k.status
    ensures TickNow(k).pc == k.pc && TickNow(k).conds == k.conds
  {
    if k.ticks + 1 >= TIME_SLICE {
      YieldPc(k.(ticks := k.ticks + 1));
    }
  }

  lemma PcThread(k: Kernel, step: Step, t: Tid)
    requires Enabled(k, step) && t in k.pc && t != k.cur
    requires ThreadStep(step) && !step.CreateBegin? && !step.CreateEnd?
    ensures t in Apply(k, step).pc && Apply(k, step).pc[t] == k.pc[t]
  {
    if step.Tick? {
      TickPc(k);
    } else if step.Yield? {
      YieldPc(k);
    } else if step.Exit? {
      LeavePc(k, Dying);
    } else if k.pc[k.cur].IdleLoop? {
      LeavePc(k, Blocked);
    }
  }

  lemma PcSema(k: Kernel, step: Step, t: Tid)
    requires Enabled(k, step) && t in k.pc && t != k.cur && SemaStep(step)
    ensures t in Apply(k, step).pc && Apply(k, step).pc[t] == k.pc[t]
  {
    match step
    case Resume => PcDown(k, WaitsOn(k.cur, k.pc[k.cur]).value, k.pc[k.cur], t);
    case CallDown(id) => PcDown(k, UserSem(id), SemaWait(id), t);
    case _ =>
  }

  lemma PcLock(k: Kernel, step: Step, t: Tid)
    requires Enabled(k, step) && t in k.pc && t != k.cur && LockStep(step)
    ensures t in Apply(k, step).pc && Apply(k, step).pc[t] == k.pc[t]
  {
    if step.CallAcquire? {
      PcDown(k, LockSem(step.lock), LockWait(step.lock, Plain), t);
    }
  }

  lemma PcCond(k: Kernel, step: Step, t: Tid)
    requires Enabled(k, step) && t in k.pc && t != k.cur && CondStep(step)
    ensures t in Apply(k, step).pc && Apply(k, step).pc[t] == k.pc[t]
  {
    var pc := k.pc[k.cur];
    match step
    case WaitStep =>
      if pc.WaitDown? {
        PcDown(k, WaiterSem(k.cur), WaitSleep(pc.cond), t);
      } else if pc.WaitAcquire? {
        PcDown(k, LockSem(k.lockOf[pc.cond]), LockWait(k.lockOf[pc.cond], InWait(pc.cond)), t);
      }
    case _ =>
  }

  // ----- the run queue

  /** Does this step call schedule? */
  predicate Switches(k: Kernel, step: Step)
    requires Enabled(k, step)
  {
    var pc := k.pc[k.cur];
    match step
    case Tick => k.ticks + 1 >= TIME_SLICE
    case Yield => true
    case Exit => true
    case IdleStep => pc.IdleLoop?
    case Resume => k.sems[WaitsOn(k.cur, pc).value].value == 0
    case CallDown(id) => k.sems[UserSem(id)].value == 0
    case CallAcquire(l) => k.sems[LockSem(l)].value == 0
    case WaitStep =>
      (pc.WaitDown? && k.sems[WaiterSem(k.cur)].value == 0) ||
      (pc.WaitAcquire? && k.sems[LockSem(k.lockOf[pc.cond])].value == 0)
    case _ => false
  }

  /** What schedule does to the thread at position I of the run queue. */
  ghost predicate Advanced(k: Kernel, k': Kernel, i: nat)
    requires i < |k.ready|
  {
    k'.ticks == 0 &&
    if i == 0 then k'.cur == k.ready[0] else i - 1 < |k'.ready| && k'.ready[i - 1] == k.ready[i]
  }

  ghost predicate Kept(k: Kernel, k': Kernel, i: nat, ticks: nat)
    requires i < |k.ready|
  {
    k'.ticks == k.ticks + ticks && i < |k'.ready| && k'.ready[i] == k.ready[i]
  }

  lemma QueueDown(k: Kernel, s: Sem, waiting: Pc, i: nat)
    requires k.cur in k.status && CanDown(k, s) && i < |k.ready|
    ensures var k' := Down(k, s, waiting);
            if k.sems[s].value == 0 then Advanced(k, k', i) else Kept(k, k', i, 0)
  {
  }

  lemma QueueUp(k: Kernel, s: Sem, i: nat)
    requires s in k.sems && i < |k.ready|
    ensures Kept(k, SemaUp(k, s), i, 0)
  {
  }

  lemma QueueSwitch(k: Kernel, i: nat)
    requires k.cur in k.status && i < |k.ready|
    ensures Advanced(k, Switch(k), i)
  {
  }

  lemma QueueYield(k: Kernel, i: nat)
    requires k.cur in k.status && i < |k.ready|
    ensures Advanced(k, YieldNow(k), i)
  {
    QueueSwitch(Requeue(k), i);
  }

  lemma QueueIdle(k: Kernel, i: nat)
    requires Enabled(k, IdleStep) && i < |k.ready|
    ensures if k.pc[k.cur].IdleLoop? then Advanced(k, IdleNow(k), i) else Kept(k, IdleNow(k), i, 0)
  {
    match k.pc[k.cur]
    case IdleStart =>
    case IdleUp => QueueUp(SetPc(k, IdleLoop), IDLE_STARTED, i);
    case IdleLoop => QueueSwitch(SetStatus(k, Blocked), i);
  }

  lemma QueueTick(k: Kernel, i: nat)
    requires k.cur in k.status && i < |k.ready|
    ensures if k.ticks + 1 >= TIME_SLICE then Advanced(k, TickNow(k), i) else Kept(k, TickNow(k), i, 1)
  {
    QueueYield(k.(ticks := k.ticks + 1), i);
  }

  lemma QueueThread(k: Kernel, step: Step, i: nat)
    requires Enabled(k, step) && i < |k.ready| && ThreadStep(step)
    ensures var k' := Apply(k, step);
            if Switches(k, step) then Advanced(k, k', i) else Kept(k, k', i, One(step.Tick?))
  {
    if step.Tick? {
      QueueTick(k, i);
    } else if step.Yield? {
      QueueYield(k, i);
    } else if step.Exit? {
      QueueSwitch(SetStatus(k, Dying), i);
    } else if step.IdleStep? {
      QueueIdle(k, i);
    }
  }

  lemma QueueSema(k: Kernel, step: Step, i: nat)
    requires Enabled(k, step) && i < |k.ready| && SemaStep(step)
    ensures var k' := Apply(k, step);
            if Switches(k, step) then Advanced(k, k', i) else Kept(k, k', i, 0)
  {
    match step
    case HandlerUp(id) => QueueUp(k, UserSem(id), i);
    case CallUp(id) => QueueUp(k, UserSem(id), i);
    case TryDown(id) =>
    case Resume => QueueDown(k, WaitsOn(k.cur, k.pc[k.cur]).value, k.pc[k.cur], i);
    case CallDown(id) => QueueDown(k, UserSem(id), SemaWait(id), i);
  }

  lemma QueueLock(k: Kernel, step: Step, i: nat)
    requires Enabled(k, step) && i < |k.ready| && LockStep(step)
    ensures var k' := Apply(k, step);
            if Switches(k, step) then Advanced(k, k', i) else Kept(k, k', i, 0)
  {
    var pc := k.pc[k.cur];
    match step
    case CallAcquire(l) => QueueDown(k, LockSem(l), LockWait(l, Plain), i);
    case FinishRelease =>
      QueueUp(SetPc(k, if pc.caller.Plain? then User else WaitDown(pc.caller.cond)), LockSem(pc.lock), i);
    case _ =>
  }

  lemma QueueCond(k: Kernel, step: Step, i: nat)
    requires Enabled(k, step) && i < |k.ready| && CondStep(step)
    ensures var k' := Apply(k, step);
            if Switches(k, step) then Advanced(k, k', i) else Kept(k, k', i, 0)
  {
    var pc := k.pc[k.cur];
    match step
    case WaitStep =>
      if pc.WaitDown? {
        QueueDown(k, WaiterSem(k.cur), WaitSleep(pc.cond), i);
      } else if pc.WaitAcquire? {
        QueueDown(k, LockSem(k.lockOf[pc.cond]), LockWait(k.lockOf[pc.cond], InWait(pc.cond)), i);
      }
    case SignalStep =>
      if pc.SignalUp? {
        QueueUp(SetPc(k, if pc.all then Broadcast(pc.cond) else User), WaiterSem(pc.waiter), i);
      }
    case _ =>
  }

  /** The run queue is first in, first out. */
  lemma QueueStep(k: Kernel, step: Step, i: nat)
    requires Enabled(k, step) && i < |k.ready|
    ensures var k' := Apply(k, step);
            if Switches(k, step) then Advanced(k, k', i) else Kept(k, k', i, One(step.Tick?))
  {
    if ThreadStep(step) {
      QueueThread(k, step, i);
    } else if SemaStep(step) {
      QueueSema(k, step, i);
    } else if LockStep(step) {
      QueueLock(k, step, i);
    } else {
      QueueCond(k, step, i);
    }
  }
}
