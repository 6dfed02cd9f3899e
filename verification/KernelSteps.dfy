/** Every step keeps the monitor invariant: each one is a monitor move seen
    through the scheduler, which monitors cannot observe. */
module KernelSteps {
  import opened Common
  import opened KernelModel
  import opened KernelSched
  import opened KernelMonitor
  import opened KernelMoves

  lemma SwitchUnseen(k: Kernel)
    requires k.cur in k.status && CanSwitch(k)
    ensures SameMonitors(k, Switch(k))
  {
  }

  /** Falling asleep is, for monitors, only a change of program counter. */
  lemma SleepUnseen(k: Kernel, s: Sem, waiting: Pc)
    requires k.cur in k.status && s in k.sems && CanSwitch(k)
    requires MonitorInv(SetPc(k, waiting))
    ensures MonitorInv(Switch(Enqueue(k, s, waiting)))
  {
    NeutralKeeps(SetPc(k, waiting), Switch(Enqueue(k, s, waiting)));
  }

  lemma UpUnseen(k: Kernel, s: Sem)
    requires s in k.sems && MonitorInv(SetVal(k, s, Val(k, s) + 1))
    ensures MonitorInv(SemaUp(k, s))
  {
    NeutralKeeps(SetVal(k, s, Val(k, s) + 1), SemaUp(k, s));
  }

  lemma LockDown(k: Kernel, l: nat, w: Caller)
    requires MonitorInv(k) && k.cur in k.pc && k.cur in k.status && Light(k.pc[k.cur])
    requires l in k.holder && k.holder[l] != Some(k.cur) && CallerOk(k, l, w) && CanDown(k, LockSem(l))
    ensures MonitorInv(Down(k, LockSem(l), LockWait(l, w)))
  {
    if Val(k, LockSem(l)) == 0 {
      LightMove(k, LockWait(l, w));
      SleepUnseen(k, LockSem(l), LockWait(l, w));
    } else {
      GotMove(k, l, w);
    }
  }

  lemma PrivateDown(k: Kernel, c: nat)
    requires MonitorInv(k) && k.cur in k.pc && k.cur in k.status && CanDown(k, WaiterSem(k.cur))
    requires k.pc[k.cur] == WaitDown(c) || k.pc[k.cur] == WaitSleep(c)
    ensures MonitorInv(Down(k, WaiterSem(k.cur), WaitSleep(c)))
  {
    if Val(k, WaiterSem(k.cur)) == 0 {
      SleepMove(k, c);
      SleepUnseen(k, WaiterSem(k.cur), WaitSleep(c));
    } else {
      SignalledMove(k, c);
    }
  }

  lemma UserDown(k: Kernel, id: nat)
    requires MonitorInv(k) && k.cur in k.pc && k.cur in k.status && CanDown(k, UserSem(id)) && Neutral(k.pc[k.cur])
    ensures MonitorInv(Down(k, UserSem(id), SemaWait(id)))
  {
    NeutralKeeps(k, Down(k, UserSem(id), SemaWait(id)));
  }

  lemma UserUp(k: Kernel, id: nat)
    requires MonitorInv(k) && UserSem(id) in k.sems
    ensures MonitorInv(SemaUp(k, UserSem(id)))
  {
    NeutralKeeps(k, SemaUp(k, UserSem(id)));
  }

  lemma UserTryDown(k: Kernel, id: nat)
    requires MonitorInv(k) && UserSem(id) in k.sems && k.sems[UserSem(id)].value > 0
    ensures MonitorInv(Decrement(k, UserSem(id)))
  {
    NeutralKeeps(k, Decrement(k, UserSem(id)));
  }

  lemma YieldUnseen(k: Kernel)
    requires k.cur in k.status
    ensures SameMonitors(k, YieldNow(k))
  {
    var k1 := Requeue(k);
    assert k1.pc == k.pc && k1.sems == k.sems && k1.holder == k.holder && k1.conds == k.conds && k1.lockOf == k.lockOf;
    SwitchUnseen(k1);
  }

  lemma TickUnseen(k: Kernel)
    requires k.cur in k.status
    ensures SameMonitors(k, TickNow(k))
  {
    YieldUnseen(k.(ticks := k.ticks + 1));
  }

  lemma SpawnUnseen(k: Kernel, child: Tid)
    requires SchedInv(k) && k.pc[k.cur] == User && (child in k.status ==> k.status[child] == Freed)
    ensures SameMonitors(k, Spawn(k, child))
  {
    assert child in k.pc ==> Placed(k, child);
  }

  lemma AdmitUnseen(k: Kernel)
    requires SchedInv(k) && k.pc[k.cur].Creating?
    ensures SameMonitors(k, Admit(k, k.pc[k.cur].child))
  {
    ChildIsBlocked(k);
  }

  lemma IdleUnseen(k: Kernel)
    requires Enabled(k, IdleStep)
    ensures SameMonitors(k, IdleNow(k))
  {
  }

  /** Nothing thread.c does is visible to a monitor. */
  lemma ThreadUnseen(k: Kernel, step: Step)
    requires SchedInv(k) && Enabled(k, step) && ThreadStep(step)
    ensures SameMonitors(k, Apply(k, step))
  {
    match step
    case Tick => TickUnseen(k);
    case Yield => YieldUnseen(k);
    case CreateBegin(child) => SpawnUnseen(k, child);
    case CreateEnd => AdmitUnseen(k);
    case Exit => SwitchUnseen(SetStatus(k, Dying));
    case IdleStep => IdleUnseen(k);
  }

  lemma ThreadStepMonitor(k: Kernel, step: Step)
    requires SchedInv(k) && MonitorInv(k) && Enabled(k, step) && ThreadStep(step)
    ensures MonitorInv(Apply(k, step))
  {
    ThreadUnseen(k, step);
    NeutralKeeps(k, Apply(k, step));
  }

  lemma SemaStepMonitor(k: Kernel, step: Step)
    requires MonitorInv(k) && Enabled(k, step) && SemaStep(step)
    ensures MonitorInv(Apply(k, step))
  {
    match step
    case HandlerUp(id) => UserUp(k, id);
    case CallUp(id) => UserUp(k, id);
    case TryDown(id) =>
      if k.sems[UserSem(id)].value > 0 {
        UserTryDown(k, id);
      }
    case CallDown(id) => UserDown(k, id);
    case Resume => ResumeMonitor(k);
  }

  lemma ResumeMonitor(k: Kernel)
    requires MonitorInv(k) && Enabled(k, Resume)
    ensures MonitorInv(Down(k, WaitsOn(k.cur, k.pc[k.cur]).value, k.pc[k.cur]))
  {
    assert PcOk(k, k.cur);
    match k.pc[k.cur]
    case SemaWait(id) => UserDown(k, id);
    case LockWait(l, w) => LockDown(k, l, w);
    case WaitSleep(c) => PrivateDown(k, c);
  }

  lemma LockStepMonitor(k: Kernel, step: Step)
    requires MonitorInv(k) && Enabled(k, step) && LockStep(step)
    ensures MonitorInv(Apply(k, step))
  {
    match step
    case CallAcquire(l) => LockDown(k, l, Plain);
    case CallTryAcquire(l) =>
      if Val(k, LockSem(l)) > 0 {
        GotMove(k, l, Plain);
      }
    case SetHolder => HolderMove(k);
    case CallRelease(l) => ReleaseMove(k, l, Plain);
    case FinishRelease => GiveStep(k);
  }

  lemma GiveStep(k: Kernel)
    requires MonitorInv(k) && Enabled(k, FinishRelease)
    ensures MonitorInv(Apply(k, FinishRelease))
  {
    var pc := k.pc[k.cur];
    GiveMove(k);
    UpUnseen(SetPc(k, if pc.caller.Plain? then User else WaitDown(pc.caller.cond)), LockSem(pc.lock));
  }

  lemma SignalStepMonitor(k: Kernel)
    requires MonitorInv(k) && Enabled(k, SignalStep)
    ensures MonitorInv(Apply(k, SignalStep))
  {
    var pc := k.pc[k.cur];
    assert PcOk(k, k.cur);
    if pc.SignalUp? {
      SignalMove(k);
      UpUnseen(SetPc(k, if pc.all then Broadcast(pc.cond) else User), WaiterSem(pc.waiter));
    } else {
      PopMove(k, pc.cond, true);
    }
  }

  lemma WaitStepMonitor(k: Kernel)
    requires MonitorInv(k) && Enabled(k, WaitStep)
    ensures MonitorInv(WaitNow(k))
  {
    assert PcOk(k, k.cur);
    match k.pc[k.cur]
    case WaitPush(c) => PushMove(k, c);
    case WaitRelease(c) => ReleaseMove(k, k.lockOf[c], InWait(c));
    case WaitDown(c) => PrivateDown(k, c);
    case WaitAcquire(c) => LockDown(k, k.lockOf[c], InWait(c));
  }

  lemma CondStepMonitor(k: Kernel, step: Step)
    requires MonitorInv(k) && Enabled(k, step) && CondStep(step)
    ensures MonitorInv(Apply(k, step))
  {
    match step
    case CallWait(c) => WaitCallMove(k, c);
    case WaitStep => WaitStepMonitor(k);
    case CallSignal(c) => PopMove(k, c, false);
    case CallBroadcast(c) => LightMove(k, Broadcast(c));
    case SignalStep => SignalStepMonitor(k);
  }

  lemma StepKeepsMonitor(k: Kernel, step: Step)
    requires SchedInv(k) && MonitorInv(k) && Enabled(k, step)
    ensures MonitorInv(Apply(k, step))
  {
    if ThreadStep(step) {
      ThreadStepMonitor(k, step);
    } else if SemaStep(step) {
      SemaStepMonitor(k, step);
    } else if LockStep(step) {
      LockStepMonitor(k, step);
    } else {
      CondStepMonitor(k, step);
    }
  }
}
