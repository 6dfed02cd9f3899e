/** No lost wakeup: while threads sleep on a semaphore, its value never exceeds
    the number of threads that sema_up has popped and that have not yet tested
    the value again.  A third thread may take such a token first. */
module KernelWake {
  import opened Common
  import opened KernelModel
  import opened KernelSched

  /** In the loop of sema_down on S, but no longer on its wait list. */
  ghost predicate IsWoken(k: Kernel, t: Tid, s: Sem) {
    t in k.pc && t in k.status && WaitsOn(t, k.pc[t]) == Some(s) && k.status[t] != Blocked
  }

  ghost function Woken(k: Kernel, s: Sem): set<Tid> {
    set t | t in k.pc && IsWoken(k, t, s)
  }

  ghost predicate NoLostWakeup(k: Kernel, s: Sem) {
    s in k.sems && k.sems[s].waiters != [] ==> k.sems[s].value <= |Woken(k, s)|
  }

  ghost predicate WakeInv(k: Kernel) {
    forall s :: NoLostWakeup(k, s)
  }

  lemma WakeFrame(k: Kernel, k': Kernel)
    requires WakeInv(k)
    requires forall s :: s in k'.sems && k'.sems[s].waiters != [] ==>
               s in k.sems && k.sems[s].waiters != [] && k'.sems[s].value <= k.sems[s].value
    requires forall s, t :: IsWoken(k, t, s) ==> IsWoken(k', t, s)
    ensures WakeInv(k')
  {
    forall s ensures NoLostWakeup(k', s) {
      assert NoLostWakeup(k, s);
      SubsetSize(Woken(k, s), Woken(k', s));
    }
  }

  lemma SwitchWoken(k: Kernel)
    requires SwitchPre(k) && CanSwitch(k)
    ensures forall s, t :: IsWoken(k, t, s) ==> IsWoken(Switch(k), t, s)
  {
    Picked(k);
  }

  lemma SwitchWake(k: Kernel)
    requires SwitchPre(k) && CanSwitch(k) && WakeInv(k)
    ensures WakeInv(Switch(k))
  {
    SwitchWoken(k);
    WakeFrame(k, Switch(k));
  }

  /** The running thread moves on without touching a semaphore. */
  lemma SetPcWake(k: Kernel, pc: Pc)
    requires SchedInv(k) && WakeInv(k) && WaitsOn(k.cur, k.pc[k.cur]).None?
    ensures WakeInv(SetPc(k, pc))
  {
    WakeFrame(k, SetPc(k, pc));
  }

  /** sema_up that pops a waiter adds one token and one woken thread. */
  lemma PopWoken(k: Kernel, s: Sem, r: Sem)
    requires SchedInv(k) && NoLostWakeup(k, r) && s in k.sems && k.sems[s].waiters != []
    ensures NoLostWakeup(SemaUp(k, s), r)
  {
    FrontIsBlocked(k, s);
    var k' := SemaUp(k, s);
    var w := k.sems[s].waiters[0];
    assert forall t :: t in k.pc ==> (IsWoken(k', t, r) <==> IsWoken(k, t, r) || (t == w && r == s));
    if r == s {
      assert Woken(k', s) == Woken(k, s) + {w};
    } else {
      assert Woken(k', r) == Woken(k, r);
    }
  }

  lemma SemaUpWake(k: Kernel, s: Sem)
    requires SchedInv(k) && WakeInv(k) && s in k.sems
    ensures WakeInv(SemaUp(k, s))
  {
    if k.sems[s].waiters == [] {
      WakeFrame(k, SemaUp(k, s));
    } else {
      forall r ensures NoLostWakeup(SemaUp(k, s), r) {
        PopWoken(k, s, r);
      }
    }
  }

  /** A thread takes a token: a woken one gives up its claim with it. */
  lemma PassWake(k: Kernel, s: Sem, pc: Pc)
    requires SchedInv(k) && WakeInv(k) && s in k.sems && k.sems[s].value > 0
    requires WaitsOn(k.cur, k.pc[k.cur]).None? || WaitsOn(k.cur, k.pc[k.cur]) == Some(s)
    requires WaitsOn(k.cur, pc).None?
    ensures WakeInv(SetPc(Decrement(k, s), pc))
  {
    var k' := SetPc(Decrement(k, s), pc);
    forall r ensures NoLostWakeup(k', r) {
      assert NoLostWakeup(k, r);
      if r == s {
        assert Woken(k', s) == Woken(k, s) - {k.cur};
        SubsetSize(Woken(k', s), Woken(k, s));
      } else {
        assert forall t :: IsWoken(k, t, r) ==> IsWoken(k', t, r);
        SubsetSize(Woken(k, r), Woken(k', r));
      }
    }
  }

  lemma EnqueueWake(k: Kernel, s: Sem, waiting: Pc)
    requires SchedInv(k) && WakeInv(k) && s in k.sems && k.sems[s].value == 0
    requires WaitsOn(k.cur, k.pc[k.cur]).None? || WaitsOn(k.cur, k.pc[k.cur]) == Some(s)
    ensures WakeInv(Enqueue(k, s, waiting))
  {
    var k' := Enqueue(k, s, waiting);
    forall r ensures NoLostWakeup(k', r) {
      assert NoLostWakeup(k, r);
      if r != s {
        assert forall t :: IsWoken(k, t, r) ==> IsWoken(k', t, r);
        SubsetSize(Woken(k, r), Woken(k', r));
      }
    }
  }

  lemma DownWake(k: Kernel, s: Sem, waiting: Pc)
    requires SchedInv(k) && WakeInv(k) && CanDown(k, s)
    requires WaitsOn(k.cur, waiting) == Some(s) && !IdlePc(k.pc[k.cur])
    requires WaitsOn(k.cur, k.pc[k.cur]).None? || WaitsOn(k.cur, k.pc[k.cur]) == Some(s)
    ensures WakeInv(Down(k, s, waiting))
  {
    if k.sems[s].value == 0 {
      EnqueueWake(k, s, waiting);
      EnqueueReady(k, s, waiting);
      SwitchWake(Enqueue(k, s, waiting));
    } else {
      PassWake(k, s, AfterDown(waiting));
    }
  }

  lemma UpWake(k: Kernel, pc: Pc, s: Sem)
    requires SchedInv(k) && WakeInv(k) && WaitsOn(k.cur, k.pc[k.cur]).None? && s in k.sems
    requires (Inert(k.cur, pc) && !IdlePc(k.pc[k.cur])) || (pc == IdleLoop && k.pc[k.cur] == IdleUp)
    ensures WakeInv(SemaUp(SetPc(k, pc), s))
  {
    if pc == IdleLoop {
      IdleLoopKeeps(k);
    } else {
      SetPcKeeps(k, pc);
    }
    SetPcWake(k, pc);
    SemaUpWake(SetPc(k, pc), s);
  }

  lemma YieldWake(k: Kernel)
    requires Consistent(k) && OnlyRunning(k) && IntrOn(k) && WakeInv(k)
    ensures WakeInv(YieldNow(k))
  {
    RequeuePre(k);
    WakeFrame(k, Requeue(k));
    SwitchWake(Requeue(k));
  }

  lemma LeaveWake(k: Kernel, st: Status)
    requires SchedInv(k) && WakeInv(k) && CanSwitch(k)
    requires (st == Dying && k.pc[k.cur] == User) || (st == Blocked && k.pc[k.cur] == IdleLoop)
    ensures WakeInv(Switch(SetStatus(k, st)))
  {
    LeavePre(k, st);
    WakeFrame(k, SetStatus(k, st));
    SwitchWake(SetStatus(k, st));
  }

  lemma TickWake(k: Kernel)
    requires SchedInv(k) && WakeInv(k) && IntrOn(k)
    ensures WakeInv(TickNow(k))
  {
    var k1 := k.(ticks := k.ticks + 1);
    WakeFrame(k, k1);
    if k1.ticks >= TIME_SLICE {
      TickConsistent(k);
      YieldWake(k1);
    }
  }

  lemma ThreadStepWake(k: Kernel, step: Step)
    requires SchedInv(k) && WakeInv(k) && Enabled(k, step) && ThreadStep(step)
    ensures WakeInv(Apply(k, step))
  {
    match step
    case Tick => TickWake(k);
    case Yield => YieldWake(k);
    case CreateBegin(child) => SpawnWake(k, child);
    case CreateEnd => AdmitWake(k);
    case Exit => LeaveWake(k, Dying);
    case IdleStep =>
      match k.pc[k.cur] {
        case IdleStart => WakeFrame(k, Apply(k, step));
        case IdleUp => UpWake(k, IdleLoop, IDLE_STARTED);
        case IdleLoop => LeaveWake(k, Blocked);
      }
  }

  lemma SpawnWake(k: Kernel, child: Tid)
    requires SchedInv(k) && WakeInv(k) && k.pc[k.cur] == User && (child in k.status ==> k.status[child] == Freed)
    ensures WakeInv(Spawn(k, child))
  {
    assert child in k.status ==> Placed(k, child);
    WakeFrame(k, Spawn(k, child));
  }

  lemma AdmitWake(k: Kernel)
    requires SchedInv(k) && WakeInv(k) && k.pc[k.cur].Creating?
    ensures WakeInv(Admit(k, k.pc[k.cur].child))
  {
    ChildIsBlocked(k);
    WakeFrame(k, Admit(k, k.pc[k.cur].child));
  }

  lemma SemaStepWake(k: Kernel, step: Step)
    requires SchedInv(k) && WakeInv(k) && Enabled(k, step) && SemaStep(step)
    ensures WakeInv(Apply(k, step))
  {
    match step
    case HandlerUp(id) => SemaUpWake(k, UserSem(id));
    case CallUp(id) => SemaUpWake(k, UserSem(id));
    case TryDown(id) =>
      if k.sems[UserSem(id)].value > 0 {
        WakeFrame(k, Decrement(k, UserSem(id)));
      }
    case Resume => DownWake(k, WaitsOn(k.cur, k.pc[k.cur]).value, k.pc[k.cur]);
    case CallDown(id) => DownWake(k, UserSem(id), SemaWait(id));
  }

  lemma GiveWake(k: Kernel)
    requires SchedInv(k) && WakeInv(k) && Enabled(k, FinishRelease)
    ensures WakeInv(Apply(k, FinishRelease))
  {
    var pc := k.pc[k.cur];
    UpWake(k, if pc.caller.Plain? then User else WaitDown(pc.caller.cond), LockSem(pc.lock));
  }

  lemma HolderWake(k: Kernel, l: nat, h: Option<Tid>, pc: Pc)
    requires SchedInv(k) && WakeInv(k) && WaitsOn(k.cur, k.pc[k.cur]).None?
    ensures WakeInv(SetPc(k.(holder := k.holder[l := h]), pc))
  {
    WakeFrame(k, SetPc(k.(holder := k.holder[l := h]), pc));
  }

  lemma LockStepWake(k: Kernel, step: Step)
    requires SchedInv(k) && WakeInv(k) && Enabled(k, step) && LockStep(step)
    ensures WakeInv(Apply(k, step))
  {
    if step.CallAcquire? {
      DownWake(k, LockSem(step.lock), LockWait(step.lock, Plain));
    } else if step.CallTryAcquire? {
      if k.sems[LockSem(step.lock)].value > 0 {
        PassWake(k, LockSem(step.lock), LockGot(step.lock, Plain));
      }
    } else if step.SetHolder? {
      HolderWake(k, k.pc[k.cur].lock, Some(k.cur), User);
    } else if step.CallRelease? {
      HolderWake(k, step.lock, None, LockGive(step.lock, Plain));
    } else {
      GiveWake(k);
    }
  }

  lemma WaitStepWake(k: Kernel)
    requires SchedInv(k) && WakeInv(k) && Enabled(k, WaitStep)
    ensures WakeInv(WaitNow(k))
  {
    match k.pc[k.cur]
    case WaitPush(c) => WakeFrame(k, WaitNow(k));
    case WaitRelease(c) => WakeFrame(k, WaitNow(k));
    case WaitDown(c) => DownWake(k, WaiterSem(k.cur), WaitSleep(c));
    case WaitAcquire(c) => DownWake(k, LockSem(k.lockOf[c]), LockWait(k.lockOf[c], InWait(c)));
  }

  lemma PopWake(k: Kernel, c: nat, all: bool)
    requires SchedInv(k) && WakeInv(k) && c in k.conds && WaitsOn(k.cur, k.pc[k.cur]).None?
    ensures WakeInv(PopWaiter(k, c, all))
  {
    WakeFrame(k, PopWaiter(k, c, all));
  }

  lemma SignalWake(k: Kernel)
    requires SchedInv(k) && WakeInv(k) && Enabled(k, SignalStep)
    ensures WakeInv(Apply(k, SignalStep))
  {
    var pc := k.pc[k.cur];
    if pc.SignalUp? {
      UpWake(k, if pc.all then Broadcast(pc.cond) else User, WaiterSem(pc.waiter));
    } else {
      PopWake(k, pc.cond, true);
    }
  }

  lemma CallWaitWake(k: Kernel, c: nat)
    requires SchedInv(k) && WakeInv(k) && k.pc[k.cur] == User
    ensures WakeInv(SetPc(k.(sems := k.sems[WaiterSem(k.cur) := Sema(0, [])]), WaitPush(c)))
  {
    WakeFrame(k, SetPc(k.(sems := k.sems[WaiterSem(k.cur) := Sema(0, [])]), WaitPush(c)));
  }

  lemma CondStepWake(k: Kernel, step: Step)
    requires SchedInv(k) && WakeInv(k) && Enabled(k, step) && CondStep(step)
    ensures WakeInv(Apply(k, step))
  {
    match step
    case CallWait(c) => CallWaitWake(k, c);
    case WaitStep => WaitStepWake(k);
    case CallSignal(c) => PopWake(k, c, false);
    case CallBroadcast(c) => SetPcWake(k, Broadcast(c));
    case SignalStep => SignalWake(k);
  }

  lemma StepKeepsWake(k: Kernel, step: Step)
    requires SchedInv(k) && WakeInv(k) && Enabled(k, step)
    ensures WakeInv(Apply(k, step))
  {
    if ThreadStep(step) {
      ThreadStepWake(k, step);
    } else if SemaStep(step) {
      SemaStepWake(k, step);
    } else if LockStep(step) {
      LockStepWake(k, step);
    } else {
      CondStepWake(k, step);
    }
  }
}
