/** The scheduler invariant of thread.c: one running thread, a run queue that
    holds exactly the READY threads, wait lists that hold exactly the threads
    blocked on them. */
module KernelSched {
  import opened Common
  import opened KernelModel

  ghost predicate OnReadyList(k: Kernel, t: Tid) {
    t in k.status && k.status[t] == Ready && k.idle != Some(t)
  }

  ghost predicate AsleepOn(k: Kernel, t: Tid, s: Sem) {
    t in k.status && t in k.pc && k.status[t] == Blocked && WaitsOn(t, k.pc[t]) == Some(s)
  }

  ghost predicate Threads(k: Kernel) {
    && k.cur in k.status
    && k.status.Keys == k.pc.Keys
  }

  /** ready_list holds exactly the READY threads, idle excepted, once each. */
  ghost predicate ReadyList(k: Kernel) {
    && NoDup(k.ready)
    && (forall t :: t in k.ready <==> OnReadyList(k, t))
  }

  ghost predicate OnlyRunning(k: Kernel) {
    forall t :: t in k.status ==> (k.status[t] == Running <==> t == k.cur)
  }

  ghost predicate NobodyRunning(k: Kernel) {
    forall t :: t in k.status ==> k.status[t] != Running
  }

  /** A wait list holds exactly the threads blocked inside that sema_down. */
  ghost predicate WaitLists(k: Kernel) {
    && (forall s :: s in k.sems ==> NoDup(k.sems[s].waiters))
    && (forall s, t {:trigger AsleepOn(k, t, s)} {:trigger t in k.sems[s].waiters} ::
          s in k.sems ==> (t in k.sems[s].waiters <==> AsleepOn(k, t, s)))
  }

  predicate IdlePc(pc: Pc) {
    pc.IdleStart? || pc.IdleUp? || pc.IdleLoop?
  }

  /** A blocked thread waits on a semaphore, is still being created, or is the
      idle thread; an unfinished idle thread is runnable; a dead thread stands
      outside every primitive, and only the initial thread stays DYING once
      another thread runs. */
  ghost predicate Placed(k: Kernel, t: Tid)
    requires t in k.pc && t in k.status
  {
    var st, pc := k.status[t], k.pc[t];
    && (st == Blocked ==> WaitsOn(t, pc).Some? || pc.Embryo? || pc.IdleLoop?)
    && (WaitsOn(t, pc).Some? ==> WaitsOn(t, pc).value in k.sems)
    && (pc.Embryo? ==> st == Blocked)
    && (IdlePc(pc) <==> t == k.boot)
    && (pc.IdleStart? ==> st == Ready || st == Running)
    && (st == Dying || st == Freed ==> pc == User)
    && (st == Dying ==> t == k.initial || t == k.cur)
  }

  ghost predicate AllPlaced(k: Kernel) {
    forall t :: t in k.pc && t in k.status ==> Placed(k, t)
  }

  /** A thread under construction has one creator, and it is still at work. */
  ghost predicate Embryos(k: Kernel) {
    forall p :: p in k.pc && k.pc[p].Creating? ==>
      k.pc[p].child in k.pc && k.pc[k.pc[p].child] == Embryo(p)
  }

  /** idle_thread is null only until the idle thread has recorded itself. */
  ghost predicate IdleThread(k: Kernel) {
    && k.boot in k.pc
    && k.idle == (if k.pc[k.boot].IdleStart? then None else Some(k.boot))
  }

  ghost predicate Consistent(k: Kernel) {
    && Threads(k) && ReadyList(k) && WaitLists(k) && AllPlaced(k) && Embryos(k) && IdleThread(k)
    && IDLE_STARTED in k.sems
  }

  /** Between steps. */
  ghost predicate SchedInv(k: Kernel) {
    Consistent(k) && OnlyRunning(k) && k.ticks < TIME_SLICE
  }

  /** On entry to schedule: the running thread has just left RUNNING. */
  ghost predicate SwitchPre(k: Kernel) {
    Consistent(k) && NobodyRunning(k)
  }

  /** next_thread_to_run never returns null. */
  lemma SomeoneToRun(k: Kernel)
    requires SwitchPre(k) || (SchedInv(k) && k.pc[k.cur] != IdleStart)
    ensures CanSwitch(k)
  {
    if k.idle.None? {
      assert Placed(k, k.boot);
      assert OnReadyList(k, k.boot);
    }
  }

  /** The thread schedule picks is READY, or the idle thread. */
  lemma Picked(k: Kernel)
    requires Consistent(k) && CanSwitch(k)
    ensures var next := if k.ready == [] then k.idle.value else k.ready[0];
            next in k.status && next in k.pc && (OnReadyList(k, next) || (next == k.boot && k.idle == Some(k.boot)))
  {
    if k.ready != [] {
      assert k.ready[0] in k.ready;
    }
  }

  lemma SwitchReady(k: Kernel)
    requires SwitchPre(k) && CanSwitch(k)
    ensures Threads(Switch(k)) && ReadyList(Switch(k))
  {
    Picked(k);
    var k' := Switch(k);
    if k.ready == [] {
      forall t ensures !OnReadyList(k', t) {
        assert OnReadyList(k, t) ==> t in k.ready;
      }
    } else {
      NoDupTail(k.ready);
      forall t ensures OnReadyList(k', t) <==> OnReadyList(k, t) && t != k'.cur {
      }
    }
  }

  lemma SwitchRunning(k: Kernel)
    requires SwitchPre(k) && CanSwitch(k)
    ensures OnlyRunning(Switch(k))
  {
  }

  lemma SwitchWaitLists(k: Kernel)
    requires SwitchPre(k) && CanSwitch(k)
    ensures WaitLists(Switch(k))
  {
    Picked(k);
    var k' := Switch(k);
    forall s, t ensures AsleepOn(k', t, s) == AsleepOn(k, t, s) {
    }
  }

  lemma SwitchPlaced(k: Kernel)
    requires SwitchPre(k) && CanSwitch(k)
    ensures AllPlaced(Switch(k)) && Embryos(Switch(k)) && IdleThread(Switch(k))
  {
    Picked(k);
    var k' := Switch(k);
    forall t | t in k'.pc && t in k'.status ensures Placed(k', t) {
      assert Placed(k, t);
    }
  }

  lemma SwitchKeeps(k: Kernel)
    requires SwitchPre(k) && CanSwitch(k)
    ensures SchedInv(Switch(k))
  {
    SwitchReady(k);
    SwitchRunning(k);
    SwitchWaitLists(k);
    SwitchPlaced(k);
  }

  // ----- the other building blocks

  /** Only what the scheduler does not look at has changed. */
  ghost predicate SameSched(k: Kernel, k': Kernel) {
    && k'.status == k.status && k'.pc == k.pc && k'.ready == k.ready && k'.cur == k.cur
    && k'.idle == k.idle && k'.boot == k.boot && k'.initial == k.initial
    && k'.sems.Keys >= k.sems.Keys
    && (forall s :: s in k'.sems ==>
          if s in k.sems then k'.sems[s].waiters == k.sems[s].waiters
          else k'.sems[s].waiters == [] && forall t :: !AsleepOn(k, t, s))
  }

  lemma FrameKeeps(k: Kernel, k': Kernel)
    requires SchedInv(k) && SameSched(k, k') && k'.ticks < TIME_SLICE
    ensures SchedInv(k')
  {
    forall t ensures OnReadyList(k', t) == OnReadyList(k, t) {
    }
    forall s, t ensures AsleepOn(k', t, s) == AsleepOn(k, t, s) {
    }
    forall t | t in k'.pc && t in k'.status ensures Placed(k', t) {
      assert Placed(k, t);
    }
  }

  /** A program counter outside sema_down, thread_create and idle. */
  predicate Inert(t: Tid, pc: Pc) {
    WaitsOn(t, pc).None? && !pc.Embryo? && !pc.Creating? && !IdlePc(pc)
  }

  lemma SetPcKeeps(k: Kernel, pc: Pc)
    requires SchedInv(k) && Inert(k.cur, pc) && !IdlePc(k.pc[k.cur])
    ensures SchedInv(SetPc(k, pc))
  {
    var k' := SetPc(k, pc);
    forall t ensures OnReadyList(k', t) == OnReadyList(k, t) {
    }
    forall s, t ensures AsleepOn(k', t, s) == AsleepOn(k, t, s) {
    }
    forall t | t in k'.pc && t in k'.status ensures Placed(k', t) {
      assert Placed(k, t);
    }
    assert Placed(k, k.cur);
  }

  /** thread_unblock's assertion: what sema_up pops is BLOCKED. */
  lemma FrontIsBlocked(k: Kernel, s: Sem)
    requires WaitLists(k) && s in k.sems && k.sems[s].waiters != []
    ensures AsleepOn(k, k.sems[s].waiters[0], s)
  {
    assert k.sems[s].waiters[0] in k.sems[s].waiters;
  }

  /** The semaphore of a new cond_wait call has no waiters. */
  lemma NobodyWaits(k: Kernel)
    requires WaitLists(k) && k.cur in k.status && k.status[k.cur] == Running
    ensures WaiterSem(k.cur) in k.sems ==> k.sems[WaiterSem(k.cur)].waiters == []
  {
    if WaiterSem(k.cur) in k.sems && k.sems[WaiterSem(k.cur)].waiters != [] {
      FrontIsBlocked(k, WaiterSem(k.cur));
    }
  }

  lemma SemaUpReady(k: Kernel, s: Sem)
    requires SchedInv(k) && s in k.sems && k.sems[s].waiters != []
    ensures ReadyList(SemaUp(k, s)) && OnlyRunning(SemaUp(k, s)) && Threads(SemaUp(k, s))
  {
    FrontIsBlocked(k, s);
    var w := k.sems[s].waiters[0];
    var k' := SemaUp(k, s);
    assert Placed(k, w);
    NoDupPush(k.ready, w);
    forall t ensures OnReadyList(k', t) <==> OnReadyList(k, t) || t == w {
    }
  }

  lemma SemaUpWaitLists(k: Kernel, s: Sem)
    requires SchedInv(k) && s in k.sems && k.sems[s].waiters != []
    ensures WaitLists(SemaUp(k, s))
  {
    FrontIsBlocked(k, s);
    var w := k.sems[s].waiters[0];
    var k' := SemaUp(k, s);
    NoDupTail(k.sems[s].waiters);
    forall r, t ensures AsleepOn(k', t, r) == (AsleepOn(k, t, r) && t != w) {
    }
    assert forall r :: r in k'.sems && r != s ==> k'.sems[r] == k.sems[r];
  }

  lemma SemaUpKeeps(k: Kernel, s: Sem)
    requires SchedInv(k) && s in k.sems
    ensures SchedInv(SemaUp(k, s))
  {
    var k' := SemaUp(k, s);
    if k.sems[s].waiters == [] {
      FrameKeeps(k, k');
    } else {
      FrontIsBlocked(k, s);
      SemaUpReady(k, s);
      SemaUpWaitLists(k, s);
      forall t | t in k'.pc && t in k'.status ensures Placed(k', t) {
        assert Placed(k, t);
      }
    }
  }

  lemma EnqueueWaitLists(k: Kernel, s: Sem, waiting: Pc)
    requires SchedInv(k) && s in k.sems && WaitsOn(k.cur, waiting) == Some(s)
    ensures WaitLists(Enqueue(k, s, waiting))
  {
    var k' := Enqueue(k, s, waiting);
    assert !AsleepOn(k, k.cur, s);
    NoDupPush(k.sems[s].waiters, k.cur);
    forall r, t ensures AsleepOn(k', t, r) == (AsleepOn(k, t, r) || (t == k.cur && r == s)) {
    }
  }

  lemma EnqueueReady(k: Kernel, s: Sem, waiting: Pc)
    requires SchedInv(k) && s in k.sems && WaitsOn(k.cur, waiting) == Some(s) && !IdlePc(k.pc[k.cur])
    ensures SwitchPre(Enqueue(k, s, waiting))
  {
    var k' := Enqueue(k, s, waiting);
    EnqueueWaitLists(k, s, waiting);
    forall t ensures OnReadyList(k', t) == OnReadyList(k, t) {
    }
    forall t | t in k'.pc && t in k'.status ensures Placed(k', t) {
      assert Placed(k, t);
    }
    assert Placed(k, k.cur);
  }

  lemma RequeuePlaced(k: Kernel)
    requires Threads(k) && AllPlaced(k) && k.status[k.cur] == Running
    ensures AllPlaced(Requeue(k))
  {
    var k' := Requeue(k);
    assert k' == k.(status := k.status[k.cur := Ready], ready := k'.ready);
    forall t | t in k'.pc && t in k'.status ensures Placed(k', t) {
      assert Placed(k, t);
    }
  }

  lemma RequeuePre(k: Kernel)
    requires Consistent(k) && OnlyRunning(k) && WaitsOn(k.cur, k.pc[k.cur]).None?
    ensures SwitchPre(Requeue(k))
  {
    var k' := Requeue(k);
    if k.idle != Some(k.cur) {
      NoDupPush(k.ready, k.cur);
    }
    forall t ensures OnReadyList(k', t) == (OnReadyList(k, t) || (t == k.cur && k.idle != Some(t))) {
    }
    forall s, t ensures AsleepOn(k', t, s) == AsleepOn(k, t, s) {
    }
    RequeuePlaced(k);
  }

  /** thread_exit and idle leave RUNNING without joining any list. */
  lemma LeavePre(k: Kernel, st: Status)
    requires SchedInv(k)
    requires (st == Dying && k.pc[k.cur] == User) || (st == Blocked && k.pc[k.cur] == IdleLoop)
    ensures SwitchPre(SetStatus(k, st))
  {
    var k' := SetStatus(k, st);
    forall t ensures OnReadyList(k', t) == OnReadyList(k, t) {
    }
    forall s, t ensures AsleepOn(k', t, s) == AsleepOn(k, t, s) {
    }
    forall t | t in k'.pc && t in k'.status ensures Placed(k', t) {
      assert Placed(k, t);
    }
  }

  lemma IdleRecordKeeps(k: Kernel)
    requires SchedInv(k) && k.pc[k.cur] == IdleStart
    ensures SchedInv(SetPc(k.(idle := Some(k.cur)), IdleUp))
  {
    var k' := SetPc(k.(idle := Some(k.cur)), IdleUp);
    assert Placed(k, k.cur);
    forall t ensures OnReadyList(k', t) == OnReadyList(k, t) {
    }
    forall s, t ensures AsleepOn(k', t, s) == AsleepOn(k, t, s) {
    }
    forall t | t in k'.pc && t in k'.status ensures Placed(k', t) {
      assert Placed(k, t);
    }
  }

  lemma IdleLoopKeeps(k: Kernel)
    requires SchedInv(k) && k.pc[k.cur] == IdleUp
    ensures SchedInv(SetPc(k, IdleLoop))
  {
    var k' := SetPc(k, IdleLoop);
    assert Placed(k, k.cur);
    forall t ensures OnReadyList(k', t) == OnReadyList(k, t) {
    }
    forall s, t ensures AsleepOn(k', t, s) == AsleepOn(k, t, s) {
    }
    forall t | t in k'.pc && t in k'.status ensures Placed(k', t) {
      assert Placed(k, t);
    }
  }

  lemma SpawnLists(k: Kernel, child: Tid)
    requires SchedInv(k) && k.pc[k.cur] == User && (child in k.status ==> k.status[child] == Freed)
    ensures Threads(Spawn(k, child)) && ReadyList(Spawn(k, child)) && WaitLists(Spawn(k, child))
  {
    var k' := Spawn(k, child);
    forall t ensures OnReadyList(k', t) == OnReadyList(k, t) {
    }
    forall s, t ensures AsleepOn(k', t, s) == AsleepOn(k, t, s) {
    }
  }

  lemma SpawnKeeps(k: Kernel, child: Tid)
    requires SchedInv(k) && k.pc[k.cur] == User && (child in k.status ==> k.status[child] == Freed)
    ensures SchedInv(Spawn(k, child))
  {
    SpawnLists(k, child);
    SpawnPlaced(k, child);
    assert Placed(k, k.boot);
    assert child in k.pc ==> Placed(k, child);
  }

  lemma SpawnPlaced(k: Kernel, child: Tid)
    requires Threads(k) && AllPlaced(k) && k.boot in k.pc
    requires k.pc[k.cur] == User && k.status[k.cur] == Running && (child in k.status ==> k.status[child] == Freed)
    ensures AllPlaced(Spawn(k, child))
  {
    var k' := Spawn(k, child);
    assert Placed(k, k.cur) && Placed(k, k.boot);
    forall t | t in k'.pc && t in k'.status ensures Placed(k', t) {
      assert t in k.pc ==> Placed(k, t);
    }
  }

  /** thread_create calls thread_unblock on a BLOCKED thread. */
  lemma ChildIsBlocked(k: Kernel)
    requires SchedInv(k) && k.pc[k.cur].Creating?
    ensures var child := k.pc[k.cur].child;
            child in k.status && k.status[child] == Blocked && k.pc[child] == Embryo(k.cur) && child != k.cur
  {
    assert Placed(k, k.pc[k.cur].child);
  }

  lemma AdmitLists(k: Kernel)
    requires SchedInv(k) && k.pc[k.cur].Creating?
    ensures var k' := Admit(k, k.pc[k.cur].child); Threads(k') && ReadyList(k') && WaitLists(k')
  {
    ChildIsBlocked(k);
    var child := k.pc[k.cur].child;
    var k' := Admit(k, child);
    assert Placed(k, child);
    NoDupPush(k.ready, child);
    forall t ensures OnReadyList(k', t) <==> OnReadyList(k, t) || t == child {
    }
    forall s, t ensures AsleepOn(k', t, s) == AsleepOn(k, t, s) {
    }
  }

  lemma AdmitKeeps(k: Kernel)
    requires SchedInv(k) && k.pc[k.cur].Creating?
    ensures SchedInv(Admit(k, k.pc[k.cur].child))
  {
    ChildIsBlocked(k);
    AdmitLists(k);
    AdmitPlaced(k);
    assert Placed(k, k.cur) && Placed(k, k.boot);
  }

  lemma AdmitPlaced(k: Kernel)
    requires Threads(k) && AllPlaced(k) && k.boot in k.pc && k.pc[k.cur].Creating? && k.status[k.cur] == Running
    requires var t := k.pc[k.cur].child; t in k.pc && k.pc[t].Embryo? && t != k.cur
    ensures AllPlaced(Admit(k, k.pc[k.cur].child))
  {
    var k' := Admit(k, k.pc[k.cur].child);
    assert Placed(k, k.cur);
    forall t | t in k'.pc && t in k'.status ensures Placed(k', t) {
      assert Placed(k, t);
    }
  }

  lemma PassKeeps(k: Kernel, s: Sem, pc: Pc)
    requires SchedInv(k) && s in k.sems && k.sems[s].value > 0
    requires Inert(k.cur, pc) && !IdlePc(k.pc[k.cur])
    ensures SchedInv(SetPc(Decrement(k, s), pc))
  {
    var k1 := Decrement(k, s);
    assert SchedInv(k1) by { FrameKeeps(k, k1); }
    SetPcKeeps(k1, pc);
  }

  lemma SleepKeeps(k: Kernel, s: Sem, waiting: Pc)
    requires SchedInv(k) && s in k.sems && WaitsOn(k.cur, waiting) == Some(s) && !IdlePc(k.pc[k.cur])
    ensures CanSwitch(k) && SchedInv(Switch(Enqueue(k, s, waiting)))
  {
    SomeoneToRun(k);
    EnqueueReady(k, s, waiting);
    SwitchKeeps(Enqueue(k, s, waiting));
  }

  lemma DownKeeps(k: Kernel, s: Sem, waiting: Pc)
    requires SchedInv(k) && CanDown(k, s) && WaitsOn(k.cur, waiting) == Some(s) && !IdlePc(k.pc[k.cur])
    ensures SchedInv(Down(k, s, waiting))
  {
    if k.sems[s].value == 0 {
      SleepKeeps(k, s, waiting);
    } else {
      PassKeeps(k, s, AfterDown(waiting));
    }
  }

  lemma YieldKeeps(k: Kernel)
    requires Consistent(k) && OnlyRunning(k) && IntrOn(k)
    ensures SchedInv(YieldNow(k))
  {
    RequeuePre(k);
    SwitchKeeps(Requeue(k));
  }

  lemma TickConsistent(k: Kernel)
    requires SchedInv(k)
    ensures var k1 := k.(ticks := k.ticks + 1); Consistent(k1) && OnlyRunning(k1)
  {
    var k1 := k.(ticks := k.ticks + 1);
    assert forall t :: OnReadyList(k1, t) == OnReadyList(k, t);
    assert forall s, t :: AsleepOn(k1, t, s) == AsleepOn(k, t, s);
    assert forall t :: t in k1.pc && t in k1.status ==> Placed(k1, t) == Placed(k, t);
  }

  lemma TickKeeps(k: Kernel)
    requires SchedInv(k) && IntrOn(k)
    ensures SchedInv(TickNow(k))
  {
    TickConsistent(k);
    if k.ticks + 1 >= TIME_SLICE {
      YieldKeeps(k.(ticks := k.ticks + 1));
    }
  }

  /** Nobody sleeps on the private semaphore of a thread that is awake. */
  lemma PrivateSemEmpty(k: Kernel)
    requires SchedInv(k)
    ensures forall t :: !AsleepOn(k, t, WaiterSem(k.cur))
    ensures WaiterSem(k.cur) in k.sems ==> k.sems[WaiterSem(k.cur)].waiters == []
  {
    if WaiterSem(k.cur) in k.sems && k.sems[WaiterSem(k.cur)].waiters != [] {
      FrontIsBlocked(k, WaiterSem(k.cur));
    }
  }

  lemma ThreadStepSched(k: Kernel, step: Step)
    requires SchedInv(k) && Enabled(k, step)
    requires ThreadStep(step)
    ensures SchedInv(Apply(k, step))
  {
    match step
    case Tick => TickKeeps(k);
    case Yield => YieldKeeps(k);
    case CreateBegin(child) => SpawnKeeps(k, child);
    case CreateEnd => AdmitKeeps(k);
    case Exit =>
      LeavePre(k, Dying);
      SwitchKeeps(SetStatus(k, Dying));
    case IdleStep => IdleStepSched(k);
  }

  lemma IdleStepSched(k: Kernel)
    requires SchedInv(k) && Enabled(k, IdleStep)
    ensures SchedInv(IdleNow(k))
  {
    match k.pc[k.cur]
    case IdleStart => IdleRecordKeeps(k);
    case IdleUp =>
      IdleLoopKeeps(k);
      SemaUpKeeps(SetPc(k, IdleLoop), IDLE_STARTED);
    case IdleLoop =>
      LeavePre(k, Blocked);
      SwitchKeeps(SetStatus(k, Blocked));
  }

  lemma SemaStepSched(k: Kernel, step: Step)
    requires SchedInv(k) && Enabled(k, step)
    requires SemaStep(step)
    ensures SchedInv(Apply(k, step))
  {
    match step
    case HandlerUp(id) => SemaUpKeeps(k, UserSem(id));
    case CallUp(id) => SemaUpKeeps(k, UserSem(id));
    case TryDown(id) =>
      if k.sems[UserSem(id)].value > 0 {
        FrameKeeps(k, Decrement(k, UserSem(id)));
      }
    case Resume => DownKeeps(k, WaitsOn(k.cur, k.pc[k.cur]).value, k.pc[k.cur]);
    case CallDown(id) => DownKeeps(k, UserSem(id), SemaWait(id));
  }

  lemma UpKeeps(k: Kernel, pc: Pc, s: Sem)
    requires SchedInv(k) && Inert(k.cur, pc) && !IdlePc(k.pc[k.cur]) && s in k.sems
    ensures SchedInv(SemaUp(SetPc(k, pc), s))
  {
    SetPcKeeps(k, pc);
    SemaUpKeeps(SetPc(k, pc), s);
  }

  lemma GiveSched(k: Kernel)
    requires SchedInv(k) && Enabled(k, FinishRelease)
    ensures SchedInv(Apply(k, FinishRelease))
  {
    var pc := k.pc[k.cur];
    UpKeeps(k, if pc.caller.Plain? then User else WaitDown(pc.caller.cond), LockSem(pc.lock));
  }

  lemma LockStepSched(k: Kernel, step: Step)
    requires SchedInv(k) && Enabled(k, step)
    requires LockStep(step)
    ensures SchedInv(Apply(k, step))
  {
    if step.CallAcquire? {
      DownKeeps(k, LockSem(step.lock), LockWait(step.lock, Plain));
    } else if step.CallTryAcquire? {
      if k.sems[LockSem(step.lock)].value > 0 {
        PassKeeps(k, LockSem(step.lock), LockGot(step.lock, Plain));
      }
    } else if step.FinishRelease? {
      GiveSched(k);
    } else {
      HolderSched(k, step);
    }
  }

  lemma HolderSched(k: Kernel, step: Step)
    requires SchedInv(k) && Enabled(k, step) && (step.SetHolder? || step.CallRelease?)
    ensures SchedInv(Apply(k, step))
  {
    if step.SetHolder? {
      HolderKeeps(k, k.pc[k.cur].lock, Some(k.cur), User);
    } else {
      HolderKeeps(k, step.lock, None, LockGive(step.lock, Plain));
    }
  }

  lemma HolderKeeps(k: Kernel, l: nat, h: Option<Tid>, pc: Pc)
    requires SchedInv(k) && Inert(k.cur, pc) && !IdlePc(k.pc[k.cur])
    ensures SchedInv(SetPc(k.(holder := k.holder[l := h]), pc))
  {
    FrameKeeps(k, k.(holder := k.holder[l := h]));
    SetPcKeeps(k.(holder := k.holder[l := h]), pc);
  }

  lemma CondsKeeps(k: Kernel, c: nat, q: seq<Tid>, pc: Pc)
    requires SchedInv(k) && Inert(k.cur, pc) && !IdlePc(k.pc[k.cur])
    ensures SchedInv(SetPc(k.(conds := k.conds[c := q]), pc))
  {
    FrameKeeps(k, k.(conds := k.conds[c := q]));
    SetPcKeeps(k.(conds := k.conds[c := q]), pc);
  }

  lemma WaitCallSched(k: Kernel, c: nat)
    requires SchedInv(k) && k.pc[k.cur] == User
    ensures SchedInv(SetPc(k.(sems := k.sems[WaiterSem(k.cur) := Sema(0, [])]), WaitPush(c)))
  {
    PrivateSemEmpty(k);
    var k1 := k.(sems := k.sems[WaiterSem(k.cur) := Sema(0, [])]);
    FrameKeeps(k, k1);
    SetPcKeeps(k1, WaitPush(c));
  }

  lemma WaitStepSched(k: Kernel)
    requires SchedInv(k) && Enabled(k, WaitStep)
    ensures SchedInv(WaitNow(k))
  {
    match k.pc[k.cur]
    case WaitPush(c) => CondsKeeps(k, c, k.conds[c] + [k.cur], WaitRelease(c));
    case WaitRelease(c) => HolderKeeps(k, k.lockOf[c], None, LockGive(k.lockOf[c], InWait(c)));
    case WaitDown(c) => DownKeeps(k, WaiterSem(k.cur), WaitSleep(c));
    case WaitAcquire(c) => DownKeeps(k, LockSem(k.lockOf[c]), LockWait(k.lockOf[c], InWait(c)));
  }

  lemma PopSched(k: Kernel, c: nat, all: bool)
    requires SchedInv(k) && c in k.conds && !IdlePc(k.pc[k.cur])
    ensures SchedInv(PopWaiter(k, c, all))
  {
    if k.conds[c] == [] {
      SetPcKeeps(k, User);
    } else {
      CondsKeeps(k, c, k.conds[c][1..], SignalUp(c, k.conds[c][0], all));
    }
  }

  lemma SignalSched(k: Kernel)
    requires SchedInv(k) && Enabled(k, SignalStep)
    ensures SchedInv(Apply(k, SignalStep))
  {
    var pc := k.pc[k.cur];
    if pc.SignalUp? {
      UpKeeps(k, if pc.all then Broadcast(pc.cond) else User, WaiterSem(pc.waiter));
    } else {
      PopSched(k, pc.cond, true);
    }
  }

  lemma CondStepSched(k: Kernel, step: Step)
    requires SchedInv(k) && Enabled(k, step)
    requires CondStep(step)
    ensures SchedInv(Apply(k, step))
  {
    match step
    case CallWait(c) => WaitCallSched(k, c);
    case WaitStep => WaitStepSched(k);
    case CallSignal(c) => PopSched(k, c, false);
    case CallBroadcast(c) => SetPcKeeps(k, Broadcast(c));
    case SignalStep => SignalSched(k);
  }

  /** Every step of every thread and every interrupt keeps the invariant. */
  lemma StepKeepsSched(k: Kernel, step: Step)
    requires SchedInv(k) && Enabled(k, step)
    ensures SchedInv(Apply(k, step))
  {
    if ThreadStep(step) {
      ThreadStepSched(k, step);
    } else if SemaStep(step) {
      SemaStepSched(k, step);
    } else if LockStep(step) {
      LockStepSched(k, step);
    } else {
      CondStepSched(k, step);
    }
  }
}
