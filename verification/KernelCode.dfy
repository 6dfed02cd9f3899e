/** The interrupts-off regions of thread.c, synch.c and intr_handler as code over
    the kernel's variables, with the run queue and the wait lists as linked lists
    of the threads' only list_elem.  Every step of KernelModel is such a region,
    and the invariant of its runs is what makes the sharing safe. */
module KernelCode {
  import opened Common
  import opened KernelModel
  import opened KernelSched
  import opened KernelQueues
  import opened KernelRuns

  /** The semaphores, with values V and lists C. */
  ghost function SemsOf(v: map<Sem, nat>, c: map<Queue, seq<Tid>>): map<Sem, Sema> {
    map s | s in v :: Sema(v[s], if WaitList(s) in c then c[WaitList(s)] else [])
  }

  ghost function RunQueueOf(c: map<Queue, seq<Tid>>): seq<Tid> {
    if RunQueue in c then c[RunQueue] else []
  }

  /** There is a run queue and a wait list for each semaphore. */
  ghost predicate Complete(v: map<Sem, nat>, c: map<Queue, seq<Tid>>) {
    RunQueue in c && (forall s :: WaitList(s) in c <==> s in v)
  }

  lemma RunQueueChange(v: map<Sem, nat>, c: map<Queue, seq<Tid>>, r: seq<Tid>)
    requires Complete(v, c)
    ensures Complete(v, c[RunQueue := r]) && SemsOf(v, c[RunQueue := r]) == SemsOf(v, c) &&
            RunQueueOf(c[RunQueue := r]) == r
  {
  }

  lemma SemaChange(v: map<Sem, nat>, c: map<Queue, seq<Tid>>, s: Sem, n: nat, w: seq<Tid>)
    requires Complete(v, c)
    ensures var v', c' := v[s := n], c[WaitList(s) := w];
            Complete(v', c') && SemsOf(v', c') == SemsOf(v, c)[s := Sema(n, w)] && RunQueueOf(c') == RunQueueOf(c)
  {
  }

  /** The elem of a thread is free to be queued when the thread is neither READY
      nor BLOCKED in a sema_down: what allows one elem for two kinds of list. */
  lemma ElemIsFree(k: Kernel, v: map<Sem, nat>, c: map<Queue, seq<Tid>>, t: Tid)
    requires SchedInv(k) && Complete(v, c) && k.ready == RunQueueOf(c) && k.sems == SemsOf(v, c)
    requires t in k.status && t in k.pc && k.status[t] != Ready &&
             !(k.status[t] == Blocked && WaitsOn(t, k.pc[t]).Some?)
    ensures OnNone(c, t)
  {
    assert t !in k.ready by {
      assert !OnReadyList(k, t);
    }
    forall q | q in c ensures t !in c[q] {
      if q.WaitList? {
        assert q.sem in k.sems && k.sems[q.sem].waiters == c[q];
        assert !AsleepOn(k, t, q.sem);
      }
    }
  }

  /** Lists for the semaphores IDS, all empty, and a run queue with BOOT on it. */
  method FirstQueues(initial: Tid, boot: Tid, ids: seq<Sem>) returns (q: Queues)
    ensures q.Valid() && fresh(q) && fresh(q.Repr) && q.elem.Keys == {initial, boot}
    ensures RunQueue in q.contents && q.contents[RunQueue] == [boot]
    ensures forall s :: WaitList(s) in q.contents <==> s in ids
    ensures forall s :: WaitList(s) in q.contents ==> q.contents[WaitList(s)] == []
  {
    q := new Queues();
    q.AddQueue(RunQueue);
    q.AddThread(initial);
    q.AddThread(boot);
    q.PushBack(RunQueue, boot);
    AddLists(q, ids);
  }

  method AddLists(q: Queues, ids: seq<Sem>)
    requires q.Valid() && forall s :: WaitList(s) !in q.contents
    modifies q
    ensures q.Valid() && q.Repr >= old(q.Repr) && fresh(q.Repr - old(q.Repr)) && q.elem == old(q.elem)
    ensures (RunQueue in old(q.contents) ==>
              RunQueue in q.contents && q.contents[RunQueue] == old(q.contents)[RunQueue])
    ensures forall s :: WaitList(s) in q.contents <==> s in ids
    ensures forall s :: WaitList(s) in q.contents ==> q.contents[WaitList(s)] == []
  {
    var i := 0;
    while i < |ids|
      invariant i <= |ids| && q.Valid() && q.Repr >= old(q.Repr) && fresh(q.Repr - old(q.Repr)) && q.elem == old(q.elem)
      invariant RunQueue in old(q.contents) ==>
                  RunQueue in q.contents && q.contents[RunQueue] == old(q.contents)[RunQueue]
      invariant forall s :: WaitList(s) in q.contents <==> s in ids[..i]
      invariant forall s :: WaitList(s) in q.contents ==> q.contents[WaitList(s)] == []
    {
      q.AddQueue(WaitList(ids[i]));
      i := i + 1;
    }
    assert ids[..i] == ids;
  }

  class Machine {
    const queues: Queues
    var status: map<Tid, Status>
    var pc: map<Tid, Pc>
    var cur: Tid
    var idle: Option<Tid>
    var ticks: nat
    var value: map<Sem, nat>
    var holder: map<nat, Option<Tid>>
    var conds: map<nat, seq<Tid>>
    var lockOf: map<nat, nat>
    var initial: Tid
    var boot: Tid
    var inExternalIntr: bool
    var yieldOnReturn: bool

    ghost function State(): Kernel
      reads this, queues
    {
      Kernel(status, pc, RunQueueOf(queues.contents), cur, idle, ticks, SemsOf(value, queues.contents),
             holder, conds, lockOf, initial, boot)
    }

    /** The lists are linked as they should be, and every thread has its elem. */
    ghost predicate Linked()
      reads this, queues, queues.Repr
    {
      this !in queues.Repr && queues.Valid() && Complete(value, queues.contents) && status.Keys <= queues.elem.Keys
    }

    /** thread_init and thread_start up to the creation of the idle thread BOOT;
        semaphores IDS have values V, locks and conditions are new. */
    constructor (initial: Tid, boot: Tid, ids: seq<Sem>, v: map<Sem, nat>, locks: set<nat>, lockOf: map<nat, nat>)
      requires initial != boot && IDLE_STARTED in ids && forall s :: s in ids <==> s in v
      requires (forall s :: s in ids ==> !s.WaiterSem?) && forall c :: c in lockOf ==> lockOf[c] in locks
      requires forall l :: l in locks ==> LockSem(l) in v && v[LockSem(l)] == 1
      ensures Linked() && fresh(queues) && fresh(queues.Repr) && Init(State())
    {
      var q := FirstQueues(initial, boot, ids);
      queues := q;
      status, pc := map[initial := Running, boot := Ready], map[initial := User, boot := IdleStart];
      cur, idle, ticks, value := initial, None, 0, v;
      holder, conds := map l | l in locks :: None, map c | c in lockOf :: [];
      this.lockOf, this.initial, this.boot := lockOf, initial, boot;
      inExternalIntr, yieldOnReturn := false, false;
    }

    // ----- thread.c

    method NextThreadToRun() returns (next: Tid)
      requires Linked() && CanSwitch(State())
      modifies queues`contents, queues.Repr
      ensures Linked() && queues.Repr == old(queues.Repr)
      ensures var k := old(State()); State() == k.(ready := if k.ready == [] then [] else k.ready[1..])
      ensures next == if old(State()).ready == [] then idle.value else old(State()).ready[0]
    {
      var none := queues.IsEmpty(RunQueue);
      if none {
        return idle.value;
      }
      RunQueueChange(value, queues.contents, queues.contents[RunQueue][1..]);
      next := queues.PopFront(RunQueue);
    }

    method ThreadScheduleTail(prev: Option<Tid>)
      requires Linked() && cur in status && (prev.Some? ==> prev.value in status && prev.value != cur)
      modifies this`status, this`ticks
      ensures Linked() && ticks == 0
      ensures status == (if prev.Some? && old(status)[prev.value] == Dying && prev.value != initial
                         then old(status)[prev.value := Freed] else old(status))[cur := Running]
    {
      status := status[cur := Running];
      ticks := 0;
      if prev.Some? && status[prev.value] == Dying && prev.value != initial {
        status := status[prev.value := Freed];
      }
    }

    method Schedule()
      requires Linked() && cur in status && status[cur] != Running && CanSwitch(State()) && Queued(State())
      modifies this`status, this`ticks, this`cur, queues`contents, queues.Repr
      ensures Linked() && queues.Repr == old(queues.Repr) && State() == Switch(old(State()))
    {
      var prev: Option<Tid> := None;
      var next := NextThreadToRun();
      if cur != next {
        prev := Some(cur);
        cur := next;
      }
      ThreadScheduleTail(prev);
    }

    method ThreadBlock()
      requires Linked() && cur in status && CanSwitch(State()) && Queued(State()) && !inExternalIntr
      modifies this`status, this`ticks, this`cur, queues`contents, queues.Repr
      ensures Linked() && queues.Repr == old(queues.Repr) && State() == Switch(SetStatus(old(State()), Blocked))
    {
      status := status[cur := Blocked];
      Schedule();
    }

    /** thread_unblock: the elem must not be on a list already. */
    method ThreadUnblock(t: Tid)
      requires Linked() && t in status && status[t] == Blocked && OnNone(queues.contents, t)
      modifies this`status, queues`contents, queues.Repr
      ensures Linked() && queues.Repr == old(queues.Repr) && State() == Unblock(old(State()), t)
    {
      RunQueueChange(value, queues.contents, queues.contents[RunQueue] + [t]);
      queues.PushBack(RunQueue, t);
      status := status[t := Ready];
    }

    method ThreadYield()
      requires Linked() && cur in status && Queued(State()) && !inExternalIntr && OnNone(queues.contents, cur)
      modifies this`status, this`ticks, this`cur, queues`contents, queues.Repr
      ensures Linked() && queues.Repr == old(queues.Repr) && State() == YieldNow(old(State()))
    {
      if idle != Some(cur) {
        RunQueueChange(value, queues.contents, queues.contents[RunQueue] + [cur]);
        queues.PushBack(RunQueue, cur);
      }
      status := status[cur := Ready];
      assert State() == Requeue(old(State()));
      Schedule();
    }

    method ThreadExit()
      requires Linked() && cur in status && CanSwitch(State()) && Queued(State()) && !inExternalIntr
      modifies this`status, this`ticks, this`cur, queues`contents, queues.Repr
      ensures Linked() && queues.Repr == old(queues.Repr) && State() == Switch(SetStatus(old(State()), Dying))
    {
      status := status[cur := Dying];
      Schedule();
    }

    method ThreadTick()
      requires inExternalIntr
      modifies this`ticks, this`yieldOnReturn
      ensures ticks == old(ticks) + 1
      ensures yieldOnReturn == (old(yieldOnReturn) || ticks >= TIME_SLICE)
    {
      ticks := ticks + 1;
      if ticks >= TIME_SLICE {
        yieldOnReturn := true;
      }
    }

    /** intr_handler around the timer's handler: the thread is to yield if its slice
        is over. */
    method HandleTimer()
      requires Linked() && !inExternalIntr
      modifies this`ticks, this`inExternalIntr, this`yieldOnReturn
      ensures Linked() && State() == old(State()).(ticks := old(ticks) + 1)
      ensures !inExternalIntr && (yieldOnReturn <==> ticks >= TIME_SLICE)
    {
      inExternalIntr := true;
      yieldOnReturn := false;
      ThreadTick();
      inExternalIntr := false;
    }

    /** intr_handler for the timer interrupt: the flags are clear again on
        return, and the interrupted thread has yielded if its slice was over. */
    method TimerInterrupt()
      requires Linked() && cur in status && Queued(State()) && !inExternalIntr && OnNone(queues.contents, cur)
      modifies this`status, this`ticks, this`cur, this`inExternalIntr, this`yieldOnReturn, queues`contents, queues.Repr
      ensures Linked() && queues.Repr == old(queues.Repr) && State() == TickNow(old(State())) && !inExternalIntr
    {
      HandleTimer();
      YieldIfDue();
    }

    /** The end of intr_handler. */
    method YieldIfDue()
      requires Linked() && cur in status && Queued(State()) && !inExternalIntr && OnNone(queues.contents, cur)
      modifies this`status, this`ticks, this`cur, queues`contents, queues.Repr
      ensures Linked() && queues.Repr == old(queues.Repr)
      ensures State() == if yieldOnReturn then YieldNow(old(State())) else old(State())
    {
      if yieldOnReturn {
        ThreadYield();
      }
    }

    // ----- synch.c

    method SemaTryDown(s: Sem) returns (success: bool)
      requires Linked() && s in value
      modifies this`value
      ensures Linked() && (success <==> old(value)[s] > 0)
      ensures State() == if success then Decrement(old(State()), s) else old(State())
    {
      if value[s] == 0 {
        return false;
      }
      SemaChange(value, queues.contents, s, value[s] - 1, queues.contents[WaitList(s)]);
      assert queues.contents[WaitList(s) := queues.contents[WaitList(s)]] == queues.contents;
      value := value[s := value[s] - 1];
      success := true;
    }

    /** list_pop_front of a wait list. */
    method TakeWaiter(s: Sem) returns (front: Tid)
      requires Linked() && s in value && State().sems[s].waiters != []
      modifies queues`contents, queues.Repr
      ensures Linked() && queues.Repr == old(queues.Repr) && OnNone(queues.contents, front)
      ensures front == old(State()).sems[s].waiters[0] && State() == FrontTaken(old(State()), s)
    {
      SemaChange(value, queues.contents, s, value[s], queues.contents[WaitList(s)][1..]);
      assert value[s := value[s]] == value;
      front := queues.PopFront(WaitList(s));
    }

    /** sema_up: the elem of the front waiter leaves the wait list and joins the run
        queue. */
    method WakeFront(s: Sem)
      requires Linked() && s in value && State().sems[s].waiters != [] &&
               AsleepOn(State(), State().sems[s].waiters[0], s)
      modifies this`status, queues`contents, queues.Repr
      ensures Linked() && queues.Repr == old(queues.Repr)
      ensures State() == Unblock(FrontTaken(old(State()), s), old(State()).sems[s].waiters[0])
    {
      var front := TakeWaiter(s);
      ThreadUnblock(front);
    }

    method SemaUp(s: Sem)
      requires Linked() && s in value && WaitLists(State())
      modifies this`value, this`status, queues`contents, queues.Repr
      ensures Linked() && queues.Repr == old(queues.Repr) && State() == KernelModel.SemaUp(old(State()), s)
    {
      ghost var k := State();
      var none := queues.IsEmpty(WaitList(s));
      if !none {
        FrontIsBlocked(k, s);
        WakeFront(s);
      }
      UpIs(k, s);
      Increment(s);
    }

    method Increment(s: Sem)
      requires Linked() && s in value
      modifies this`value
      ensures Linked() && State() == Incremented(old(State()), s)
    {
      SemaChange(value, queues.contents, s, value[s] + 1, queues.contents[WaitList(s)]);
      assert queues.contents[WaitList(s) := queues.contents[WaitList(s)]] == queues.contents;
      value := value[s := value[s] + 1];
    }

    /** The failing branch of the loop test in sema_down: the elem joins the wait
        list. */
    method Sleep(s: Sem, waiting: Pc)
      requires Linked() && cur in status && s in value && CanSwitch(State()) && Queued(State()) && !inExternalIntr
      requires OnNone(queues.contents, cur)
      modifies this`status, this`ticks, this`cur, this`pc, queues`contents, queues.Repr
      ensures Linked() && queues.Repr == old(queues.Repr) && State() == Switch(Enqueue(old(State()), s, waiting))
    {
      SemaChange(value, queues.contents, s, value[s], queues.contents[WaitList(s)] + [cur]);
      assert value[s := value[s]] == value;
      queues.PushBack(WaitList(s), cur);
      pc := pc[cur := waiting];
      ThreadBlock();
    }

    /** The loop of sema_down as the running thread meets it, on entry or back
        from schedule: true when the value has been decremented and the loop is
        left, false when the thread has gone to sleep inside it. */
    method SemaDownTrip(s: Sem, waiting: Pc) returns (done: bool)
      requires Linked() && cur in status && CanDown(State(), s) && Queued(State()) && !inExternalIntr &&
               OnNone(queues.contents, cur)
      modifies this`value, this`status, this`ticks, this`cur, this`pc, queues`contents, queues.Repr
      ensures Linked() && queues.Repr == old(queues.Repr) && (done <==> old(value)[s] > 0)
      ensures State() == Down(old(State()), s, waiting)
    {
      done := value[s] > 0;
      if done {
        TakeValue(s, AfterDown(waiting));
      } else {
        Sleep(s, waiting);
      }
    }

    /** The decrement behind a loop test that succeeded. */
    method TakeValue(s: Sem, next: Pc)
      requires Linked() && s in value && value[s] > 0
      modifies this`value, this`pc
      ensures Linked() && State() == SetPc(Decrement(old(State()), s), next)
    {
      var _ := SemaTryDown(s);
      pc := pc[cur := next];
    }

    /** sema_init of the semaphore a cond_wait call keeps on the stack. */
    method SemaInit(s: Sem)
      requires Linked() && (s in value ==> State().sems[s].waiters == [])
      modifies this`value, queues
      ensures Linked() && queues.Repr >= old(queues.Repr) && fresh(queues.Repr - old(queues.Repr))
      ensures var k := old(State()); State() == k.(sems := k.sems[s := Sema(0, [])])
    {
      SemaChange(value, queues.contents, s, 0, []);
      queues.AddQueue(WaitList(s));
      value := value[s := 0];
    }

    // ----- every step of the transition system

    /** sema_down, called or gone on with. */
    method StepDown(s: Sem, waiting: Pc)
      requires Linked() && Calm(State(), queues.contents) && CanDown(State(), s) && !inExternalIntr
      modifies this`value, this`status, this`ticks, this`cur, this`pc, queues`contents, queues.Repr
      ensures Linked() && queues.Repr == old(queues.Repr) && State() == Down(old(State()), s, waiting)
    {
      var _ := SemaDownTrip(s, waiting);
    }

    /** sema_up as the last statement of a primitive. */
    method StepUp(next: Pc, s: Sem)
      requires Linked() && Calm(State(), queues.contents) && s in value
      modifies this`value, this`status, this`pc, queues`contents, queues.Repr
      ensures Linked() && queues.Repr == old(queues.Repr) && State() == KernelModel.SemaUp(SetPc(old(State()), next), s)
    {
      WaitListsKept(State(), next);
      pc := pc[cur := next];
      SemaUp(s);
    }

    method StepSema(step: Step)
      requires Linked() && Calm(State(), queues.contents) && Enabled(State(), step) && SemaStep(step) && !inExternalIntr
      modifies this`value, this`status, this`ticks, this`cur, this`pc, queues`contents, queues.Repr
      ensures Linked() && queues.Repr == old(queues.Repr) && State() == Apply(old(State()), step)
    {
      match step
      case HandlerUp(id) => SemaUp(UserSem(id));
      case TryDown(id) => var _ := SemaTryDown(UserSem(id));
      case Resume => StepDown(WaitsOn(cur, pc[cur]).value, pc[cur]);
      case CallDown(id) => StepDown(UserSem(id), SemaWait(id));
      case CallUp(id) => SemaUp(UserSem(id));
    }

    method TryAcquire(l: nat)
      requires Linked() && LockSem(l) in value
      modifies this`value, this`pc
      ensures Linked()
      ensures var k := old(State());
              State() == if old(value)[LockSem(l)] > 0 then SetPc(Decrement(k, LockSem(l)), LockGot(l, Plain)) else k
    {
      if value[LockSem(l)] > 0 {
        TakeValue(LockSem(l), LockGot(l, Plain));
      }
    }

    /** An assignment to a lock's holder. */
    method WriteHolder(l: nat, h: Option<Tid>, next: Pc)
      requires Linked()
      modifies this`holder, this`pc
      ensures Linked() && var k := old(State()); State() == SetPc(k.(holder := k.holder[l := h]), next)
    {
      holder := holder[l := h];
      pc := pc[cur := next];
    }

    method StepLock(step: Step)
      requires Linked() && Calm(State(), queues.contents) && Enabled(State(), step) && LockStep(step) && !inExternalIntr
      modifies this`value, this`status, this`ticks, this`cur, this`pc, this`holder, queues`contents, queues.Repr
      ensures Linked() && queues.Repr == old(queues.Repr) && State() == Apply(old(State()), step)
    {
      if step.CallAcquire? {
        StepDown(LockSem(step.lock), LockWait(step.lock, Plain));
      } else if step.CallTryAcquire? {
        TryAcquire(step.lock);
      } else if step.SetHolder? {
        WriteHolder(pc[cur].lock, Some(cur), User);
      } else if step.CallRelease? {
        WriteHolder(step.lock, None, LockGive(step.lock, Plain));
      } else {
        var here := pc[cur];
        StepUp(if here.caller.Plain? then User else WaitDown(here.caller.cond), LockSem(here.lock));
      }
    }

    /** thread_create up to init_thread. */
    method BeginCreate(child: Tid)
      requires Linked()
      modifies this`status, this`pc, queues`elem, queues`Repr
      ensures Linked() && queues.Repr >= old(queues.Repr) && fresh(queues.Repr - old(queues.Repr))
      ensures State() == Spawn(old(State()), child)
    {
      queues.AddThread(child);
      status := status[child := Blocked];
      pc := pc[child := Embryo(cur)][cur := Creating(child)];
    }

    /** thread_create: the final thread_unblock. */
    method FinishCreate()
      requires Linked() && Calm(State(), queues.contents) && pc[cur].Creating?
      modifies this`status, this`pc, queues`contents, queues.Repr
      ensures Linked() && queues.Repr == old(queues.Repr) && State() == Admit(old(State()), old(pc)[cur].child)
    {
      var child := pc[cur].child;
      pc := pc[child := User];
      ThreadUnblock(child);
      pc := pc[cur := User];
    }

    method StepIdle()
      requires Linked() && Calm(State(), queues.contents) && Enabled(State(), IdleStep) && !inExternalIntr
      modifies this`value, this`status, this`ticks, this`cur, this`pc, this`idle, queues`contents, queues.Repr
      ensures Linked() && queues.Repr == old(queues.Repr) && State() == IdleNow(old(State()))
    {
      match pc[cur]
      case IdleStart =>
        idle := Some(cur);
        pc := pc[cur := IdleUp];
      case IdleUp => StepUp(IdleLoop, IDLE_STARTED);
      case IdleLoop => ThreadBlock();
    }

    /** The running thread may leave the processor. */
    method StepLeave(step: Step)
      requires Linked() && Calm(State(), queues.contents) && Enabled(State(), step) && !inExternalIntr
      requires step.Tick? || step.Yield? || step.Exit?
      modifies this`status, this`ticks, this`cur, this`inExternalIntr, this`yieldOnReturn, queues`contents, queues.Repr
      ensures Linked() && !inExternalIntr && queues.Repr == old(queues.Repr) && State() == Apply(old(State()), step)
    {
      if step.Tick? {
        TimerInterrupt();
      } else if step.Yield? {
        ThreadYield();
      } else {
        ThreadExit();
      }
    }

    /** thread_create and idle. */
    method StepCreateOrIdle(step: Step)
      requires Linked() && Calm(State(), queues.contents) && Enabled(State(), step) && !inExternalIntr
      requires step.CreateBegin? || step.CreateEnd? || step.IdleStep?
      modifies this`value, this`status, this`ticks, this`cur, this`pc, this`idle, queues, queues.Repr
      ensures Linked() && !inExternalIntr && State() == Apply(old(State()), step)
      ensures queues.Repr >= old(queues.Repr) && fresh(queues.Repr - old(queues.Repr))
    {
      if step.CreateBegin? {
        BeginCreate(step.child);
      } else if step.CreateEnd? {
        FinishCreate();
      } else {
        StepIdle();
      }
    }

    method StepThread(step: Step)
      requires Linked() && Calm(State(), queues.contents) && Enabled(State(), step) && ThreadStep(step) &&
               !inExternalIntr
      modifies this`value, this`status, this`ticks, this`cur, this`pc, this`idle, this`inExternalIntr,
               this`yieldOnReturn, queues, queues.Repr
      ensures Linked() && !inExternalIntr && State() == Apply(old(State()), step)
      ensures queues.Repr >= old(queues.Repr) && fresh(queues.Repr - old(queues.Repr))
    {
      if step.Tick? || step.Yield? || step.Exit? {
        StepLeave(step);
      } else {
        StepCreateOrIdle(step);
      }
    }

    /** cond_wait up to the initialisation of its semaphore. */
    method BeginWait(c: nat)
      requires Linked() && (WaiterSem(cur) in value ==> State().sems[WaiterSem(cur)].waiters == [])
      modifies this`value, this`pc, queues
      ensures Linked() && queues.Repr >= old(queues.Repr) && fresh(queues.Repr - old(queues.Repr))
      ensures var k := old(State()); State() == SetPc(k.(sems := k.sems[WaiterSem(k.cur) := Sema(0, [])]), WaitPush(c))
    {
      SemaInit(WaiterSem(cur));
      pc := pc[cur := WaitPush(c)];
    }

    /** cond_wait: the record joins the condition's list. */
    method PushRecord(c: nat)
      requires Linked() && c in conds
      modifies this`pc, this`conds
      ensures Linked() &&
              var k := old(State()); State() == SetPc(k.(conds := k.conds[c := k.conds[c] + [k.cur]]), WaitRelease(c))
    {
      conds := conds[c := conds[c] + [cur]];
      pc := pc[cur := WaitRelease(c)];
    }

    /** cond_signal: the front record leaves the condition's list. */
    method PopRecord(c: nat, all: bool)
      requires Linked() && c in conds
      modifies this`pc, this`conds
      ensures Linked() && State() == PopWaiter(old(State()), c, all)
    {
      if conds[c] == [] {
        pc := pc[cur := User];
      } else {
        pc := pc[cur := SignalUp(c, conds[c][0], all)];
        conds := conds[c := conds[c][1..]];
      }
    }

    /** The next statement of cond_wait. */
    method StepWait()
      requires Linked() && Calm(State(), queues.contents) && Enabled(State(), WaitStep) && !inExternalIntr
      modifies this`value, this`status, this`ticks, this`cur, this`pc, this`holder, this`conds, queues`contents,
               queues.Repr
      ensures Linked() && queues.Repr == old(queues.Repr) && State() == WaitNow(old(State()))
    {
      match pc[cur]
      case WaitPush(c) => PushRecord(c);
      case WaitRelease(c) => WriteHolder(lockOf[c], None, LockGive(lockOf[c], InWait(c)));
      case WaitDown(c) => StepDown(WaiterSem(cur), WaitSleep(c));
      case WaitAcquire(c) => StepDown(LockSem(lockOf[c]), LockWait(lockOf[c], InWait(c)));
    }

    /** The next statement of cond_signal or cond_broadcast. */
    method StepSignal()
      requires Linked() && Calm(State(), queues.contents) && Enabled(State(), SignalStep)
      modifies this`value, this`status, this`pc, this`conds, queues`contents, queues.Repr
      ensures Linked() && queues.Repr == old(queues.Repr) && State() == Apply(old(State()), SignalStep)
    {
      var here := pc[cur];
      if here.SignalUp? {
        StepUp(if here.all then Broadcast(here.cond) else User, WaiterSem(here.waiter));
      } else {
        PopRecord(here.cond, true);
      }
    }

    /** A step of cond_signal or cond_broadcast. */
    method StepWaker(step: Step)
      requires Linked() && Calm(State(), queues.contents) && Enabled(State(), step)
      requires step.CallSignal? || step.CallBroadcast? || step.SignalStep?
      modifies this`value, this`status, this`pc, this`conds, queues`contents, queues.Repr
      ensures Linked() && queues.Repr == old(queues.Repr) && State() == Apply(old(State()), step)
    {
      match step
      case CallSignal(c) => PopRecord(c, false);
      case CallBroadcast(c) => pc := pc[cur := Broadcast(c)];
      case SignalStep => StepSignal();
    }

    method StepCond(step: Step)
      requires Linked() && Calm(State(), queues.contents) && Enabled(State(), step) && CondStep(step) && !inExternalIntr
      modifies this`value, this`status, this`ticks, this`cur, this`pc, this`holder, this`conds, queues, queues.Repr
      ensures Linked() && State() == Apply(old(State()), step)
      ensures queues.Repr >= old(queues.Repr) && fresh(queues.Repr - old(queues.Repr))
    {
      if step.CallWait? {
        NobodyWaits(State());
        BeginWait(step.cond);
      } else if step.WaitStep? {
        StepWait();
      } else {
        StepWaker(step);
      }
    }

    /** A step of synch.c. */
    method StepSynch(step: Step)
      requires Linked() && Calm(State(), queues.contents) && Enabled(State(), step) && !ThreadStep(step) &&
               !inExternalIntr
      modifies this`value, this`status, this`ticks, this`cur, this`pc, this`holder, this`conds, queues, queues.Repr
      ensures Linked() && !inExternalIntr && State() == Apply(old(State()), step)
      ensures queues.Repr >= old(queues.Repr) && fresh(queues.Repr - old(queues.Repr))
    {
      if SemaStep(step) {
        StepSema(step);
      } else if LockStep(step) {
        StepLock(step);
      } else {
        StepCond(step);
      }
    }

    method StepAny(step: Step)
      requires Linked() && Calm(State(), queues.contents) && Enabled(State(), step) && !inExternalIntr
      modifies this`value, this`status, this`ticks, this`cur, this`pc, this`idle, this`inExternalIntr,
               this`yieldOnReturn, this`holder, this`conds, queues, queues.Repr
      ensures Linked() && !inExternalIntr && State() == Apply(old(State()), step)
      ensures queues.Repr >= old(queues.Repr) && fresh(queues.Repr - old(queues.Repr))
    {
      if ThreadStep(step) {
        StepThread(step);
      } else {
        StepSynch(step);
      }
    }

    /** Every step is done by code over the linked lists, whose links stay sound, and
        the invariant of all runs holds again. */
    method Perform(step: Step)
      requires Linked() && Inv(State()) && Enabled(State(), step) && !inExternalIntr
      modifies this, queues, queues.Repr
      ensures Linked() && Inv(State()) && !inExternalIntr && State() == Apply(old(State()), step)
      ensures queues.Repr >= old(queues.Repr) && fresh(queues.Repr - old(queues.Repr))
    {
      StepKeeps(State(), step);
      CalmBetweenSteps(State(), value, queues.contents);
      StepAny(step);
    }

    /** So every run of the transition system is a run of the code. */
    method PerformAll(steps: seq<Step>)
      requires Linked() && Inv(State()) && CanRun(State(), steps) && !inExternalIntr
      modifies this, queues, queues.Repr
      ensures Linked() && Inv(State()) && State() == RunFrom(old(State()), steps)
      decreases |steps|
    {
      if steps != [] {
        Perform(steps[0]);
        PerformAll(steps[1..]);
      }
    }
  }

  /** What a step needs of the state it starts in: the running thread's elem is on
      no list, and neither is that of a child it is about to unblock. */
  ghost predicate Calm(k: Kernel, c: map<Queue, seq<Tid>>) {
    && k.cur in k.status && k.cur in k.pc && k.status[k.cur] == Running && Queued(k) && WaitLists(k) && OnNone(c, k.cur)
    && (k.pc[k.cur].Creating? ==>
          var t := k.pc[k.cur].child; t != k.cur && t in k.status && k.status[t] == Blocked && OnNone(c, t))
  }

  /** The invariant of all runs provides it. */
  lemma CalmBetweenSteps(k: Kernel, v: map<Sem, nat>, c: map<Queue, seq<Tid>>)
    requires SchedInv(k) && Complete(v, c) && k.ready == RunQueueOf(c) && k.sems == SemsOf(v, c)
    ensures Calm(k, c)
  {
    ElemIsFree(k, v, c, k.cur);
    forall t | t in k.ready ensures t in k.status {
      assert OnReadyList(k, t);
    }
    if k.pc[k.cur].Creating? {
      var t := k.pc[k.cur].child;
      assert t in k.pc && Placed(k, t);
      ElemIsFree(k, v, c, t);
    }
  }

  /** Wait lists depend on the pcs of blocked threads only. */
  lemma WaitListsKept(k: Kernel, next: Pc)
    requires WaitLists(k) && k.cur in k.status && k.status[k.cur] == Running
    ensures WaitLists(SetPc(k, next))
  {
    var k' := SetPc(k, next);
    forall s, t | s in k'.sems ensures t in k'.sems[s].waiters <==> AsleepOn(k', t, s) {
      assert t in k.sems[s].waiters <==> AsleepOn(k, t, s);
    }
  }

  function FrontTaken(k: Kernel, s: Sem): Kernel
    requires s in k.sems && k.sems[s].waiters != []
  {
    k.(sems := k.sems[s := k.sems[s].(waiters := k.sems[s].waiters[1..])])
  }

  function Incremented(k: Kernel, s: Sem): Kernel
    requires s in k.sems
  {
    k.(sems := k.sems[s := k.sems[s].(value := k.sems[s].value + 1)])
  }

  lemma UpIs(k: Kernel, s: Sem)
    requires s in k.sems
    ensures KernelModel.SemaUp(k, s) == if k.sems[s].waiters == [] then Incremented(k, s)
                                       else Incremented(Unblock(FrontTaken(k, s), k.sems[s].waiters[0]), s)
  {
  }

  /** Whoever can be switched to has a status. */
  ghost predicate Queued(k: Kernel) {
    (forall t :: t in k.ready ==> t in k.status) && (k.idle.Some? ==> k.idle.value in k.status)
  }
}
