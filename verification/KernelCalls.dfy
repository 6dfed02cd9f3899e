/** What the calls of synch.c come back with: sema_down with a token, lock_acquire
    with the lock, cond_wait with a signal taken and the lock again; and what the
    timer leaves the running thread. */
module KernelCalls {
  import opened Common
  import opened KernelModel
  import opened KernelSched
  import opened KernelMonitor
  import opened KernelEvents
  import opened KernelRuns
  import opened KernelOrder

  // ----- sema_down

  /** T runs and takes a token of S. */
  ghost predicate Takes(k: Kernel, k': Kernel, t: Tid, s: Sem) {
    k.cur == t && s in k.sems && s in k'.sems && k'.sems[s].value < k.sems[s].value
  }

  /** One trip through the loop of sema_down. */
  lemma TripOutcome(k: Kernel, s: Sem, waiting: Pc)
    requires SchedInv(k) && CanDown(k, s) && WaitsOn(k.cur, waiting) == Some(s) && !IdlePc(k.pc[k.cur])
    ensures var k' := Down(k, s, waiting);
            && s in k'.sems && k.cur in k'.pc
            && if k.sems[s].value > 0 then k'.pc[k.cur] == AfterDown(waiting) && k'.sems[s].value == k.sems[s].value - 1
               else k'.pc[k.cur] == waiting && AsleepOn(k', k.cur, s) && k'.sems[s].value == 0
  {
    DownConds(k, s, waiting);
    ValDown(k, s, waiting, s);
    if k.sems[s].value == 0 {
      assert Placed(k, k.cur);
      NextIsOther(k, s, waiting);
    }
  }

  /** Whoever runs after a thread went to sleep is another thread. */
  lemma NextIsOther(k: Kernel, s: Sem, waiting: Pc)
    requires SchedInv(k) && CanDown(k, s) && k.sems[s].value == 0 && !IdlePc(k.pc[k.cur])
    ensures var k' := Down(k, s, waiting);
            k'.cur != k.cur && k.cur in k'.status && k'.status[k.cur] == Blocked
  {
    assert Placed(k, k.cur);
    if k.ready != [] {
      QueuedIsNotRunning(k, 0);
    }
  }

  /** The semaphore whose sema_down the step calls, if it calls one. */
  function CallsDown(k: Kernel, step: Step): Option<Sem>
    requires Enabled(k, step)
  {
    match step
    case CallDown(id) => Some(UserSem(id))
    case CallAcquire(l) => Some(LockSem(l))
    case WaitStep =>
      if k.pc[k.cur].WaitDown? then Some(WaiterSem(k.cur))
      else if k.pc[k.cur].WaitAcquire? then Some(LockSem(k.lockOf[k.pc[k.cur].cond])) else None
    case _ => None
  }

  /** From K to K' the running thread takes a token of S and is not in its sema_down,
      or there is none and it is asleep on it. */
  ghost predicate DownOutcome(k: Kernel, k': Kernel, s: Sem) {
    && s in k.sems && s in k'.sems && k.cur in k'.pc
    && if k.sems[s].value > 0 then WaitsOn(k.cur, k'.pc[k.cur]) != Some(s) && k'.sems[s].value == k.sems[s].value - 1
       else AsleepOn(k', k.cur, s) && k'.sems[s].value == 0
  }

  /** A call of sema_down takes a token at once if there is one, else the thread is
      asleep on the semaphore. */
  lemma DownCalled(k: Kernel, step: Step, s: Sem)
    requires SchedInv(k) && Enabled(k, step) && CallsDown(k, step) == Some(s)
    ensures DownOutcome(k, Apply(k, step), s)
  {
    if step.CallDown? {
      TripIs(k, s, SemaWait(step.id));
    } else if step.CallAcquire? {
      TripIs(k, s, LockWait(step.lock, Plain));
    } else {
      WaitDownCalled(k, s);
    }
  }

  lemma WaitDownCalled(k: Kernel, s: Sem)
    requires SchedInv(k) && Enabled(k, WaitStep) && CallsDown(k, WaitStep) == Some(s)
    ensures DownOutcome(k, WaitNow(k), s)
  {
    var pc := k.pc[k.cur];
    if pc.WaitDown? {
      TripIs(k, s, WaitSleep(pc.cond));
    } else {
      TripIs(k, s, LockWait(k.lockOf[pc.cond], InWait(pc.cond)));
    }
  }

  lemma TripIs(k: Kernel, s: Sem, waiting: Pc)
    requires SchedInv(k) && CanDown(k, s) && WaitsOn(k.cur, waiting) == Some(s) && !IdlePc(k.pc[k.cur])
    ensures DownOutcome(k, Down(k, s, waiting), s)
  {
    TripOutcome(k, s, waiting);
  }

  /** A thread in a sema_down of S stays in it without taking a token, or takes one
      and leaves. */
  lemma StaysOrTakes(k: Kernel, step: Step, t: Tid, s: Sem)
    requires SchedInv(k) && Enabled(k, step) && t in k.pc && WaitsOn(t, k.pc[t]) == Some(s)
    ensures var k' := Apply(k, step);
            && t in k'.pc && (WaitsOn(t, k'.pc[t]) == Some(s) <==> !Takes(k, k', t, s))
            && (Takes(k, k', t, s) ==> k'.pc[t] == AfterDown(k.pc[t]))
  {
    if t != k.cur {
      PcStep(k, step, t);
    } else {
      assert step.Resume?;
      assert Placed(k, t);
      TripOutcome(k, s, k.pc[t]);
    }
  }

  /** T is in a sema_down of S in every state of the run but the last. */
  ghost predicate InDownUntil(k: Kernel, steps: seq<Step>, t: Tid, s: Sem)
    requires CanRun(k, steps)
    decreases |steps|
  {
    t in k.pc &&
    if steps == [] then WaitsOn(t, k.pc[t]) != Some(s)
    else WaitsOn(t, k.pc[t]) == Some(s) && InDownUntil(Apply(k, steps[0]), steps[1..], t, s)
  }

  ghost function TakeCount(k: Kernel, steps: seq<Step>, t: Tid, s: Sem): nat
    requires CanRun(k, steps)
    decreases |steps|
  {
    if steps == [] then 0
    else One(Takes(k, Apply(k, steps[0]), t, s)) + TakeCount(Apply(k, steps[0]), steps[1..], t, s)
  }

  /** Along any run, a sema_down that has slept returns with exactly one token. */
  lemma {:induction false} DownTakesOne(k: Kernel, steps: seq<Step>, t: Tid, s: Sem)
    requires SchedInv(k) && CanRun(k, steps) && steps != [] && InDownUntil(k, steps, t, s)
    ensures TakeCount(k, steps, t, s) == 1
    decreases |steps|
  {
    var k' := Apply(k, steps[0]);
    StepKeepsSched(k, steps[0]);
    StaysOrTakes(k, steps[0], t, s);
    if |steps| > 1 {
      DownTakesOne(k', steps[1..], t, s);
    } else {
      assert steps[1..] == [];
    }
  }

  // ----- lock_acquire

  /** T is in lock_acquire of L, called by W. */
  predicate InAcquire(k: Kernel, t: Tid, l: nat, w: Caller) {
    t in k.pc && (k.pc[t] == LockWait(l, w) || k.pc[t] == LockGot(l, w))
  }

  /** It is left with the lock. */
  lemma AcquireStep(k: Kernel, step: Step, t: Tid, l: nat, w: Caller)
    requires SchedInv(k) && Enabled(k, step) && InAcquire(k, t, l, w)
    ensures var k' := Apply(k, step);
            InAcquire(k', t, l, w) || (t in k'.pc && k'.pc[t] == User && l in k'.holder && k'.holder[l] == Some(t))
  {
    if t != k.cur {
      PcStep(k, step, t);
    } else if k.pc[t].LockWait? {
      StaysOrTakes(k, step, t, LockSem(l));
      WaitPcKept(k, step);
    } else if step.Tick? {
      TickPc(k);
    }
  }

  /** In a sema_down the program counter stays or moves past it. */
  lemma WaitPcKept(k: Kernel, step: Step)
    requires Enabled(k, step) && WaitsOn(k.cur, k.pc[k.cur]).Some?
    ensures var k' := Apply(k, step);
            k.cur in k'.pc && (k'.pc[k.cur] == k.pc[k.cur] || k'.pc[k.cur] == AfterDown(k.pc[k.cur]))
  {
    DownConds(k, WaitsOn(k.cur, k.pc[k.cur]).value, k.pc[k.cur]);
  }

  /** Along any run, T is in lock_acquire until it has the lock. */
  ghost predicate AcquiresAtEnd(k: Kernel, steps: seq<Step>, t: Tid, l: nat, w: Caller)
    requires CanRun(k, steps)
    decreases |steps|
  {
    if !InAcquire(k, t, l, w) then t in k.pc && k.pc[t] == User && l in k.holder && k.holder[l] == Some(t)
    else steps == [] || AcquiresAtEnd(Apply(k, steps[0]), steps[1..], t, l, w)
  }

  lemma {:induction false} AcquireReturnsHolding(k: Kernel, steps: seq<Step>, t: Tid, l: nat, w: Caller)
    requires SchedInv(k) && CanRun(k, steps) && InAcquire(k, t, l, w)
    ensures AcquiresAtEnd(k, steps, t, l, w)
    decreases |steps|
  {
    if steps != [] {
      StepKeepsSched(k, steps[0]);
      AcquireStep(k, steps[0], t, l, w);
      if InAcquire(Apply(k, steps[0]), t, l, w) {
        AcquireReturnsHolding(Apply(k, steps[0]), steps[1..], t, l, w);
      }
    }
  }

  // ----- cond_wait

  /** T is in cond_wait on C and has not been past its private semaphore. */
  predicate Unsignalled(k: Kernel, t: Tid, c: nat) {
    t in k.pc && (k.pc[t] == WaitPush(c) || Phase(k.pc[t], c))
  }

  /** T is in cond_wait on C and has been past it. */
  predicate Reacquiring(k: Kernel, t: Tid, c: nat) {
    c in k.lockOf && (InAcquire(k, t, k.lockOf[c], InWait(c)) || (t in k.pc && k.pc[t] == WaitAcquire(c)))
  }

  /** It gets past its semaphore only by taking the token of a signal, and holds the
      lock no longer then. */
  lemma UnsignalledStep(k: Kernel, step: Step, t: Tid, c: nat)
    requires Inv(k) && Enabled(k, step) && Unsignalled(k, t, c)
    ensures var k' := Apply(k, step);
            if Takes(k, k', t, WaiterSem(t)) then Reacquiring(k', t, c) && !Holds(k', c, t) else Unsignalled(k', t, c)
  {
    if t != k.cur {
      PcStep(k, step, t);
    } else if k.pc[t] == WaitPush(c) {
      PushPhase(k, step, c);
    } else {
      PhaseStep(k, step, c);
      if Takes(k, Apply(k, step), t, WaiterSem(t)) {
        StepKeeps(k, step);
        PastIt(Apply(k, step), t, c);
      }
    }
  }

  lemma PastIt(k: Kernel, t: Tid, c: nat)
    requires MonitorInv(k) && t in k.pc && k.pc[t] == WaitAcquire(c)
    ensures Reacquiring(k, t, c) && !Holds(k, c, t)
  {
    assert PcOk(k, t);
  }

  lemma PushPhase(k: Kernel, step: Step, c: nat)
    requires Enabled(k, step) && k.pc[k.cur] == WaitPush(c) && Inv(k)
    ensures Unsignalled(Apply(k, step), k.cur, c) && !Takes(k, Apply(k, step), k.cur, WaiterSem(k.cur))
  {
    if step.Tick? {
      TickPc(k);
    }
    assert PcOk(k, k.cur);
    ValStep(k, step, WaiterSem(k.cur));
  }

  lemma PhaseStep(k: Kernel, step: Step, c: nat)
    requires Inv(k) && Enabled(k, step) && Phase(k.pc[k.cur], c)
    ensures var k' := Apply(k, step);
            && k.cur in k'.pc
            && if Takes(k, k', k.cur, WaiterSem(k.cur)) then k'.pc[k.cur] == WaitAcquire(c) else Phase(k'.pc[k.cur], c)
  {
    ReceiverMoves(k, step, c);
    assert PcOk(k, k.cur);
    ValStep(k, step, WaiterSem(k.cur));
    if DownTarget(k, step) != Some(WaiterSem(k.cur)) {
      PhaseKept(k, step, c);
    }
  }

  lemma PhaseKept(k: Kernel, step: Step, c: nat)
    requires Inv(k) && Enabled(k, step) && Phase(k.pc[k.cur], c) && DownTarget(k, step) != Some(WaiterSem(k.cur))
    ensures k.cur in Apply(k, step).pc && Phase(Apply(k, step).pc[k.cur], c)
  {
    if ThreadStep(step) {
      TickPc(k);
    } else if step.Resume? || (step.WaitStep? && k.pc[k.cur].WaitDown?) {
      PrivateDownPc(k, c);
    } else {
      PhaseOther(k, step, c);
    }
  }

  lemma PhaseOther(k: Kernel, step: Step, c: nat)
    requires Enabled(k, step) && Phase(k.pc[k.cur], c) && !ThreadStep(step) && !step.Resume?
    requires step.WaitStep? ==> !k.pc[k.cur].WaitDown?
    ensures k.cur in Apply(k, step).pc && Phase(Apply(k, step).pc[k.cur], c)
  {
  }

  /** No step changes which lock a condition goes with. */
  lemma LockOfKept(k: Kernel, step: Step)
    requires Enabled(k, step)
    ensures Apply(k, step).lockOf == k.lockOf
  {
    if SemaStep(step) {
      if step.Resume? {
        DownLockOf(k, WaitsOn(k.cur, k.pc[k.cur]).value, k.pc[k.cur]);
      } else if step.CallDown? {
        DownLockOf(k, UserSem(step.id), SemaWait(step.id));
      }
    } else if step.CallAcquire? {
      DownLockOf(k, LockSem(step.lock), LockWait(step.lock, Plain));
    } else if step.WaitStep? {
      WaitLockOf(k);
    }
  }

  lemma DownLockOf(k: Kernel, s: Sem, waiting: Pc)
    requires k.cur in k.status && CanDown(k, s)
    ensures Down(k, s, waiting).lockOf == k.lockOf
  {
  }

  lemma WaitLockOf(k: Kernel)
    requires Enabled(k, WaitStep)
    ensures WaitNow(k).lockOf == k.lockOf
  {
    var pc := k.pc[k.cur];
    if pc.WaitDown? {
      DownLockOf(k, WaiterSem(k.cur), WaitSleep(pc.cond));
    } else if pc.WaitAcquire? {
      DownLockOf(k, LockSem(k.lockOf[pc.cond]), LockWait(k.lockOf[pc.cond], InWait(pc.cond)));
    }
  }

  /** The step does not go through the private semaphore of the running thread. */
  lemma NoPrivateTake(k: Kernel, step: Step)
    requires Enabled(k, step) && DownTarget(k, step) != Some(WaiterSem(k.cur)) && !step.CallWait?
    ensures !Takes(k, Apply(k, step), k.cur, WaiterSem(k.cur))
  {
    if WaiterSem(k.cur) in k.sems {
      ValStep(k, step, WaiterSem(k.cur));
    }
  }

  lemma AcquireAgain(k: Kernel, step: Step, c: nat)
    requires Enabled(k, step) && k.pc[k.cur] == WaitAcquire(c)
    ensures c in k.lockOf ==>
              (Apply(k, step).pc == k.pc || InAcquire(Apply(k, step), k.cur, k.lockOf[c], InWait(c)))
  {
    if step.Tick? {
      TickPc(k);
    } else if step.WaitStep? {
      DownConds(k, LockSem(k.lockOf[c]), LockWait(k.lockOf[c], InWait(c)));
    }
  }

  lemma NotPrivate(k: Kernel, step: Step)
    requires Enabled(k, step) && (k.pc[k.cur].LockWait? || k.pc[k.cur].LockGot? || k.pc[k.cur].WaitAcquire?)
    ensures DownTarget(k, step) != Some(WaiterSem(k.cur)) && !step.CallWait?
  {
  }

  lemma MonitorStays(k: Kernel, step: Step, t: Tid, c: nat)
    requires Inv(k) && Enabled(k, step) && Reacquiring(k, t, c)
    ensures c in k.conds && c in Apply(k, step).conds && Apply(k, step).lockOf == k.lockOf
  {
    LockOfKept(k, step);
    assert PcOk(k, t);
    ListStep(k, step, c);
  }

  /** Then it is left with the lock, and the semaphore is not touched again. */
  lemma ReacquiringStep(k: Kernel, step: Step, t: Tid, c: nat)
    requires Inv(k) && Enabled(k, step) && Reacquiring(k, t, c)
    ensures var k' := Apply(k, step);
            && (Reacquiring(k', t, c) || (t in k'.pc && k'.pc[t] == User && Holds(k', c, t)))
            && !Takes(k, k', t, WaiterSem(t))
  {
    MonitorStays(k, step, t, c);
    if k.pc[t] != WaitAcquire(c) {
      AcquireStep(k, step, t, k.lockOf[c], InWait(c));
    } else if t != k.cur {
      PcStep(k, step, t);
    } else {
      AcquireAgain(k, step, c);
    }
    if t == k.cur {
      NotPrivate(k, step);
      NoPrivateTake(k, step);
    }
  }

  /** T is in cond_wait on C in every state of the run but the last. */
  ghost predicate InWaitUntil(k: Kernel, steps: seq<Step>, t: Tid, c: nat)
    requires CanRun(k, steps)
    decreases |steps|
  {
    if steps == [] then !Unsignalled(k, t, c) && !Reacquiring(k, t, c)
    else (Unsignalled(k, t, c) || Reacquiring(k, t, c)) && InWaitUntil(Apply(k, steps[0]), steps[1..], t, c)
  }

  /** Somewhere along the run T does not hold the lock of C. */
  ghost predicate LetsGo(k: Kernel, steps: seq<Step>, t: Tid, c: nat)
    requires CanRun(k, steps)
    decreases |steps|
  {
    !Holds(k, c, t) || (steps != [] && LetsGo(Apply(k, steps[0]), steps[1..], t, c))
  }

  ghost predicate Back(k: Kernel, t: Tid, c: nat) {
    t in k.pc && k.pc[t] == User && Holds(k, c, t)
  }

  lemma {:induction false} SignalledReturns(k: Kernel, steps: seq<Step>, t: Tid, c: nat)
    requires Inv(k) && CanRun(k, steps) && steps != [] && Reacquiring(k, t, c) && InWaitUntil(k, steps, t, c)
    ensures Back(RunFrom(k, steps), t, c) && TakeCount(k, steps, t, WaiterSem(t)) == 0
    decreases |steps|
  {
    var k' := Apply(k, steps[0]);
    StepKeeps(k, steps[0]);
    ReacquiringStep(k, steps[0], t, c);
    if |steps| > 1 {
      BackIsOut(k', t, c);
      SignalledReturns(k', steps[1..], t, c);
    } else {
      assert steps[1..] == [];
    }
  }

  lemma BackIsOut(k: Kernel, t: Tid, c: nat)
    ensures Back(k, t, c) ==> !Unsignalled(k, t, c) && !Reacquiring(k, t, c)
  {
  }

  /** Along any run, a cond_wait on C that returns has let the lock go, has taken
      exactly one signal, and holds the lock again. */
  lemma {:induction false} WaitReturnsSignalled(k: Kernel, steps: seq<Step>, t: Tid, c: nat)
    requires Inv(k) && CanRun(k, steps) && steps != [] && Unsignalled(k, t, c) && InWaitUntil(k, steps, t, c)
    ensures Back(RunFrom(k, steps), t, c) && TakeCount(k, steps, t, WaiterSem(t)) == 1 && LetsGo(k, steps, t, c)
    decreases |steps|
  {
    var k' := Apply(k, steps[0]);
    StepKeeps(k, steps[0]);
    UnsignalledStep(k, steps[0], t, c);
    if Takes(k, k', t, WaiterSem(t)) {
      SignalledReturns(k', steps[1..], t, c);
      assert LetsGo(k', steps[1..], t, c);
    } else {
      WaitReturnsSignalled(k', steps[1..], t, c);
    }
  }

  // ----- the timer

  /** The running thread keeps the processor; TICKS are charged to it. */
  ghost predicate KeepsOn(k: Kernel, k': Kernel, ticks: nat) {
    k'.cur == k.cur && k'.ticks == k.ticks + ticks
  }

  lemma UpKeepsOn(k: Kernel, s: Sem)
    requires s in k.sems
    ensures KeepsOn(k, SemaUp(k, s), 0)
  {
  }

  lemma PassKeepsOn(k: Kernel, s: Sem, waiting: Pc)
    requires k.cur in k.status && s in k.sems && k.sems[s].value > 0
    ensures KeepsOn(k, Down(k, s, waiting), 0)
  {
  }

  lemma ThreadKeepsOn(k: Kernel, step: Step)
    requires Enabled(k, step) && ThreadStep(step) && !Switches(k, step)
    ensures KeepsOn(k, Apply(k, step), One(step.Tick?))
  {
    if step.IdleStep? && k.pc[k.cur].IdleUp? {
      UpKeepsOn(SetPc(k, IdleLoop), IDLE_STARTED);
    }
  }

  lemma SemaKeepsOn(k: Kernel, step: Step)
    requires Enabled(k, step) && SemaStep(step) && !Switches(k, step)
    ensures KeepsOn(k, Apply(k, step), 0)
  {
    if step.HandlerUp? || step.CallUp? {
      UpKeepsOn(k, UserSem(step.id));
    } else if step.Resume? {
      PassKeepsOn(k, WaitsOn(k.cur, k.pc[k.cur]).value, k.pc[k.cur]);
    } else if step.CallDown? {
      PassKeepsOn(k, UserSem(step.id), SemaWait(step.id));
    }
  }

  lemma LockKeepsOn(k: Kernel, step: Step)
    requires Enabled(k, step) && LockStep(step) && !Switches(k, step)
    ensures KeepsOn(k, Apply(k, step), 0)
  {
    if step.CallAcquire? {
      PassKeepsOn(k, LockSem(step.lock), LockWait(step.lock, Plain));
    } else if step.FinishRelease? {
      var pc := k.pc[k.cur];
      UpKeepsOn(SetPc(k, if pc.caller.Plain? then User else WaitDown(pc.caller.cond)), LockSem(pc.lock));
    }
  }

  lemma CondKeepsOn(k: Kernel, step: Step)
    requires Enabled(k, step) && CondStep(step) && !Switches(k, step)
    ensures KeepsOn(k, Apply(k, step), 0)
  {
    var pc := k.pc[k.cur];
    if step.WaitStep? {
      WaitKeepsOn(k);
    } else if step.SignalStep? && pc.SignalUp? {
      UpKeepsOn(SetPc(k, if pc.all then Broadcast(pc.cond) else User), WaiterSem(pc.waiter));
    }
  }

  lemma WaitKeepsOn(k: Kernel)
    requires Enabled(k, WaitStep) && !Switches(k, WaitStep)
    ensures KeepsOn(k, WaitNow(k), 0)
  {
    var pc := k.pc[k.cur];
    if pc.WaitDown? {
      PassKeepsOn(k, WaiterSem(k.cur), WaitSleep(pc.cond));
    } else if pc.WaitAcquire? {
      PassKeepsOn(k, LockSem(k.lockOf[pc.cond]), LockWait(k.lockOf[pc.cond], InWait(pc.cond)));
    }
  }

  lemma StepKeepsOn(k: Kernel, step: Step)
    requires Enabled(k, step) && !Switches(k, step)
    ensures KeepsOn(k, Apply(k, step), One(step.Tick?))
  {
    if ThreadStep(step) {
      ThreadKeepsOn(k, step);
    } else if SemaStep(step) {
      SemaKeepsOn(k, step);
    } else if LockStep(step) {
      LockKeepsOn(k, step);
    } else {
      CondKeepsOn(k, step);
    }
  }

  /** No step but a tick calls schedule. */
  ghost predicate OnlyTicksSwitch(k: Kernel, steps: seq<Step>)
    requires CanRun(k, steps)
    decreases |steps|
  {
    steps == [] || ((!steps[0].Tick? ==> !Switches(k, steps[0])) && OnlyTicksSwitch(Apply(k, steps[0]), steps[1..]))
  }

  /** A thread that does not give the processor up has it for a whole slice: it runs
      on while fewer than TIME_SLICE ticks are charged to it. */
  lemma {:induction false} WholeSlice(k: Kernel, steps: seq<Step>)
    requires CanRun(k, steps) && OnlyTicksSwitch(k, steps) && k.ticks + Ticks(steps) < TIME_SLICE
    ensures KeepsOn(k, RunFrom(k, steps), Ticks(steps))
    decreases |steps|
  {
    if steps != [] {
      StepKeepsOn(k, steps[0]);
      WholeSlice(Apply(k, steps[0]), steps[1..]);
    }
  }

  /** The tick that ends the slice puts the thread at the back of the run queue, the
      idle thread aside, and its front runs with a new slice. */
  lemma SliceOver(k: Kernel)
    requires SchedInv(k) && Enabled(k, Tick) && k.ticks + 1 == TIME_SLICE
    ensures var k' := Apply(k, Tick);
            var queue := k.ready + if k.idle == Some(k.cur) then [] else [k.cur];
            && k'.ticks == 0 && k'.pc == k.pc
            && (if queue == [] then k'.cur == k.cur && k'.ready == []
                else k'.cur == queue[0] && k'.ready == queue[1..])
            && k'.cur in k'.status && k'.status[k'.cur] == Running
            && (k'.cur != k.cur ==> k.cur in k'.status && k'.status[k.cur] == Ready)
  {
    TickPc(k);
  }
}
