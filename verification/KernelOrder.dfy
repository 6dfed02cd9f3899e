/** Order along runs: condition variables serve their waiters first come, first
    served, and dead threads stay dead. */
module KernelOrder {
  import opened Common
  import opened KernelModel
  import opened KernelSched
  import opened KernelMonitor
  import opened KernelEvents
  import opened KernelRuns

  // ----- dead threads

  ghost predicate Dead(k: Kernel, t: Tid) {
    t in k.status && (k.status[t] == Dying || k.status[t] == Freed)
  }

  /** ... and nowhere the scheduler could pick it up from. */
  ghost predicate Gone(k: Kernel, t: Tid) {
    Dead(k, t) && t != k.cur && t !in k.ready && k.idle != Some(t)
  }

  /** No wait list has T in front. */
  ghost predicate NotWaiting(k: Kernel, t: Tid) {
    forall s :: s in k.sems && k.sems[s].waiters != [] ==> k.sems[s].waiters[0] != t
  }

  lemma DeadIsGone(k: Kernel, t: Tid)
    requires SchedInv(k) && Dead(k, t)
    ensures Gone(k, t) && NotWaiting(k, t)
  {
    assert Placed(k, t) && OnReadyList(k, t) == (t in k.ready);
    forall s | s in k.sems && k.sems[s].waiters != [] ensures k.sems[s].waiters[0] != t {
      FrontIsBlocked(k, s);
    }
  }

  lemma SwitchDead(k: Kernel, t: Tid)
    requires k.cur in k.status && CanSwitch(k) && Dead(k, t) && t !in k.ready && k.idle != Some(t)
    ensures Dead(Switch(k), t)
  {
  }

  lemma RequeueDead(k: Kernel, t: Tid)
    requires k.cur in k.status && Gone(k, t)
    ensures Dead(YieldNow(k), t)
  {
    SwitchDead(Requeue(k), t);
  }

  lemma LeaveDead(k: Kernel, st: Status, t: Tid)
    requires k.cur in k.status && CanSwitch(k) && Gone(k, t)
    ensures Dead(Switch(SetStatus(k, st)), t)
  {
    SwitchDead(SetStatus(k, st), t);
  }

  lemma UpDead(k: Kernel, s: Sem, t: Tid)
    requires s in k.sems && Dead(k, t) && NotWaiting(k, t)
    ensures Dead(SemaUp(k, s), t)
  {
  }

  lemma DownDead(k: Kernel, s: Sem, waiting: Pc, t: Tid)
    requires k.cur in k.status && CanDown(k, s) && Gone(k, t)
    ensures Dead(Down(k, s, waiting), t)
  {
    if k.sems[s].value == 0 {
      EnqueueFrame(k, s, waiting);
      SwitchDead(Enqueue(k, s, waiting), t);
    }
  }

  lemma EnqueueFrame(k: Kernel, s: Sem, waiting: Pc)
    requires s in k.sems
    ensures var j := Enqueue(k, s, waiting);
            j.cur == k.cur && j.ready == k.ready && j.idle == k.idle && j.status == k.status[k.cur := Blocked]
  {
  }

  lemma IdleStepDead(k: Kernel, t: Tid)
    requires Enabled(k, IdleStep) && Gone(k, t) && NotWaiting(k, t)
    ensures Dead(Apply(k, IdleStep), t)
  {
    if k.pc[k.cur].IdleUp? {
      UpDead(SetPc(k, IdleLoop), IDLE_STARTED, t);
    } else if k.pc[k.cur].IdleLoop? {
      LeaveDead(k, Blocked, t);
    }
  }

  lemma ThreadStepDead(k: Kernel, step: Step, t: Tid)
    requires Enabled(k, step) && ThreadStep(step) && !step.CreateEnd? && Gone(k, t) && NotWaiting(k, t) &&
             step != CreateBegin(t)
    ensures Dead(Apply(k, step), t)
  {
    if step.Tick? {
      TickDead(k, t);
    } else if step.Yield? {
      RequeueDead(k, t);
    } else if step.Exit? {
      LeaveDead(k, Dying, t);
    } else if step.IdleStep? {
      IdleStepDead(k, t);
    }
  }

  lemma TickDead(k: Kernel, t: Tid)
    requires k.cur in k.status && Gone(k, t)
    ensures Dead(TickNow(k), t)
  {
    var ticked := k.(ticks := k.ticks + 1);
    assert Gone(ticked, t);
    RequeueDead(ticked, t);
  }

  lemma SemaStepDead(k: Kernel, step: Step, t: Tid)
    requires Enabled(k, step) && SemaStep(step) && Gone(k, t) && NotWaiting(k, t)
    ensures Dead(Apply(k, step), t)
  {
    match step
    case HandlerUp(id) => UpDead(k, UserSem(id), t);
    case TryDown(_) =>
    case Resume => DownDead(k, WaitsOn(k.cur, k.pc[k.cur]).value, k.pc[k.cur], t);
    case CallDown(id) => DownDead(k, UserSem(id), SemaWait(id), t);
    case CallUp(id) => UpDead(k, UserSem(id), t);
  }

  lemma LockStepDead(k: Kernel, step: Step, t: Tid)
    requires Enabled(k, step) && LockStep(step) && Gone(k, t) && NotWaiting(k, t)
    ensures Dead(Apply(k, step), t)
  {
    match step
    case CallAcquire(l) => DownDead(k, LockSem(l), LockWait(l, Plain), t);
    case CallTryAcquire(_) =>
    case SetHolder =>
    case CallRelease(_) =>
    case FinishRelease =>
      var pc := k.pc[k.cur];
      UpDead(SetPc(k, if pc.caller.Plain? then User else WaitDown(pc.caller.cond)), LockSem(pc.lock), t);
  }

  lemma CondStepDead(k: Kernel, step: Step, t: Tid)
    requires Enabled(k, step) && CondStep(step) && Gone(k, t) && NotWaiting(k, t)
    ensures Dead(Apply(k, step), t)
  {
    var pc := k.pc[k.cur];
    if step.WaitStep? && pc.WaitDown? {
      DownDead(k, WaiterSem(k.cur), WaitSleep(pc.cond), t);
    } else if step.WaitStep? && pc.WaitAcquire? {
      var l := k.lockOf[pc.cond];
      DownDead(k, LockSem(l), LockWait(l, InWait(pc.cond)), t);
    } else if step.SignalStep? && pc.SignalUp? {
      UpDead(SetPc(k, if pc.all then Broadcast(pc.cond) else User), WaiterSem(pc.waiter), t);
    }
  }

  /** No step brings a dead thread back, but for a creation on its page. */
  lemma DeadStep(k: Kernel, step: Step, t: Tid)
    requires SchedInv(k) && Enabled(k, step) && Dead(k, t) && step != CreateBegin(t)
    ensures Dead(Apply(k, step), t)
  {
    DeadIsGone(k, t);
    if step.CreateEnd? {
      ChildIsBlocked(k);
    } else if ThreadStep(step) {
      ThreadStepDead(k, step, t);
    } else if SemaStep(step) {
      SemaStepDead(k, step, t);
    } else if LockStep(step) {
      LockStepDead(k, step, t);
    } else {
      CondStepDead(k, step, t);
    }
  }

  /** Along any run, a thread that is dying or freed is neither running nor on the
      run queue nor idle in any later state, until thread_create reuses its page. */
  lemma {:induction false} DeadStayDead(k: Kernel, steps: seq<Step>, t: Tid)
    requires Inv(k) && CanRun(k, steps) && Dead(k, t) && forall i :: 0 <= i < |steps| ==> steps[i] != CreateBegin(t)
    ensures Gone(RunFrom(k, steps), t)
    decreases |steps|
  {
    if steps == [] {
      DeadIsGone(k, t);
    } else {
      StepKeeps(k, steps[0]);
      DeadStep(k, steps[0], t);
      DeadStayDead(Apply(k, steps[0]), steps[1..], t);
    }
  }

  // ----- the list of a condition

  /** The step takes the front record off the list of C. */
  predicate Pops(k: Kernel, step: Step, c: nat)
    requires Enabled(k, step)
  {
    (step == CallSignal(c) || (step.SignalStep? && k.pc[k.cur] == Broadcast(c))) && c in k.conds && k.conds[c] != []
  }

  /** The step queues the running thread's record on the list of C. */
  predicate Pushes(k: Kernel, step: Step, c: nat)
    requires Enabled(k, step)
  {
    step.WaitStep? && k.pc[k.cur] == WaitPush(c)
  }

  /** The step ups the private semaphore of a record popped from C. */
  predicate UpsRecord(k: Kernel, step: Step, c: nat)
    requires Enabled(k, step)
  {
    step.SignalStep? && k.pc[k.cur].SignalUp? && k.pc[k.cur].cond == c
  }

  /** The records popped from, queued on and upped for C along a run, in order. */
  ghost function Popped(k: Kernel, steps: seq<Step>, c: nat): seq<Tid>
    requires CanRun(k, steps)
    decreases |steps|
  {
    if steps == [] then []
    else (if Pops(k, steps[0], c) then [k.conds[c][0]] else []) + Popped(Apply(k, steps[0]), steps[1..], c)
  }

  ghost function Pushed(k: Kernel, steps: seq<Step>, c: nat): seq<Tid>
    requires CanRun(k, steps)
    decreases |steps|
  {
    if steps == [] then []
    else (if Pushes(k, steps[0], c) then [k.cur] else []) + Pushed(Apply(k, steps[0]), steps[1..], c)
  }

  ghost function Upped(k: Kernel, steps: seq<Step>, c: nat): seq<Tid>
    requires CanRun(k, steps)
    decreases |steps|
  {
    if steps == [] then []
    else (if UpsRecord(k, steps[0], c) then [k.pc[k.cur].waiter] else []) + Upped(Apply(k, steps[0]), steps[1..], c)
  }

  lemma IdlePcs(k: Kernel)
    requires Enabled(k, IdleStep)
    ensures var k' := IdleNow(k);
            k'.conds == k.conds && (k'.pc == k.pc || k'.pc == k.pc[k.cur := IdleUp] || k'.pc == k.pc[k.cur := IdleLoop])
  {
    if k.pc[k.cur].IdleLoop? {
      LeavePc(k, Blocked);
    }
  }

  lemma DownConds(k: Kernel, s: Sem, waiting: Pc)
    requires k.cur in k.status && CanDown(k, s)
    ensures Down(k, s, waiting).conds == k.conds
    ensures Down(k, s, waiting).pc == k.pc[k.cur := if k.sems[s].value == 0 then waiting else AfterDown(waiting)]
  {
    if k.sems[s].value == 0 {
      SwitchFrame(Enqueue(k, s, waiting));
    }
  }

  lemma ThreadConds(k: Kernel, step: Step)
    requires Enabled(k, step) && ThreadStep(step)
    ensures Apply(k, step).conds == k.conds
  {
    if step.Tick? {
      TickPc(k);
    } else if step.Yield? {
      YieldPc(k);
    } else if step.Exit? {
      LeavePc(k, Dying);
    } else if step.IdleStep? {
      IdlePcs(k);
    }
  }

  lemma SemaConds(k: Kernel, step: Step)
    requires Enabled(k, step) && SemaStep(step)
    ensures Apply(k, step).conds == k.conds
  {
    if step.Resume? {
      DownConds(k, WaitsOn(k.cur, k.pc[k.cur]).value, k.pc[k.cur]);
    } else if step.CallDown? {
      DownConds(k, UserSem(step.id), SemaWait(step.id));
    }
  }

  lemma LockConds(k: Kernel, step: Step)
    requires Enabled(k, step) && LockStep(step)
    ensures Apply(k, step).conds == k.conds
  {
    if step.CallAcquire? {
      DownConds(k, LockSem(step.lock), LockWait(step.lock, Plain));
    }
  }

  lemma WaitConds(k: Kernel)
    requires Enabled(k, WaitStep) && !k.pc[k.cur].WaitPush?
    ensures Apply(k, WaitStep).conds == k.conds
  {
    var pc := k.pc[k.cur];
    if pc.WaitDown? {
      DownConds(k, WaiterSem(k.cur), WaitSleep(pc.cond));
    } else if pc.WaitAcquire? {
      var l := k.lockOf[pc.cond];
      DownConds(k, LockSem(l), LockWait(l, InWait(pc.cond)));
    }
  }

  /** One step on the list of C: pops at the front, pushes at the back. */
  ghost predicate ListMoves(k: Kernel, step: Step, k': Kernel, c: nat)
    requires Enabled(k, step)
  {
    && c in k.conds && c in k'.conds
    && k'.conds[c] == (if Pops(k, step, c) then k.conds[c][1..]
                       else if Pushes(k, step, c) then k.conds[c] + [k.cur] else k.conds[c])
    && (Pops(k, step, c) ==> k.cur in k'.pc && k'.pc[k.cur] == SignalUp(c, k.conds[c][0], step.SignalStep?))
  }

  lemma CondListStep(k: Kernel, step: Step, c: nat)
    requires Enabled(k, step) && c in k.conds && CondStep(step)
    ensures ListMoves(k, step, Apply(k, step), c)
  {
    if step.WaitStep? && !k.pc[k.cur].WaitPush? {
      WaitConds(k);
    }
  }

  lemma ListStep(k: Kernel, step: Step, c: nat)
    requires Enabled(k, step) && c in k.conds
    ensures ListMoves(k, step, Apply(k, step), c)
  {
    if CondStep(step) {
      CondListStep(k, step, c);
    } else {
      CondsKept(k, step);
    }
  }

  lemma CondsKept(k: Kernel, step: Step)
    requires Enabled(k, step) && !CondStep(step)
    ensures Apply(k, step).conds == k.conds
  {
    if ThreadStep(step) {
      ThreadConds(k, step);
    } else if SemaStep(step) {
      SemaConds(k, step);
    } else {
      LockConds(k, step);
    }
  }

  /** Along any run what left the list of C and what is left on it is what was
      there and what came, in this order: records leave first come, first served,
      and only at the front. */
  lemma {:induction false} FirstComeFirstServed(k: Kernel, steps: seq<Step>, c: nat)
    requires CanRun(k, steps) && c in k.conds
    ensures c in RunFrom(k, steps).conds
    ensures Popped(k, steps, c) + RunFrom(k, steps).conds[c] == k.conds[c] + Pushed(k, steps, c)
    decreases |steps|
  {
    if steps != [] {
      var k' := Apply(k, steps[0]);
      ListStep(k, steps[0], c);
      FirstComeFirstServed(k', steps[1..], c);
      ConsLaw(k.conds[c], k'.conds[c], Pops(k, steps[0], c), Pushes(k, steps[0], c), k.cur,
              Popped(k', steps[1..], c), Pushed(k', steps[1..], c), RunFrom(k', steps[1..]).conds[c]);
    }
  }

  lemma ConsLaw(q: seq<Tid>, q': seq<Tid>, pop: bool, push: bool, t: Tid, popped: seq<Tid>, pushed: seq<Tid>,
                e: seq<Tid>)
    requires pop ==> q != [] && !push
    requires q' == if pop then q[1..] else if push then q + [t] else q
    requires popped + e == q' + pushed
    ensures (if pop then [q[0]] else []) + popped + e == q + ((if push then [t] else []) + pushed)
  {
    if pop {
      assert [q[0]] + popped + e == [q[0]] + (popped + e);
      assert [q[0]] + (q[1..] + pushed) == q + pushed;
      assert [] + pushed == pushed;
    } else {
      assert [] + popped == popped;
      assert q + [t] + pushed == q + ([t] + pushed);
    }
  }

  // ----- one up for every pop

  /** The record popped from C whose semaphore is still to be upped, if any; the
      thread at it holds the lock of C. */
  ghost function Pending(k: Kernel, c: nat): seq<Tid> {
    if c in k.lockOf && k.lockOf[c] in k.holder && k.holder[k.lockOf[c]].Some? then
      var p := k.holder[k.lockOf[c]].value;
      if p in k.pc && k.pc[p].SignalUp? && k.pc[p].cond == c then [k.pc[p].waiter] else []
    else []
  }

  lemma PendingIs(k: Kernel, c: nat, p: Tid)
    requires MonitorInv(k) && p in k.pc && k.pc[p].SignalUp? && k.pc[p].cond == c
    ensures Pending(k, c) == [k.pc[p].waiter] && Holds(k, c, p)
  {
    assert PcOk(k, p);
  }

  /** A thread between the pop and the up stays there until it does the up. */
  lemma SignalUpStays(k: Kernel, step: Step, p: Tid)
    requires SchedInv(k) && Enabled(k, step) && p in k.pc && k.pc[p].SignalUp? && !(p == k.cur && step.SignalStep?)
    ensures p in Apply(k, step).pc && Apply(k, step).pc[p] == k.pc[p]
  {
    if p != k.cur {
      PcStep(k, step, p);
    } else if step.Tick? {
      TickPc(k);
    }
  }

  /** A thread gets there by a pop only. */
  lemma SignalUpOrigin(k: Kernel, step: Step, p: Tid)
    requires Enabled(k, step) && p in Apply(k, step).pc && Apply(k, step).pc[p].SignalUp?
    ensures (p in k.pc && k.pc[p] == Apply(k, step).pc[p]) || (p == k.cur && Pops(k, step, Apply(k, step).pc[p].cond))
  {
    if ThreadStep(step) {
      OriginThread(k, step, p);
    } else if SemaStep(step) {
      OriginSema(k, step, p);
    } else if LockStep(step) {
      OriginLock(k, step, p);
    } else {
      OriginCond(k, step, p);
    }
  }

  lemma OriginThread(k: Kernel, step: Step, p: Tid)
    requires Enabled(k, step) && ThreadStep(step) && p in Apply(k, step).pc && Apply(k, step).pc[p].SignalUp?
    ensures p in k.pc && k.pc[p] == Apply(k, step).pc[p]
  {
    if step.Tick? {
      TickPc(k);
    } else if step.Yield? {
      YieldPc(k);
    } else if step.Exit? {
      LeavePc(k, Dying);
    } else if step.IdleStep? {
      IdlePcs(k);
    }
  }

  lemma OriginDown(k: Kernel, s: Sem, waiting: Pc, p: Tid)
    requires k.cur in k.status && CanDown(k, s) && !waiting.SignalUp?
    requires p in Down(k, s, waiting).pc && Down(k, s, waiting).pc[p].SignalUp?
    ensures p in k.pc && k.pc[p] == Down(k, s, waiting).pc[p]
  {
    DownConds(k, s, waiting);
  }

  lemma OriginSema(k: Kernel, step: Step, p: Tid)
    requires Enabled(k, step) && SemaStep(step) && p in Apply(k, step).pc && Apply(k, step).pc[p].SignalUp?
    ensures p in k.pc && k.pc[p] == Apply(k, step).pc[p]
  {
    if step.Resume? {
      OriginDown(k, WaitsOn(k.cur, k.pc[k.cur]).value, k.pc[k.cur], p);
    } else if step.CallDown? {
      OriginDown(k, UserSem(step.id), SemaWait(step.id), p);
    }
  }

  lemma OriginLock(k: Kernel, step: Step, p: Tid)
    requires Enabled(k, step) && LockStep(step) && p in Apply(k, step).pc && Apply(k, step).pc[p].SignalUp?
    ensures p in k.pc && k.pc[p] == Apply(k, step).pc[p]
  {
    if step.CallAcquire? {
      OriginDown(k, LockSem(step.lock), LockWait(step.lock, Plain), p);
    }
  }

  lemma OriginCond(k: Kernel, step: Step, p: Tid)
    requires Enabled(k, step) && CondStep(step) && p in Apply(k, step).pc && Apply(k, step).pc[p].SignalUp?
    ensures (p in k.pc && k.pc[p] == Apply(k, step).pc[p]) || (p == k.cur && Pops(k, step, Apply(k, step).pc[p].cond))
  {
    if step.WaitStep? {
      OriginWait(k, p);
    } else if step.SignalStep? {
      OriginSignal(k, p);
    }
  }

  lemma OriginSignal(k: Kernel, p: Tid)
    requires Enabled(k, SignalStep) && p in Apply(k, SignalStep).pc && Apply(k, SignalStep).pc[p].SignalUp?
    ensures var pc := Apply(k, SignalStep).pc[p];
            (p in k.pc && k.pc[p] == pc) || (p == k.cur && Pops(k, SignalStep, pc.cond))
  {
  }

  lemma OriginWait(k: Kernel, p: Tid)
    requires Enabled(k, WaitStep) && p in WaitNow(k).pc && WaitNow(k).pc[p].SignalUp?
    ensures p in k.pc && k.pc[p] == WaitNow(k).pc[p]
  {
    var pc := k.pc[k.cur];
    if pc.WaitDown? {
      OriginDown(k, WaiterSem(k.cur), WaitSleep(pc.cond), p);
    } else if pc.WaitAcquire? {
      var l := k.lockOf[pc.cond];
      OriginDown(k, LockSem(l), LockWait(l, InWait(pc.cond)), p);
    }
  }

  /** One step: what was pending and is popped is what is upped and pending. */
  lemma PendingStep(k: Kernel, step: Step, c: nat)
    requires Inv(k) && Enabled(k, step) && c in k.conds
    ensures Pending(k, c) + (if Pops(k, step, c) then [k.conds[c][0]] else []) ==
            (if UpsRecord(k, step, c) then [k.pc[k.cur].waiter] else []) + Pending(Apply(k, step), c)
  {
    var k' := Apply(k, step);
    StepKeeps(k, step);
    if UpsRecord(k, step, c) {
      PendingIs(k, c, k.cur);
      UppedClears(k, step, c);
    } else if Pops(k, step, c) {
      PoppedPends(k, step, c);
      PopperHolds(k, step, c);
    } else {
      PendingKept(k, step, c);
    }
  }

  lemma PoppedPends(k: Kernel, step: Step, c: nat)
    requires Enabled(k, step) && c in k.conds && Pops(k, step, c) && Inv(Apply(k, step))
    ensures Pending(Apply(k, step), c) == [k.conds[c][0]]
  {
    ListStep(k, step, c);
    PendingIs(Apply(k, step), c, k.cur);
  }

  lemma PopperHolds(k: Kernel, step: Step, c: nat)
    requires Inv(k) && Enabled(k, step) && Pops(k, step, c)
    ensures Pending(k, c) == []
  {
    assert PcOk(k, k.cur);
  }

  lemma UppedClears(k: Kernel, step: Step, c: nat)
    requires Inv(k) && Enabled(k, step) && UpsRecord(k, step, c)
    ensures Pending(Apply(k, step), c) == []
  {
    var k' := Apply(k, step);
    if Pending(k', c) != [] {
      var p := k'.holder[k'.lockOf[c]].value;
      SignalUpOrigin(k, step, p);
      PendingIs(k, c, p);
      PendingIs(k, c, k.cur);
    }
  }

  lemma PendingKept(k: Kernel, step: Step, c: nat)
    requires Enabled(k, step) && Inv(k) && Inv(Apply(k, step)) && !UpsRecord(k, step, c) && !Pops(k, step, c)
    ensures Pending(Apply(k, step), c) == Pending(k, c)
  {
    var k' := Apply(k, step);
    if Pending(k, c) != [] {
      var p := k.holder[k.lockOf[c]].value;
      SignalUpStays(k, step, p);
      PendingIs(k', c, p);
    } else if Pending(k', c) != [] {
      var p := k'.holder[k'.lockOf[c]].value;
      SignalUpOrigin(k, step, p);
      PendingIs(k, c, p);
    }
  }

  /** Along any run the records upped are exactly the records popped, in order,
      but for one that may be pending at either end. */
  lemma {:induction false} OneUpPerPop(k: Kernel, steps: seq<Step>, c: nat)
    requires Inv(k) && CanRun(k, steps) && c in k.conds
    ensures Pending(k, c) + Popped(k, steps, c) == Upped(k, steps, c) + Pending(RunFrom(k, steps), c)
    decreases |steps|
  {
    if steps == [] {
      assert Pending(k, c) + [] == [] + Pending(k, c);
    } else {
      var k' := Apply(k, steps[0]);
      StepKeeps(k, steps[0]);
      ListStep(k, steps[0], c);
      PendingStep(k, steps[0], c);
      OneUpPerPop(k', steps[1..], c);
      Regroup(Pending(k, c), if Pops(k, steps[0], c) then [k.conds[c][0]] else [],
              if UpsRecord(k, steps[0], c) then [k.pc[k.cur].waiter] else [], Pending(k', c),
              Popped(k', steps[1..], c), Upped(k', steps[1..], c), Pending(RunFrom(k', steps[1..]), c));
    }
  }

  lemma Regroup(a: seq<Tid>, p: seq<Tid>, u: seq<Tid>, b: seq<Tid>, ps: seq<Tid>, us: seq<Tid>, e: seq<Tid>)
    requires a + p == u + b && b + ps == us + e
    ensures a + (p + ps) == u + us + e
  {
    assert a + (p + ps) == a + p + ps;
    assert u + b + ps == u + (b + ps);
    assert u + (us + e) == u + us + e;
  }

  /** Of the records UPPED, record T is the one at position AT, not an earlier one;
      if they are too few it is still on the list LEFT or PENDING. */
  ghost predicate ServedAt(t: Tid, at: nat, upped: seq<Tid>, left: seq<Tid>, pending: seq<Tid>) {
    && (at < |upped| ==> upped[at] == t)
    && (forall j :: 0 <= j < at && j < |upped| ==> upped[j] != t)
    && (|upped| <= at ==> t in left || pending == [t])
  }

  /** With N records pending, none or one, the record at position I is the
      (N+I+1)-th to be signalled, and is signalled by none of the signals before. */
  lemma {:induction false} SignalledInTurn(k: Kernel, steps: seq<Step>, c: nat, i: nat)
    requires Inv(k) && CanRun(k, steps) && c in k.conds && i < |k.conds[c]|
    ensures var e := RunFrom(k, steps);
            c in e.conds &&
            ServedAt(k.conds[c][i], |Pending(k, c)| + i, Upped(k, steps, c), e.conds[c], Pending(e, c))
  {
    var e, n, q := RunFrom(k, steps), Pending(k, c), k.conds[c];
    var pushed, popped, upped := Pushed(k, steps, c), Popped(k, steps, c), Upped(k, steps, c);
    FirstComeFirstServed(k, steps, c);
    assert n + popped == upped + Pending(e, c) by {
      OneUpPerPop(k, steps, c);
    }
    assert NoDup(n + q) by {
      PendingApart(k, c);
    }
    InTurn(n, q, pushed, popped, e.conds[c], upped, Pending(e, c), i);
  }

  /** A pending record is not on the list. */
  lemma PendingApart(k: Kernel, c: nat)
    requires MonitorInv(k) && c in k.conds
    ensures NoDup(Pending(k, c) + k.conds[c])
  {
    assert CondOk(k, c);
    if Pending(k, c) == [] {
      assert [] + k.conds[c] == k.conds[c];
    } else {
      assert PcOk(k, k.holder[k.lockOf[c]].value);
      var all := Pending(k, c) + k.conds[c];
      assert all[1..] == k.conds[c];
      NoDupCons(all);
    }
  }

  lemma InTurn(n: seq<Tid>, q: seq<Tid>, pushed: seq<Tid>, popped: seq<Tid>, left: seq<Tid>, upped: seq<Tid>,
               pending: seq<Tid>, i: nat)
    requires NoDup(n + q) && i < |q| && popped + left == q + pushed && n + popped == upped + pending && |pending| <= 1
    ensures ServedAt(q[i], |n| + i, upped, left, pending)
  {
    var all, at := n + q + pushed, |n| + i;
    assert all == n + (q + pushed) == n + (popped + left) == n + popped + left == upped + pending + left;
    assert forall j :: 0 <= j < |upped| ==> upped[j] == all[j];
    assert (n + q)[at] == q[i] && forall j :: 0 <= j <= at ==> all[j] == (n + q)[j];
    if |upped| <= at {
      if at < |upped + pending| {
        assert all[at] == pending[at - |upped|];
      } else {
        assert all[at] == left[at - |upped + pending|];
      }
    }
  }

  // ----- whole calls

  /** T is inside cond_broadcast on C. */
  predicate BroadcastPc(k: Kernel, c: nat, t: Tid) {
    t in k.pc && (k.pc[t] == Broadcast(c) || (k.pc[t].SignalUp? && k.pc[t].cond == c && k.pc[t].all))
  }

  /** T is inside cond_signal on C. */
  predicate SignalPc(k: Kernel, c: nat, t: Tid) {
    t in k.pc && k.pc[t].SignalUp? && k.pc[t].cond == c && !k.pc[t].all
  }

  /** T is inside the call in all states of the run but the last. */
  ghost predicate Inside(k: Kernel, steps: seq<Step>, c: nat, t: Tid)
    requires CanRun(k, steps)
    decreases |steps|
  {
    if steps == [] then !BroadcastPc(k, c, t) && !SignalPc(k, c, t)
    else (BroadcastPc(k, c, t) || SignalPc(k, c, t)) && Inside(Apply(k, steps[0]), steps[1..], c, t)
  }

  /** While T is inside the call it holds the lock: nobody else queues a record or
      pops one. */
  lemma OthersExcluded(k: Kernel, step: Step, c: nat, t: Tid)
    requires Enabled(k, step) && (BroadcastPc(k, c, t) || SignalPc(k, c, t)) && PcOk(k, t) && PcOk(k, k.cur)
    ensures !Pushes(k, step, c) && (Pops(k, step, c) ==> k.cur == t && k.pc[t] == Broadcast(c)) && c in k.conds
  {
  }

  /** The only way out of cond_broadcast is to find the list empty. */
  lemma LeaveBroadcast(k: Kernel, step: Step, c: nat, t: Tid)
    requires SchedInv(k) && Enabled(k, step) && BroadcastPc(k, c, t) && !BroadcastPc(Apply(k, step), c, t)
    ensures k.cur == t && step.SignalStep? && k.pc[t] == Broadcast(c) && c in k.conds && k.conds[c] == []
    ensures !SignalPc(Apply(k, step), c, t)
  {
    if t != k.cur {
      PcStep(k, step, t);
    } else {
      OwnBroadcastStep(k, step, c);
    }
  }

  lemma OwnBroadcastStep(k: Kernel, step: Step, c: nat)
    requires Enabled(k, step) && BroadcastPc(k, c, k.cur) && !BroadcastPc(Apply(k, step), c, k.cur)
    ensures step.SignalStep? && k.pc[k.cur] == Broadcast(c) && c in k.conds && k.conds[c] == []
    ensures !SignalPc(Apply(k, step), c, k.cur)
  {
    if step.Tick? {
      TickPc(k);
    }
  }

  /** One step inside cond_broadcast: records go from the list to the ups. */
  lemma BroadcastTurn(k: Kernel, step: Step, c: nat, t: Tid)
    requires Inv(k) && Enabled(k, step) && BroadcastPc(k, c, t)
    ensures var k' := Apply(k, step);
            && c in k.conds && c in k'.conds
            && (if Pops(k, step, c) then [k.conds[c][0]] else []) + k'.conds[c] == k.conds[c]
            && (!BroadcastPc(k', c, t) ==>
                  !SignalPc(k', c, t) && k.conds[c] == [] && Pending(k, c) == [] && !UpsRecord(k, step, c))
  {
    assert PcOk(k, t) && PcOk(k, k.cur);
    OthersExcluded(k, step, c, t);
    ListStep(k, step, c);
    if !BroadcastPc(Apply(k, step), c, t) {
      LeaveBroadcast(k, step, c, t);
    }
  }

  lemma BroadcastStarts(k: Kernel, c: nat)
    requires Enabled(k, CallBroadcast(c)) && SchedInv(k)
    ensures var k1 := Apply(k, CallBroadcast(c));
            c in k1.conds && k1.conds == k.conds && BroadcastPc(k1, c, k.cur) && Pending(k1, c) == []
  {
  }

  /** The rest of a call of cond_broadcast. */
  lemma {:induction false} BroadcastRun(k: Kernel, steps: seq<Step>, c: nat, t: Tid)
    requires Inv(k) && CanRun(k, steps) && BroadcastPc(k, c, t) && Inside(k, steps, c, t) && c in k.conds
    ensures Upped(k, steps, c) == Pending(k, c) + k.conds[c]
    ensures c in RunFrom(k, steps).conds && RunFrom(k, steps).conds[c] == []
    decreases |steps|
  {
    var k' := Apply(k, steps[0]);
    BroadcastTurn(k, steps[0], c, t);
    if BroadcastPc(k', c, t) {
      StepKeeps(k, steps[0]);
      PendingStep(k, steps[0], c);
      BroadcastRun(k', steps[1..], c, t);
      Carry(Pending(k, c), if Pops(k, steps[0], c) then [k.conds[c][0]] else [],
            if UpsRecord(k, steps[0], c) then [k.pc[k.cur].waiter] else [], Pending(k', c), k.conds[c], k'.conds[c],
            Upped(k', steps[1..], c));
    } else {
      assert steps[1..] == [];
    }
  }

  lemma Carry(a: seq<Tid>, p: seq<Tid>, u: seq<Tid>, b: seq<Tid>, q: seq<Tid>, q': seq<Tid>, us: seq<Tid>)
    requires a + p == u + b && p + q' == q && us == b + q'
    ensures u + us == a + q
  {
    assert u + (b + q') == u + b + q';
    assert a + p + q' == a + (p + q');
  }

  /** A call of cond_broadcast, interleaved with anything, ups every record it
      found on the list, first to last, and leaves the list empty. */
  lemma BroadcastSignalsAll(k: Kernel, steps: seq<Step>, c: nat)
    requires Inv(k) && Enabled(k, CallBroadcast(c)) && CanRun(Apply(k, CallBroadcast(c)), steps)
    requires Inside(Apply(k, CallBroadcast(c)), steps, c, k.cur)
    ensures var k1 := Apply(k, CallBroadcast(c)); var e := RunFrom(k1, steps);
            c in k.conds && Upped(k1, steps, c) == k.conds[c] && c in e.conds && e.conds[c] == []
  {
    StepKeeps(k, CallBroadcast(c));
    BroadcastStarts(k, c);
    BroadcastRun(Apply(k, CallBroadcast(c)), steps, c, k.cur);
  }

  /** The only way out of cond_signal is to up the record it popped. */
  lemma LeaveSignal(k: Kernel, step: Step, c: nat, t: Tid)
    requires SchedInv(k) && Enabled(k, step) && SignalPc(k, c, t) && !SignalPc(Apply(k, step), c, t)
    ensures k.cur == t && UpsRecord(k, step, c) && !BroadcastPc(Apply(k, step), c, t)
  {
    if t != k.cur || !step.SignalStep? {
      SignalUpStays(k, step, t);
    }
  }

  lemma {:induction false} SignalRun(k: Kernel, steps: seq<Step>, c: nat, t: Tid)
    requires Inv(k) && CanRun(k, steps) && SignalPc(k, c, t) && Inside(k, steps, c, t) && c in k.conds
    ensures Upped(k, steps, c) == [k.pc[t].waiter]
    ensures c in RunFrom(k, steps).conds && RunFrom(k, steps).conds[c] == k.conds[c]
    decreases |steps|
  {
    var k' := Apply(k, steps[0]);
    StepKeeps(k, steps[0]);
    assert PcOk(k, t) && PcOk(k, k.cur);
    OthersExcluded(k, steps[0], c, t);
    ListStep(k, steps[0], c);
    PendingStep(k, steps[0], c);
    PendingIs(k, c, t);
    if SignalPc(k', c, t) {
      PendingIs(k', c, t);
      SignalRun(k', steps[1..], c, t);
    } else {
      LeaveSignal(k, steps[0], c, t);
      assert steps[1..] == [];
    }
  }

  /** A call of cond_signal, interleaved with anything, releases exactly one record:
      the front one, which leaves the list. */
  lemma SignalReleasesOne(k: Kernel, steps: seq<Step>, c: nat)
    requires Inv(k) && Enabled(k, CallSignal(c)) && CanRun(Apply(k, CallSignal(c)), steps)
    requires c in k.conds && k.conds[c] != [] && Inside(Apply(k, CallSignal(c)), steps, c, k.cur)
    ensures var k1 := Apply(k, CallSignal(c)); var e := RunFrom(k1, steps);
            Upped(k1, steps, c) == [k.conds[c][0]] && c in e.conds && e.conds[c] == k.conds[c][1..]
  {
    StepKeeps(k, CallSignal(c));
    ListStep(k, CallSignal(c), c);
    SignalRun(Apply(k, CallSignal(c)), steps, c, k.cur);
  }
}
