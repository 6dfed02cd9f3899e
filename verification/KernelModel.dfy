/** The uniprocessor kernel as a transition system.

    A step is one stretch of code that no other thread and no interrupt can
    interleave with: an interrupts-off region of thread.c or synch.c, or one
    access to a field guarded by a lock.  Every thread carries a program
    counter saying where inside the primitives it stands. */
module KernelModel {
  import opened Common

  /** The address of a struct thread.  A freed page may become a new thread. */
  type Tid = nat

  /** Freed marks a struct thread whose page has gone back to the allocator. */
  datatype Status = Running | Ready | Blocked | Dying | Freed

  /** Semaphores: free-standing ones, the one inside each lock, and the private
      one each cond_wait call keeps on its thread's stack. */
  datatype Sem = UserSem(id: nat) | LockSem(lock: nat) | WaiterSem(owner: Tid)

  datatype Sema = Sema(value: nat, waiters: seq<Tid>)

  /** Who called lock_acquire or lock_release. */
  datatype Caller = Plain | InWait(cond: nat)

  datatype Pc =
    | User                                        // outside every primitive
    | Embryo(parent: Tid)                         // created, not yet unblocked
    | Creating(child: Tid)                        // thread_create, before thread_unblock
    | IdleStart | IdleUp | IdleLoop               // the three phases of idle()
    | SemaWait(id: nat)                           // in the loop of sema_down
    | LockWait(lock: nat, caller: Caller)         // same, below lock_acquire
    | LockGot(lock: nat, caller: Caller)          // down done, holder not yet written
    | LockGive(lock: nat, caller: Caller)         // holder cleared, sema_up to come
    | WaitPush(cond: nat)                         // cond_wait: private semaphore initialised
    | WaitRelease(cond: nat)                      // cond_wait: record queued
    | WaitDown(cond: nat)                         // cond_wait: lock released
    | WaitSleep(cond: nat)                        // cond_wait: in the loop of sema_down
    | WaitAcquire(cond: nat)                      // cond_wait: signalled
    | SignalUp(cond: nat, waiter: Tid, all: bool) // cond_signal: record popped
    | Broadcast(cond: nat)                        // head of the cond_broadcast loop

  const TIME_SLICE := 4

  /** The semaphore thread_start waits on for the idle thread. */
  const IDLE_STARTED := UserSem(0)

  datatype Kernel = Kernel(
    status: map<Tid, Status>,
    pc: map<Tid, Pc>,
    ready: seq<Tid>,
    cur: Tid,
    idle: Option<Tid>,
    ticks: nat,
    sems: map<Sem, Sema>,
    holder: map<nat, Option<Tid>>,
    conds: map<nat, seq<Tid>>,
    lockOf: map<nat, nat>,
    initial: Tid,
    boot: Tid)

  /** The semaphore in whose sema_down loop a thread stands, if any. */
  function WaitsOn(t: Tid, pc: Pc): Option<Sem> {
    match pc
    case SemaWait(id) => Some(UserSem(id))
    case LockWait(l, _) => Some(LockSem(l))
    case WaitSleep(_) => Some(WaiterSem(t))
    case _ => None
  }

  /** Where a thread goes once its sema_down has decremented the value. */
  function AfterDown(pc: Pc): Pc {
    match pc
    case LockWait(l, w) => LockGot(l, w)
    case WaitSleep(c) => WaitAcquire(c)
    case _ => User
  }

  // ----- thread.c

  /** The assertion of schedule that next_thread_to_run found a thread. */
  predicate CanSwitch(k: Kernel) {
    k.ready != [] || k.idle.Some?
  }

  /** schedule and thread_schedule_tail, once the running thread has left the
      RUNNING state. */
  function Switch(k: Kernel): Kernel
    requires k.cur in k.status && CanSwitch(k)
  {
    var next := if k.ready == [] then k.idle.value else k.ready[0];
    var ready := if k.ready == [] then [] else k.ready[1..];
    var reaped := if k.cur != next && k.status[k.cur] == Dying && k.cur != k.initial
                  then k.status[k.cur := Freed] else k.status;
    k.(ready := ready, cur := next, ticks := 0, status := reaped[next := Running])
  }

  function SetPc(k: Kernel, pc: Pc): Kernel {
    k.(pc := k.pc[k.cur := pc])
  }

  function SetStatus(k: Kernel, s: Status): Kernel {
    k.(status := k.status[k.cur := s])
  }

  /** The part of thread_yield before schedule. */
  function Requeue(k: Kernel): Kernel {
    var k1 := SetStatus(k, Ready);
    if k.idle == Some(k.cur) then k1 else k1.(ready := k.ready + [k.cur])
  }

  function Unblock(k: Kernel, t: Tid): Kernel {
    k.(ready := k.ready + [t], status := k.status[t := Ready])
  }

  /** thread_create: init_thread has put a BLOCKED thread on the page CHILD. */
  function Spawn(k: Kernel, child: Tid): Kernel {
    SetPc(k.(status := k.status[child := Blocked], pc := k.pc[child := Embryo(k.cur)]), Creating(child))
  }

  /** thread_create: the final thread_unblock. */
  function Admit(k: Kernel, child: Tid): Kernel {
    SetPc(Unblock(k.(pc := k.pc[child := User]), child), User)
  }

  // ----- synch.c

  function SemaUp(k: Kernel, s: Sem): Kernel
    requires s in k.sems
  {
    var sema := k.sems[s];
    if sema.waiters == [] then k.(sems := k.sems[s := sema.(value := sema.value + 1)])
    else Unblock(k, sema.waiters[0]).(
      sems := k.sems[s := Sema(sema.value + 1, sema.waiters[1..])])
  }

  /** The failing branch of the loop test in sema_down, before schedule. */
  function Enqueue(k: Kernel, s: Sem, waiting: Pc): Kernel
    requires s in k.sems
  {
    var sema := k.sems[s];
    SetStatus(SetPc(k, waiting), Blocked).(
      sems := k.sems[s := sema.(waiters := sema.waiters + [k.cur])])
  }

  function Decrement(k: Kernel, s: Sem): Kernel
    requires s in k.sems && k.sems[s].value > 0
  {
    k.(sems := k.sems[s := k.sems[s].(value := k.sems[s].value - 1)])
  }

  predicate CanDown(k: Kernel, s: Sem) {
    s in k.sems && (k.sems[s].value == 0 ==> CanSwitch(k))
  }

  /** One trip through the loop of sema_down, interrupts off: test, then either
      sleep or decrement and leave. */
  function Down(k: Kernel, s: Sem, waiting: Pc): Kernel
    requires k.cur in k.status && CanDown(k, s)
  {
    if k.sems[s].value == 0 then Switch(Enqueue(k, s, waiting))
    else SetPc(Decrement(k, s), AfterDown(waiting))
  }

  // ----- steps

  datatype Step =
    | Tick                        // timer interrupt: thread_tick and the yield on return
    | HandlerUp(id: nat)          // sema_up from an interrupt handler
    | TryDown(id: nat)            // sema_try_down, thread or handler
    | Yield
    | CreateBegin(child: Tid)     // thread_create up to init_thread
    | CreateEnd
    | Exit
    | IdleStep
    | Resume                      // a thread rescheduled inside sema_down tests again
    | CallDown(id: nat)
    | CallUp(id: nat)
    | CallAcquire(lock: nat)
    | CallTryAcquire(lock: nat)
    | SetHolder
    | CallRelease(lock: nat)
    | FinishRelease
    | CallWait(cond: nat)
    | WaitStep                    // the next statement of cond_wait
    | CallSignal(cond: nat)
    | CallBroadcast(cond: nat)
    | SignalStep                  // the next statement of cond_signal or cond_broadcast

  predicate ThreadStep(step: Step) {
    step.Tick? || step.Yield? || step.CreateBegin? || step.CreateEnd? || step.Exit? || step.IdleStep?
  }

  predicate SemaStep(step: Step) {
    step.HandlerUp? || step.TryDown? || step.Resume? || step.CallDown? || step.CallUp?
  }

  predicate LockStep(step: Step) {
    step.CallAcquire? || step.CallTryAcquire? || step.SetHolder? || step.CallRelease? || step.FinishRelease?
  }

  predicate CondStep(step: Step) {
    step.CallWait? || step.WaitStep? || step.CallSignal? || step.CallBroadcast? || step.SignalStep?
  }

  /** Interrupts are on exactly when the running thread is not inside sema_down. */
  predicate IntrOn(k: Kernel) {
    k.cur in k.pc && WaitsOn(k.cur, k.pc[k.cur]).None?
  }

  predicate HoldsLock(k: Kernel, l: nat) {
    l in k.holder && k.holder[l] == Some(k.cur)
  }

  predicate HoldsCond(k: Kernel, c: nat) {
    c in k.conds && c in k.lockOf && HoldsLock(k, k.lockOf[c])
  }

  /** What the source asserts or documents as a precondition of each call. */
  predicate Enabled(k: Kernel, step: Step) {
    k.cur in k.status && k.cur in k.pc &&
    var pc := k.pc[k.cur];
    match step
    case Tick => IntrOn(k)
    case HandlerUp(id) => IntrOn(k) && UserSem(id) in k.sems
    case TryDown(id) => IntrOn(k) && UserSem(id) in k.sems
    case Yield => pc == User
    case CreateBegin(child) => pc == User && (child in k.status ==> k.status[child] == Freed)
    case CreateEnd => pc.Creating? && pc.child in k.status
    case Exit => pc == User && CanSwitch(k)
    case IdleStep => pc == IdleStart || (pc == IdleUp && IDLE_STARTED in k.sems) || (pc == IdleLoop && CanSwitch(k))
    case Resume => WaitsOn(k.cur, pc).Some? && CanDown(k, WaitsOn(k.cur, pc).value)
    case CallDown(id) => pc == User && CanDown(k, UserSem(id))
    case CallUp(id) => pc == User && UserSem(id) in k.sems
    case CallAcquire(l) => pc == User && l in k.holder && CanDown(k, LockSem(l)) && !HoldsLock(k, l)
    case CallTryAcquire(l) => pc == User && l in k.holder && LockSem(l) in k.sems && !HoldsLock(k, l)
    case SetHolder => pc.LockGot?
    case CallRelease(l) => pc == User && HoldsLock(k, l)
    case FinishRelease => pc.LockGive? && LockSem(pc.lock) in k.sems
    case CallWait(c) => pc == User && HoldsCond(k, c)
    case WaitStep =>
      (match pc
       case WaitPush(c) => c in k.conds
       case WaitRelease(c) => HoldsCond(k, c)
       case WaitDown(c) => CanDown(k, WaiterSem(k.cur))
       case WaitAcquire(c) => c in k.lockOf && CanDown(k, LockSem(k.lockOf[c])) && !HoldsLock(k, k.lockOf[c])
       case _ => false)
    case CallSignal(c) => pc == User && HoldsCond(k, c)
    case CallBroadcast(c) => pc == User && HoldsCond(k, c)
    case SignalStep =>
      (pc.SignalUp? && WaiterSem(pc.waiter) in k.sems) || (pc.Broadcast? && HoldsCond(k, pc.cond))
  }

  function YieldNow(k: Kernel): Kernel
    requires k.cur in k.status
  {
    Switch(Requeue(k))
  }

  /** thread_tick followed by the yield-on-return test of intr_handler. */
  function TickNow(k: Kernel): Kernel
    requires k.cur in k.status
  {
    var k1 := k.(ticks := k.ticks + 1);
    if k1.ticks >= TIME_SLICE then YieldNow(k1) else k1
  }

  function PopWaiter(k: Kernel, c: nat, all: bool): Kernel
    requires c in k.conds
  {
    if k.conds[c] == [] then SetPc(k, User)
    else SetPc(k.(conds := k.conds[c := k.conds[c][1..]]), SignalUp(c, k.conds[c][0], all))
  }

  function IdleNow(k: Kernel): Kernel
    requires Enabled(k, IdleStep)
  {
    match k.pc[k.cur]
    case IdleStart => SetPc(k.(idle := Some(k.cur)), IdleUp)
    case IdleUp => SemaUp(SetPc(k, IdleLoop), IDLE_STARTED)
    case IdleLoop => Switch(SetStatus(k, Blocked))
  }

  function WaitNow(k: Kernel): Kernel
    requires Enabled(k, WaitStep)
  {
    match k.pc[k.cur]
    case WaitPush(c) => SetPc(k.(conds := k.conds[c := k.conds[c] + [k.cur]]), WaitRelease(c))
    case WaitRelease(c) =>
      var l := k.lockOf[c];
      SetPc(k.(holder := k.holder[l := None]), LockGive(l, InWait(c)))
    case WaitDown(c) => Down(k, WaiterSem(k.cur), WaitSleep(c))
    case WaitAcquire(c) => Down(k, LockSem(k.lockOf[c]), LockWait(k.lockOf[c], InWait(c)))
  }

  function Apply(k: Kernel, step: Step): Kernel
    requires Enabled(k, step)
  {
    var pc := k.pc[k.cur];
    match step
    case Tick => TickNow(k)
    case HandlerUp(id) => SemaUp(k, UserSem(id))
    case TryDown(id) => if k.sems[UserSem(id)].value > 0 then Decrement(k, UserSem(id)) else k
    case Yield => YieldNow(k)
    case CreateBegin(child) => Spawn(k, child)
    case CreateEnd => Admit(k, pc.child)
    case Exit => Switch(SetStatus(k, Dying))
    case IdleStep => IdleNow(k)
    case Resume => Down(k, WaitsOn(k.cur, pc).value, pc)
    case CallDown(id) => Down(k, UserSem(id), SemaWait(id))
    case CallUp(id) => SemaUp(k, UserSem(id))
    case CallAcquire(l) => Down(k, LockSem(l), LockWait(l, Plain))
    case CallTryAcquire(l) =>
      if k.sems[LockSem(l)].value > 0 then SetPc(Decrement(k, LockSem(l)), LockGot(l, Plain)) else k
    case SetHolder => SetPc(k.(holder := k.holder[pc.lock := Some(k.cur)]), User)
    case CallRelease(l) => SetPc(k.(holder := k.holder[l := None]), LockGive(l, Plain))
    case FinishRelease =>
      SemaUp(SetPc(k, if pc.caller.Plain? then User else WaitDown(pc.caller.cond)), LockSem(pc.lock))
    case CallWait(c) => SetPc(k.(sems := k.sems[WaiterSem(k.cur) := Sema(0, [])]), WaitPush(c))
    case WaitStep => WaitNow(k)
    case CallSignal(c) => PopWaiter(k, c, false)
    case CallBroadcast(c) => SetPc(k, Broadcast(c))
    case SignalStep =>
      if pc.SignalUp? then SemaUp(SetPc(k, if pc.all then Broadcast(pc.cond) else User), WaiterSem(pc.waiter))
      else PopWaiter(k, pc.cond, true)
  }

  /** thread_start has just created the idle thread: the initial thread runs,
      the idle thread is queued, every semaphore, lock and condition is fresh. */
  predicate Init(k: Kernel) {
    && k.initial != k.boot
    && k.cur == k.initial
    && k.status == map[k.initial := Running, k.boot := Ready]
    && k.pc == map[k.initial := User, k.boot := IdleStart]
    && k.ready == [k.boot]
    && k.idle == None
    && k.ticks < TIME_SLICE
    && IDLE_STARTED in k.sems
    && (forall s :: s in k.sems ==> k.sems[s].waiters == [] && !s.WaiterSem?)
    && (forall l :: l in k.holder ==> k.holder[l] == None && LockSem(l) in k.sems && k.sems[LockSem(l)].value == 1)
    && (forall c :: c in k.conds ==> k.conds[c] == [] && c in k.lockOf && k.lockOf[c] in k.holder)
  }

  /** A run: steps taken one after another, each one enabled. */
  ghost predicate CanRun(k: Kernel, steps: seq<Step>)
    decreases |steps|
  {
    steps == [] || (Enabled(k, steps[0]) && CanRun(Apply(k, steps[0]), steps[1..]))
  }

  ghost function RunFrom(k: Kernel, steps: seq<Step>): Kernel
    requires CanRun(k, steps)
    decreases |steps|
  {
    if steps == [] then k else RunFrom(Apply(k, steps[0]), steps[1..])
  }
}
