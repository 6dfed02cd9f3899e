/** Locks and condition variables of synch.c: one owner per lock, and every
    waiting record in exactly one place until its private semaphore is upped. */
module KernelMonitor {
  import opened Common
  import opened KernelModel

  function Val(k: Kernel, s: Sem): nat {
    if s in k.sems then k.sems[s].value else 0
  }

  // ----- locks

  /** Between the sema_down of lock_acquire and the sema_up of lock_release,
      outside the stretch where lock->holder names the thread. */
  predicate OwnerPc(pc: Pc, l: nat) {
    (pc.LockGot? || pc.LockGive?) && pc.lock == l
  }

  ghost predicate Owns(k: Kernel, l: nat, t: Tid) {
    (t in k.pc && OwnerPc(k.pc[t], l)) || (l in k.holder && k.holder[l] == Some(t))
  }

  ghost predicate Unowned(k: Kernel, l: nat) {
    forall t :: !Owns(k, l, t)
  }

  ghost predicate SoleOwner(k: Kernel, l: nat, o: Tid) {
    forall t :: Owns(k, l, t) <==> t == o
  }

  /** Semaphore value plus number of owners is one. */
  ghost predicate LockOk(k: Kernel, l: nat) {
    l in k.holder ==>
      LockSem(l) in k.sems &&
      ((Val(k, LockSem(l)) == 1 && Unowned(k, l)) ||
       (Val(k, LockSem(l)) == 0 && exists o: Tid :: SoleOwner(k, l, o)))
  }

  ghost predicate Locks(k: Kernel) {
    forall l :: LockOk(k, l)
  }

  lemma LockFrame(k: Kernel, k': Kernel, l: nat)
    requires LockOk(k, l)
    requires l in k'.holder ==> l in k.holder && k'.holder[l] == k.holder[l]
    requires LockSem(l) in k.sems ==> LockSem(l) in k'.sems && Val(k', LockSem(l)) == Val(k, LockSem(l))
    requires forall t :: (t in k.pc && OwnerPc(k.pc[t], l)) == (t in k'.pc && OwnerPc(k'.pc[t], l))
    ensures LockOk(k', l)
  {
    if l in k'.holder {
      assert forall t :: Owns(k', l, t) == Owns(k, l, t);
      if Val(k, LockSem(l)) == 0 {
        var o: Tid :| SoleOwner(k, l, o);
        assert SoleOwner(k', l, o);
      }
    }
  }

  // ----- condition variables

  /** In cond_wait, from queueing the record to leaving the private sema_down. */
  predicate Phase(pc: Pc, c: nat) {
    pc == WaitRelease(c) || pc == WaitDown(c) || pc == WaitSleep(c) ||
    (pc.LockGive? && pc.caller == InWait(c))
  }

  ghost predicate Holds(k: Kernel, c: nat, t: Tid) {
    c in k.conds && c in k.lockOf && k.lockOf[c] in k.holder && k.holder[k.lockOf[c]] == Some(t)
  }

  /** Some cond_signal has popped the record of W and not yet upped it. */
  ghost predicate BeingSignalled(k: Kernel, c: nat, w: Tid) {
    c in k.lockOf && k.lockOf[c] in k.holder && k.holder[k.lockOf[c]].Some? &&
    var p := k.holder[k.lockOf[c]].value;
    p in k.pc && k.pc[p].SignalUp? && k.pc[p].cond == c && k.pc[p].waiter == w
  }

  ghost predicate CallerOk(k: Kernel, l: nat, w: Caller) {
    w.InWait? ==> w.cond in k.conds && w.cond in k.lockOf && k.lockOf[w.cond] == l
  }

  /** A record is queued, or being signalled, or its semaphore has the token. */
  ghost predicate Accounted(k: Kernel, c: nat, w: Tid) {
    && c in k.conds
    && WaiterSem(w) in k.sems
    && Val(k, WaiterSem(w)) <= 1
    && (Val(k, WaiterSem(w)) == 0 ==> w in k.conds[c] || BeingSignalled(k, c, w))
  }

  ghost predicate Signalling(k: Kernel, c: nat, w: Tid) {
    c in k.conds && w in k.pc && Phase(k.pc[w], c) && w !in k.conds[c] && Val(k, WaiterSem(w)) == 0
  }

  ghost predicate LocksReady(k: Kernel, c: nat) {
    c in k.conds && c in k.lockOf && k.lockOf[c] in k.holder
  }

  ghost predicate PcOk(k: Kernel, t: Tid)
    requires t in k.pc
  {
    match k.pc[t]
    case LockWait(l, w) => l in k.holder && k.holder[l] != Some(t) && CallerOk(k, l, w)
    case LockGot(l, w) => l in k.holder && k.holder[l] == None && CallerOk(k, l, w)
    case LockGive(l, w) =>
      l in k.holder && k.holder[l] == None && CallerOk(k, l, w) && (w.InWait? ==> Accounted(k, w.cond, t))
    case WaitPush(c) => Holds(k, c, t) && WaiterSem(t) in k.sems && Val(k, WaiterSem(t)) == 0
    case WaitRelease(c) => Holds(k, c, t) && Accounted(k, c, t)
    case WaitDown(c) => LocksReady(k, c) && k.holder[k.lockOf[c]] != Some(t) && Accounted(k, c, t)
    case WaitSleep(c) => LocksReady(k, c) && k.holder[k.lockOf[c]] != Some(t) && Accounted(k, c, t)
    case WaitAcquire(c) => LocksReady(k, c) && k.holder[k.lockOf[c]] != Some(t)
    case SignalUp(c, w, _) => Holds(k, c, t) && Signalling(k, c, w)
    case Broadcast(c) => Holds(k, c, t)
    case _ => true
  }

  ghost predicate Pcs(k: Kernel) {
    forall t :: t in k.pc ==> PcOk(k, t)
  }

  /** cond->waiters holds live records only, each once, none with a token. */
  ghost predicate CondOk(k: Kernel, c: nat) {
    c in k.conds ==>
      c in k.lockOf && k.lockOf[c] in k.holder && NoDup(k.conds[c]) &&
      forall w :: w in k.conds[c] ==> w in k.pc && Phase(k.pc[w], c) && Val(k, WaiterSem(w)) == 0
  }

  ghost predicate Conds(k: Kernel) {
    forall c :: CondOk(k, c)
  }

  ghost predicate MonitorInv(k: Kernel) {
    Locks(k) && Pcs(k) && Conds(k)
  }

  // ----- what monitors do not see

  /** Threads that stand where no lock or condition is involved. */
  predicate Neutral(pc: Pc) {
    pc.User? || pc.Embryo? || pc.Creating? || pc.IdleStart? || pc.IdleUp? || pc.IdleLoop? || pc.SemaWait?
  }

  /** Same monitors: program counters differ only among neutral ones. */
  ghost predicate SameMonitors(k: Kernel, k': Kernel) {
    && k'.holder == k.holder && k'.conds == k.conds && k'.lockOf == k.lockOf
    && k'.sems.Keys == k.sems.Keys
    && (forall s :: s in k.sems && !s.UserSem? ==> k'.sems[s].value == k.sems[s].value)
    && (forall t :: t in k.pc ==> t in k'.pc && (k'.pc[t] == k.pc[t] || (Neutral(k.pc[t]) && Neutral(k'.pc[t]))))
    && (forall t :: t in k'.pc && t !in k.pc ==> Neutral(k'.pc[t]))
  }

  lemma NeutralKeeps(k: Kernel, k': Kernel)
    requires MonitorInv(k) && SameMonitors(k, k')
    ensures MonitorInv(k')
  {
    forall l ensures LockOk(k', l) {
      LockFrame(k, k', l);
    }
    forall t | t in k'.pc ensures PcOk(k', t) {
      if t in k.pc {
        assert PcOk(k, t);
      }
    }
    forall c ensures CondOk(k', c) {
      assert CondOk(k, c);
    }
  }
}
