/** Each statement of synch.c that touches a lock or a condition keeps the
    monitor invariant. */
module KernelMoves {
  import opened Common
  import opened KernelModel
  import opened KernelMonitor

  function SetVal(k: Kernel, s: Sem, v: nat): Kernel
    requires s in k.sems
  {
    k.(sems := k.sems[s := k.sems[s].(value := v)])
  }

  /** Neither owning a lock, nor registered with a condition, nor signalling. */
  predicate Light(pc: Pc) {
    !pc.LockGot? && !pc.LockGive? && !pc.SignalUp? && !pc.WaitRelease? && !pc.WaitDown? && !pc.WaitSleep?
  }

  lemma LightMove(k: Kernel, pc: Pc)
    requires MonitorInv(k) && k.cur in k.pc && Light(k.pc[k.cur]) && Light(pc)
    requires PcOk(SetPc(k, pc), k.cur)
    ensures MonitorInv(SetPc(k, pc))
  {
    var k' := SetPc(k, pc);
    forall l ensures LockOk(k', l) {
      LockFrame(k, k', l);
    }
    forall t | t in k'.pc ensures PcOk(k', t) {
      assert PcOk(k, t);
    }
    forall c ensures CondOk(k', c) {
      assert CondOk(k, c);
    }
  }

  /** cond_wait goes to sleep on its private semaphore. */
  lemma SleepMove(k: Kernel, c: nat)
    requires MonitorInv(k) && k.cur in k.pc && (k.pc[k.cur] == WaitDown(c) || k.pc[k.cur] == WaitSleep(c))
    ensures MonitorInv(SetPc(k, WaitSleep(c)))
  {
    var k' := SetPc(k, WaitSleep(c));
    forall l ensures LockOk(k', l) {
      LockFrame(k, k', l);
    }
    forall t | t in k'.pc ensures PcOk(k', t) {
      assert PcOk(k, t);
    }
    forall d ensures CondOk(k', d) {
      assert CondOk(k, d);
    }
  }

  /** The sema_down of lock_acquire takes the token: the lock was unowned. */
  lemma GotMove(k: Kernel, l: nat, w: Caller)
    requires MonitorInv(k) && k.cur in k.pc && Light(k.pc[k.cur]) && l in k.holder && CallerOk(k, l, w)
    requires Val(k, LockSem(l)) > 0
    ensures LockSem(l) in k.sems
    ensures MonitorInv(SetPc(SetVal(k, LockSem(l), Val(k, LockSem(l)) - 1), LockGot(l, w)))
  {
    assert LockOk(k, l);
    assert !Owns(k, l, k.cur);
    var k' := SetPc(SetVal(k, LockSem(l), Val(k, LockSem(l)) - 1), LockGot(l, w));
    assert k.holder[l] == None by {
      if k.holder[l].Some? { assert Owns(k, l, k.holder[l].value); }
    }
    forall m ensures LockOk(k', m) {
      if m == l {
        assert forall t :: Owns(k', l, t) ==> Owns(k, l, t) || t == k.cur;
        assert SoleOwner(k', l, k.cur);
      } else {
        LockFrame(k, k', m);
      }
    }
    forall t | t in k'.pc ensures PcOk(k', t) {
      assert PcOk(k, t);
    }
    forall c ensures CondOk(k', c) {
      assert CondOk(k, c);
    }
  }

  /** The owner moves between the stages of owning a lock. */
  lemma OwnerStays(k: Kernel, k': Kernel, l: nat)
    requires LockOk(k, l) && l in k.holder && l in k'.holder && Owns(k, l, k.cur) && Owns(k', l, k.cur)
    requires LockSem(l) in k'.sems && Val(k', LockSem(l)) == Val(k, LockSem(l))
    requires forall t :: t != k.cur && t in k'.pc && OwnerPc(k'.pc[t], l) ==> t in k.pc && OwnerPc(k.pc[t], l)
    requires k'.holder[l] == None || k'.holder[l] == Some(k.cur)
    ensures LockOk(k', l)
  {
    var o: Tid :| SoleOwner(k, l, o);
    forall t ensures Owns(k', l, t) <==> t == k.cur {
      if t != k.cur {
        assert Owns(k', l, t) ==> Owns(k, l, t);
      }
    }
    assert SoleOwner(k', l, k.cur);
  }

  /** Two owners of one lock are one thread. */
  lemma OwnerUnique(k: Kernel, l: nat, t: Tid)
    requires LockOk(k, l) && l in k.holder && Owns(k, l, t) && Owns(k, l, k.cur)
    ensures t == k.cur
  {
    if Val(k, LockSem(l)) == 0 {
      var o: Tid :| SoleOwner(k, l, o);
    }
  }

  /** lock_acquire writes the holder. */
  lemma HolderMove(k: Kernel)
    requires MonitorInv(k) && k.cur in k.pc && k.pc[k.cur].LockGot?
    ensures var l := k.pc[k.cur].lock; MonitorInv(SetPc(k.(holder := k.holder[l := Some(k.cur)]), User))
  {
    var l := k.pc[k.cur].lock;
    var k' := SetPc(k.(holder := k.holder[l := Some(k.cur)]), User);
    assert PcOk(k, k.cur) && LockOk(k, l) && Owns(k, l, k.cur);
    forall m ensures LockOk(k', m) {
      if m == l {
        OwnerStays(k, k', l);
      } else {
        LockFrame(k, k', m);
      }
    }
    forall t | t in k'.pc ensures PcOk(k', t) {
      assert PcOk(k, t);
      if t != k.cur && OwnerPc(k.pc[t], l) {
        OwnerUnique(k, l, t);
      }
    }
    forall c ensures CondOk(k', c) {
      assert CondOk(k, c);
    }
  }

  /** lock_release clears the holder. */
  lemma ReleaseMove(k: Kernel, l: nat, w: Caller)
    requires MonitorInv(k) && k.cur in k.pc && l in k.holder && k.holder[l] == Some(k.cur)
    requires (k.pc[k.cur] == User && w == Plain) ||
             (w.InWait? && k.pc[k.cur] == WaitRelease(w.cond) && CallerOk(k, l, w))
    ensures MonitorInv(SetPc(k.(holder := k.holder[l := None]), LockGive(l, w)))
  {
    var k' := SetPc(k.(holder := k.holder[l := None]), LockGive(l, w));
    assert PcOk(k, k.cur) && LockOk(k, l) && Owns(k, l, k.cur);
    forall m ensures LockOk(k', m) {
      if m == l {
        OwnerStays(k, k', l);
      } else {
        LockFrame(k, k', m);
      }
    }
    forall t | t in k'.pc ensures PcOk(k', t) {
      assert PcOk(k, t);
    }
    forall c ensures CondOk(k', c) {
      assert CondOk(k, c);
    }
  }

  function GiveNow(k: Kernel): Kernel
    requires k.cur in k.pc && k.pc[k.cur].LockGive? && LockSem(k.pc[k.cur].lock) in k.sems
  {
    var pc := k.pc[k.cur];
    var s := LockSem(pc.lock);
    SetVal(SetPc(k, if pc.caller.Plain? then User else WaitDown(pc.caller.cond)), s, Val(k, s) + 1)
  }

  lemma GiveLocks(k: Kernel, l: nat)
    requires Locks(k) && k.cur in k.pc && k.pc[k.cur].LockGive? && LockSem(k.pc[k.cur].lock) in k.sems
    requires PcOk(k, k.cur)
    ensures LockOk(GiveNow(k), l)
  {
    assert LockOk(k, l);
    if l == k.pc[k.cur].lock {
      assert Owns(k, l, k.cur);
      var o: Tid :| SoleOwner(k, l, o);
      assert forall t :: Owns(GiveNow(k), l, t) ==> Owns(k, l, t) && t != k.cur;
    } else {
      LockFrame(k, GiveNow(k), l);
    }
  }

  /** The sema_up of lock_release returns the token. */
  lemma GiveMove(k: Kernel)
    requires MonitorInv(k) && k.cur in k.pc && k.pc[k.cur].LockGive?
    ensures LockSem(k.pc[k.cur].lock) in k.sems && MonitorInv(GiveNow(k))
  {
    assert PcOk(k, k.cur) && LockOk(k, k.pc[k.cur].lock);
    var k' := GiveNow(k);
    forall l ensures LockOk(k', l) {
      GiveLocks(k, l);
    }
    forall t | t in k'.pc ensures PcOk(k', t) {
      assert PcOk(k, t);
    }
    forall c ensures CondOk(k', c) {
      assert CondOk(k, c);
    }
  }

  // ----- condition variables

  /** cond_wait initialises its private semaphore. */
  lemma WaitCallMove(k: Kernel, c: nat)
    requires MonitorInv(k) && k.cur in k.pc && k.pc[k.cur] == User && Holds(k, c, k.cur)
    ensures MonitorInv(SetPc(k.(sems := k.sems[WaiterSem(k.cur) := Sema(0, [])]), WaitPush(c)))
  {
    var k' := SetPc(k.(sems := k.sems[WaiterSem(k.cur) := Sema(0, [])]), WaitPush(c));
    forall l ensures LockOk(k', l) {
      LockFrame(k, k', l);
    }
    forall t | t in k'.pc ensures PcOk(k', t) {
      assert PcOk(k, t);
    }
    forall d ensures CondOk(k', d) {
      assert CondOk(k, d);
    }
  }

  /** cond_wait queues its record. */
  lemma PushMove(k: Kernel, c: nat)
    requires MonitorInv(k) && k.cur in k.pc && k.pc[k.cur] == WaitPush(c)
    ensures c in k.conds && MonitorInv(SetPc(k.(conds := k.conds[c := k.conds[c] + [k.cur]]), WaitRelease(c)))
  {
    assert PcOk(k, k.cur) && CondOk(k, c);
    var k' := SetPc(k.(conds := k.conds[c := k.conds[c] + [k.cur]]), WaitRelease(c));
    NoDupPush(k.conds[c], k.cur);
    forall l ensures LockOk(k', l) {
      LockFrame(k, k', l);
    }
    forall t | t in k'.pc ensures PcOk(k', t) {
      assert PcOk(k, t);
    }
    forall d ensures CondOk(k', d) {
      assert CondOk(k, d);
    }
  }

  /** A signalled cond_wait takes the token of its private semaphore. */
  lemma SignalledMove(k: Kernel, c: nat)
    requires MonitorInv(k) && k.cur in k.pc && (k.pc[k.cur] == WaitDown(c) || k.pc[k.cur] == WaitSleep(c))
    requires Val(k, WaiterSem(k.cur)) > 0
    ensures var s := WaiterSem(k.cur);
            s in k.sems && MonitorInv(SetPc(SetVal(k, s, Val(k, s) - 1), WaitAcquire(c)))
  {
    var s := WaiterSem(k.cur);
    var k' := SetPc(SetVal(k, s, Val(k, s) - 1), WaitAcquire(c));
    assert PcOk(k, k.cur);
    forall l ensures LockOk(k', l) {
      LockFrame(k, k', l);
    }
    forall t | t in k'.pc ensures PcOk(k', t) {
      assert PcOk(k, t);
    }
    forall d ensures CondOk(k', d) {
      assert CondOk(k, d);
    }
  }

  /** cond_signal pops the oldest record. */
  lemma PopMove(k: Kernel, c: nat, all: bool)
    requires MonitorInv(k) && k.cur in k.pc && Light(k.pc[k.cur]) && Holds(k, c, k.cur)
    ensures MonitorInv(PopWaiter(k, c, all))
  {
    if k.conds[c] == [] {
      LightMove(k, User);
    } else {
      PopFrontMove(k, c, all);
    }
  }

  lemma PopFrontMove(k: Kernel, c: nat, all: bool)
    requires MonitorInv(k) && k.cur in k.pc && Light(k.pc[k.cur]) && Holds(k, c, k.cur) && k.conds[c] != []
    ensures MonitorInv(PopWaiter(k, c, all))
  {
    var w := k.conds[c][0];
    var k' := PopWaiter(k, c, all);
    assert CondOk(k, c) && w in k.conds[c];
    NoDupTail(k.conds[c]);
    forall l ensures LockOk(k', l) {
      LockFrame(k, k', l);
    }
    forall t | t in k'.pc ensures PcOk(k', t) {
      assert PcOk(k, t);
    }
    forall d ensures CondOk(k', d) {
      assert CondOk(k, d);
    }
  }

  function SignalNow(k: Kernel): Kernel
    requires k.cur in k.pc && k.pc[k.cur].SignalUp? && WaiterSem(k.pc[k.cur].waiter) in k.sems
  {
    var pc := k.pc[k.cur];
    var s := WaiterSem(pc.waiter);
    SetVal(SetPc(k, if pc.all then Broadcast(pc.cond) else User), s, Val(k, s) + 1)
  }

  /** cond_signal ups the private semaphore of the record it popped. */
  lemma SignalMove(k: Kernel)
    requires MonitorInv(k) && k.cur in k.pc && k.pc[k.cur].SignalUp?
    ensures WaiterSem(k.pc[k.cur].waiter) in k.sems && MonitorInv(SignalNow(k))
  {
    assert PcOk(k, k.cur) && PcOk(k, k.pc[k.cur].waiter);
    var k' := SignalNow(k);
    forall l ensures LockOk(k', l) {
      LockFrame(k, k', l);
    }
    forall t | t in k'.pc ensures PcOk(k', t) {
      SignalPc(k, t);
    }
    forall d ensures CondOk(k', d) {
      assert CondOk(k, d);
    }
  }

  lemma SignalPc(k: Kernel, t: Tid)
    requires Pcs(k) && k.cur in k.pc && k.pc[k.cur].SignalUp? && WaiterSem(k.pc[k.cur].waiter) in k.sems
    requires t in k.pc
    ensures PcOk(SignalNow(k), t)
  {
    assert PcOk(k, k.cur) && PcOk(k, k.pc[k.cur].waiter) && PcOk(k, t);
  }
}
