/** Semaphores and locks over the thread system (os161/kern/thread/synch.c), as a machine that can be stepped
    in any order. With interrupts off a call runs alone until it sleeps, so a call is one step, and a sleeper
    that is dispatched again takes another step that goes round its while loop.  `C` is whatever a thread does
    outside these calls. */
module Synch {
  import opened Sched

  datatype Addr = OnSem(s: nat) | OnLock(l: nat)

  /** Where a thread is: outside, or asleep (or about to look again) inside P or lock_acquire. */
  datatype Pc<C> = Run(c: C) | InP(s: nat, after: C) | InAcquire(l: nat, after: C)

  datatype Sem = Sem(count: nat)

  /** `free` is lock_ == 1. */
  datatype Lock = Lock(free: bool, owner: Option<nat>)

  datatype K<C> = K(sched: Sched<Addr>, pc: map<nat, Pc<C>>, sems: seq<Sem>, locks: seq<Lock>)

  // ---------------------------------------------------------------- the calls

  function PutSem<C>(k: K<C>, s: nat, sem: Sem): K<C>
    requires s < |k.sems|
  {
    k.(sems := k.sems[s := sem])
  }

  function PutPc<C>(k: K<C>, t: nat, p: Pc<C>): K<C> {
    k.(pc := k.pc[t := p])
  }

  /** One turn of P by the current thread, which then goes on with `after`. */
  function DoP<C>(k: K<C>, s: nat, after: C): K<C>
    requires k.sched.cur.Some? && s < |k.sems|
  {
    var t, sem := k.sched.cur.value, k.sems[s];
    if sem.count == 0 then PutPc(k.(sched := Asleep(k.sched, OnSem(s))), t, InP(s, after))
    else PutPc(PutSem(k, s, Sem(sem.count - 1)), t, Run(after))
  }

  /** V, by a thread or by an interrupt handler. */
  function DoV<C>(k: K<C>, s: nat): K<C>
    requires s < |k.sems| && forall t :: t in k.sched.sleepers ==> t in k.sched.addr
  {
    var sem := k.sems[s];
    PutSem(k.(sched := Woken(k.sched, OnSem(s))), s, Sem(sem.count + 1))
  }

  /** One turn of lock_acquire's loop. */
  function TryLock<C>(k: K<C>, l: nat, after: C): K<C>
    requires k.sched.cur.Some? && l < |k.locks|
  {
    var t, lock := k.sched.cur.value, k.locks[l];
    if !lock.free then PutPc(k.(sched := Asleep(k.sched, OnLock(l))), t, InAcquire(l, after))
    else PutPc(k.(locks := k.locks[l := Lock(false, Some(t))]), t, Run(after))
  }

  /** lock_release: its check of the owner assigns instead of comparing, so anybody may release. */
  function DoRelease<C>(k: K<C>, l: nat): K<C>
    requires k.sched.cur.Some? && l < |k.locks| && forall t :: t in k.sched.sleepers ==> t in k.sched.addr
  {
    k.(locks := k.locks[l := Lock(true, None)], sched := Woken(k.sched, OnLock(l)))
  }

  /** A thread that comes out of mi_switch removes the zombies; a new thread, which starts elsewhere, does not. */
  function Dispatched(s: Sched<Addr>, sweep: bool): Sched<Addr>
    requires s.cur.None? && s.ready != []
  {
    if sweep then Exorcised(SwitchIn(s)) else SwitchIn(s)
  }

  /** The head of the run queue goes on: inside its loop if it was in one. */
  function Resumed<C>(k: K<C>, sweep: bool): K<C>
    requires k.sched.cur.None? && k.sched.ready != [] && k.sched.ready[0] in k.pc
    requires match k.pc[k.sched.ready[0]]
             case Run(_) => true
             case InP(s, _) => s < |k.sems|
             case InAcquire(l, _) => l < |k.locks|
  {
    var j := k.(sched := Dispatched(k.sched, sweep));
    match k.pc[k.sched.ready[0]]
    case Run(_) => j
    case InP(s, after) => DoP(j, s, after)
    case InAcquire(l, after) => TryLock(j, l, after)
  }

  // ---------------------------------------------------------------- what every step keeps

  ghost predicate PcOk<C>(k: K<C>, p: Pc<C>) {
    match p
    case Run(_) => true
    case InP(s, _) => s < |k.sems|
    case InAcquire(l, _) => l < |k.locks|
  }

  /** A sleeper is inside the call it sleeps in, and what it waits for is not there: no wakeup is lost. */
  ghost predicate SleeperOk<C>(k: K<C>, t: nat) {
    && t in k.sched.addr && t in k.pc && PcOk(k, k.pc[t])
    && match k.pc[t]
       case Run(_) => false
       case InP(s, _) => k.sched.addr[t] == OnSem(s) && k.sems[s].count == 0
       case InAcquire(l, _) => k.sched.addr[t] == OnLock(l) && !k.locks[l].free
  }

  /** lock_ is 0 just when there is an owner. */
  ghost predicate LockOk(lock: Lock) {
    lock.free <==> lock.owner.None?
  }

  ghost predicate Ok<C>(k: K<C>) {
    && Wf(k.sched)
    && (forall t :: t in Everyone(k.sched) ==> t in k.pc && PcOk(k, k.pc[t]))
    && (k.sched.cur.Some? ==> k.pc[k.sched.cur.value].Run?)
    && (forall t :: t in k.sched.sleepers ==> SleeperOk(k, t))
    && (forall l :: 0 <= l < |k.locks| ==> LockOk(k.locks[l]))
  }

  lemma CurKnown<C>(k: K<C>)
    requires Ok(k) && k.sched.cur.Some?
    ensures k.sched.cur.value in Everyone(k.sched) && k.sched.cur.value in k.pc
    ensures k.sched.cur.value !in k.sched.sleepers && k.sched.cur.value !in k.sched.ready
  {
    var t := k.sched.cur.value;
    assert t in multiset(Current(k.sched));
    assert Everyone(k.sched)[t] == 1;
  }

  lemma SleepKeeps<C>(k: K<C>, a: Addr, p: Pc<C>)
    requires Ok(k) && k.sched.cur.Some? && PcOk(k, p)
    requires match p
             case Run(_) => false
             case InP(s, _) => a == OnSem(s) && k.sems[s].count == 0
             case InAcquire(l, _) => a == OnLock(l) && !k.locks[l].free
    ensures Ok(PutPc(k.(sched := Asleep(k.sched, a)), k.sched.cur.value, p))
  {
    hide Wf, Everyone;
    CurKnown(k);
    AsleepKeeps(k.sched, a);
    var t, j := k.sched.cur.value, PutPc(k.(sched := Asleep(k.sched, a)), k.sched.cur.value, p);
    forall u | u in j.sched.sleepers
      ensures SleeperOk(j, u)
    {
      if u != t {
        assert SleeperOk(k, u);
      }
    }
  }

  lemma DoPKeeps<C>(k: K<C>, s: nat, after: C)
    requires Ok(k) && k.sched.cur.Some? && s < |k.sems|
    ensures Ok(DoP(k, s, after))
  {
    hide Wf, Everyone;
    var t, sem := k.sched.cur.value, k.sems[s];
    CurKnown(k);
    if sem.count == 0 {
      SleepKeeps(k, OnSem(s), InP(s, after));
    } else {
      var j := DoP(k, s, after);
      forall u | u in j.sched.sleepers
        ensures SleeperOk(j, u)
      {
        assert SleeperOk(k, u);
      }
    }
  }

  lemma WakeKeeps<C>(k: K<C>, a: Addr)
    requires Ok(k)
    ensures Ok(k.(sched := Woken(k.sched, a)))
    ensures forall t :: t in Woken(k.sched, a).sleepers <==> t in k.sched.sleepers && k.sched.addr[t] != a
  {
    hide Wf, Everyone, Picked;
    WfSleepers(k.sched);
    WokenKeeps(k.sched, a);
    var j := k.(sched := Woken(k.sched, a));
    forall u | u in j.sched.sleepers
      ensures SleeperOk(j, u)
    {
      assert SleeperOk(k, u);
    }
  }

  lemma WfSleepers(s: Sched<Addr>)
    requires Wf(s)
    ensures forall t :: t in s.sleepers ==> t in s.addr
  {
  }

  lemma DoVKeeps<C>(k: K<C>, s: nat)
    requires Ok(k) && s < |k.sems|
    ensures Ok(DoV(k, s))
  {
    hide Wf, Everyone, Picked;
    WfSleepers(k.sched);
    WakeKeeps(k, OnSem(s));
    var m, j := k.(sched := Woken(k.sched, OnSem(s))), DoV(k, s);
    forall u | u in j.sched.sleepers
      ensures SleeperOk(j, u)
    {
      assert SleeperOk(m, u);
    }
  }

  lemma TryLockKeeps<C>(k: K<C>, l: nat, after: C)
    requires Ok(k) && k.sched.cur.Some? && l < |k.locks|
    ensures Ok(TryLock(k, l, after))
  {
    hide Wf, Everyone;
    CurKnown(k);
    if !k.locks[l].free {
      SleepKeeps(k, OnLock(l), InAcquire(l, after));
    } else {
      var j := TryLock(k, l, after);
      forall u | u in j.sched.sleepers
        ensures SleeperOk(j, u)
      {
        assert SleeperOk(k, u);
      }
    }
  }

  lemma DoReleaseKeeps<C>(k: K<C>, l: nat)
    requires Ok(k) && k.sched.cur.Some? && l < |k.locks|
    ensures Ok(DoRelease(k, l))
  {
    hide Wf, Everyone, Picked;
    WfSleepers(k.sched);
    WakeKeeps(k, OnLock(l));
    var m, j := k.(sched := Woken(k.sched, OnLock(l))), DoRelease(k, l);
    forall u | u in j.sched.sleepers
      ensures SleeperOk(j, u)
    {
      assert SleeperOk(m, u);
    }
  }

  lemma ReadyKnown<C>(k: K<C>)
    requires Ok(k) && k.sched.ready != []
    ensures k.sched.ready[0] in k.pc && PcOk(k, k.pc[k.sched.ready[0]])
  {
    assert k.sched.ready[0] in Everyone(k.sched);
  }

  /** The same, with everything but the thread's own place known to be in order. */
  ghost predicate OkBut<C>(k: K<C>) {
    && Wf(k.sched)
    && (forall t :: t in Everyone(k.sched) ==> t in k.pc && PcOk(k, k.pc[t]))
    && (forall t :: t in k.sched.sleepers ==> SleeperOk(k, t))
    && (forall l :: 0 <= l < |k.locks| ==> LockOk(k.locks[l]))
  }

  lemma DispatchKeeps<C>(k: K<C>, sweep: bool)
    requires Ok(k) && k.sched.cur.None? && k.sched.ready != []
    ensures OkBut(k.(sched := Dispatched(k.sched, sweep)))
  {
    hide Wf, Everyone;
    SwitchInKeeps(k.sched);
    ExorcisedKeeps(SwitchIn(k.sched));
    var j := k.(sched := Dispatched(k.sched, sweep));
    StillThere(k.sched, sweep);
    forall u | u in j.sched.sleepers
      ensures SleeperOk(j, u)
    {
      assert SleeperOk(k, u);
    }
  }

  lemma ResumedKeeps<C>(k: K<C>, sweep: bool)
    requires Ok(k) && k.sched.cur.None? && k.sched.ready != []
    ensures k.sched.ready[0] in k.pc && PcOk(k, k.pc[k.sched.ready[0]])
    ensures Ok(Resumed(k, sweep))
  {
    hide Ok, OkBut, Wf, Everyone;
    ReadyKnown(k);
    DispatchKeeps(k, sweep);
    var t := k.sched.ready[0];
    var j := k.(sched := Dispatched(k.sched, sweep));
    match k.pc[t]
    case Run(c) =>
      Settle(j, c);
      assert PutPc(j, t, Run(c)) == j;
    case InP(s, after) =>
      Settle(j, after);
      DoPKeeps(PutPc(j, t, Run(after)), s, after);
      assert DoP(PutPc(j, t, Run(after)), s, after) == DoP(j, s, after);
    case InAcquire(l, after) =>
      Settle(j, after);
      TryLockKeeps(PutPc(j, t, Run(after)), l, after);
      assert TryLock(PutPc(j, t, Run(after)), l, after) == TryLock(j, l, after);
  }

  lemma StillThere(s: Sched<Addr>, sweep: bool)
    requires Wf(s) && s.cur.None? && s.ready != []
    ensures forall t :: t in Everyone(Dispatched(s, sweep)) ==> t in Everyone(s)
  {
    SwitchInKeeps(s);
  }

  /** A dispatched thread counts as running before it looks at its loop condition. */
  lemma Settle<C>(k: K<C>, c: C)
    requires OkBut(k) && k.sched.cur.Some?
    ensures Ok(PutPc(k, k.sched.cur.value, Run(c)))
  {
    var t, j := k.sched.cur.value, PutPc(k, k.sched.cur.value, Run(c));
    assert t in multiset(Current(k.sched)) && Everyone(k.sched)[t] == 1;
    forall u | u in j.sched.sleepers
      ensures SleeperOk(j, u)
    {
      assert SleeperOk(k, u);
    }
  }

  // ---------------------------------------------------------------- whole runs

  datatype Action<C> =
    | P(s: nat, after: C)
    | V(s: nat)
    | Acquire(l: nat, after: C)
    | Release(l: nat)
    | Become(c: C)
    | Preempt
    | Fork(t: nat, c: C)
    | Exit
    | Dispatch(sweep: bool)

  /** Calls are made by the current thread, V also by interrupt handlers while the processor is idle.
      lock_acquire of a lock one owns is a panic, which ends the run. */
  ghost predicate Enabled<C>(k: K<C>, a: Action<C>) {
    match a
    case P(s, _) => k.sched.cur.Some? && s < |k.sems|
    case V(s) => s < |k.sems|
    case Acquire(l, _) => k.sched.cur.Some? && l < |k.locks| && k.locks[l].owner != k.sched.cur
    case Release(l) => k.sched.cur.Some? && l < |k.locks|
    case Become(_) => k.sched.cur.Some?
    case Preempt => k.sched.cur.Some?
    case Fork(t, _) => k.sched.cur.Some? && t !in Everyone(k.sched)
    case Exit => k.sched.cur.Some?
    case Dispatch(sweep) => k.sched.cur.None? && k.sched.ready != []
  }

  ghost function Next<C>(k: K<C>, a: Action<C>): K<C>
    requires Ok(k) && Enabled(k, a)
  {
    ReadyOk(k);
    match a
    case P(s, after) => DoP(k, s, after)
    case V(s) => DoV(k, s)
    case Acquire(l, after) => TryLock(k, l, after)
    case Release(l) => DoRelease(k, l)
    case Become(c) => PutPc(k, k.sched.cur.value, Run(c))
    case Preempt => k.(sched := SwitchOut(k.sched, Ready))
    case Fork(t, c) => PutPc(k.(sched := Forked(k.sched, t)), t, Run(c))
    case Exit => k.(sched := Exited(k.sched))
    case Dispatch(sweep) => Resumed(k, sweep)
  }

  lemma ReadyOk<C>(k: K<C>)
    requires Ok(k)
    ensures forall t :: t in k.sched.sleepers ==> t in k.sched.addr
    ensures k.sched.ready != [] ==> k.sched.ready[0] in k.pc && PcOk(k, k.pc[k.sched.ready[0]])
    ensures k.sched.cur.Some? ==> k.sched.num > 0
  {
    if k.sched.ready != [] {
      ReadyKnown(k);
    }
  }

  lemma BecomeKeeps<C>(k: K<C>, c: C)
    requires Ok(k) && k.sched.cur.Some?
    ensures Ok(PutPc(k, k.sched.cur.value, Run(c)))
  {
    hide Wf, Everyone;
    CurKnown(k);
    var j := PutPc(k, k.sched.cur.value, Run(c));
    forall u | u in j.sched.sleepers
      ensures SleeperOk(j, u)
    {
      assert SleeperOk(k, u);
    }
  }

  lemma MoveKeeps<C>(k: K<C>, s: Sched<Addr>)
    requires Ok(k) && Wf(s) && Everyone(s) == Everyone(k.sched) && s.sleepers == k.sched.sleepers
      && s.addr == k.sched.addr
    requires s.cur.None?
    ensures Ok(k.(sched := s))
  {
    hide Wf, Everyone;
    var j := k.(sched := s);
    forall u | u in j.sched.sleepers
      ensures SleeperOk(j, u)
    {
      assert SleeperOk(k, u);
    }
  }

  lemma ForkKeeps<C>(k: K<C>, t: nat, c: C)
    requires Ok(k) && k.sched.cur.Some? && t !in Everyone(k.sched)
    ensures Ok(PutPc(k.(sched := Forked(k.sched, t)), t, Run(c)))
  {
    CurKnown(k);
    ForkedKeeps(k.sched, t);
    var j := PutPc(k.(sched := Forked(k.sched, t)), t, Run(c));
    forall u | u in j.sched.sleepers
      ensures SleeperOk(j, u)
    {
      assert SleeperOk(k, u) && u in Everyone(k.sched);
    }
  }

  lemma StepKeeps<C>(k: K<C>, a: Action<C>)
    requires Ok(k) && Enabled(k, a)
    ensures Ok(Next(k, a))
  {
    hide Ok, Wf, Everyone;
    match a
    case P(s, after) => DoPKeeps(k, s, after);
    case V(s) => DoVKeeps(k, s);
    case Acquire(l, after) => TryLockKeeps(k, l, after);
    case Release(l) => DoReleaseKeeps(k, l);
    case Become(c) => BecomeKeeps(k, c);
    case Preempt =>
      OkWf(k);
      SwitchOutKeeps(k.sched, Ready);
      MoveKeeps(k, SwitchOut(k.sched, Ready));
    case Fork(t, c) => ForkKeeps(k, t, c);
    case Exit =>
      OkWf(k);
      ExitedKeeps(k.sched);
      MoveKeeps(k, Exited(k.sched));
    case Dispatch(sweep) => ResumedKeeps(k, sweep);
  }

  lemma OkWf<C>(k: K<C>)
    requires Ok(k)
    ensures Wf(k.sched)
  {
  }

  /** The steps can be taken one after the other from `k` and end in `j`. */
  ghost predicate Leads<C>(k: K<C>, steps: seq<Action<C>>, j: K<C>)
    requires Ok(k)
    decreases |steps|
  {
    if steps == [] then j == k
    else Enabled(k, steps[0]) && (StepKeeps(k, steps[0]); Leads(Next(k, steps[0]), steps[1..], j))
  }

  /** Whatever the schedule, no wakeup is lost. */
  lemma {:induction false} RunKeeps<C>(k: K<C>, steps: seq<Action<C>>, j: K<C>)
    requires Ok(k) && Leads(k, steps, j)
    ensures Ok(j) && |j.sems| == |k.sems| && |j.locks| == |k.locks|
    decreases |steps|
  {
    hide Ok, Everyone, Wf;
    if steps == [] {
    } else {
      StepKeeps(k, steps[0]);
      StepSizes(k, steps[0]);
      RunKeeps(Next(k, steps[0]), steps[1..], j);
    }
  }

  lemma StepSizes<C>(k: K<C>, a: Action<C>)
    requires Ok(k) && Enabled(k, a)
    ensures |Next(k, a).sems| == |k.sems| && |Next(k, a).locks| == |k.locks|
  {
    hide Wf, Everyone;
    ReadyOk(k);
  }

  /** While a semaphore's count is not 0, or a lock is free, nobody sleeps on it. */
  lemma NoLostWakeup<C>(k: K<C>)
    requires Ok(k)
    ensures forall s, t :: 0 <= s < |k.sems| && t in k.sched.sleepers && t in k.sched.addr ==>
      k.sched.addr[t] == OnSem(s) ==> k.sems[s].count == 0
    ensures forall l, t :: 0 <= l < |k.locks| && t in k.sched.sleepers && t in k.sched.addr ==>
      k.sched.addr[t] == OnLock(l) ==> !k.locks[l].free
  {
    hide Wf, Everyone;
    forall t | t in k.sched.sleepers
      ensures SleeperOk(k, t)
    {
    }
  }

  // ---------------------------------------------------------------- threads are neither lost nor made

  ghost function Living<C>(k: K<C>): multiset<nat> {
    multiset(Current(k.sched)) + multiset(k.sched.ready) + multiset(k.sched.sleepers)
  }

  /** Fork adds one living thread, exit takes the current one, and no other step changes who is alive. */
  lemma StepThreads<C>(k: K<C>, a: Action<C>)
    requires Ok(k) && Enabled(k, a)
    ensures Living(Next(k, a)) == match a
                                  case Fork(t, _) => Living(k) + multiset{t}
                                  case Exit => Living(k) - multiset{k.sched.cur.value}
                                  case _ => Living(k)
  {
    hide Ok, Wf, Everyone, Picked, Living, Asleep;
    ReadyOk(k);
    match a
    case P(s, after) =>
      SleepLiving(k, OnSem(s));
      SameLiving(DoP(k, s, after), k.(sched := DoP(k, s, after).sched));
    case V(s) =>
      WokenLiving(k, OnSem(s));
      SameLiving(DoV(k, s), k.(sched := Woken(k.sched, OnSem(s))));
    case Acquire(l, after) =>
      SleepLiving(k, OnLock(l));
      SameLiving(TryLock(k, l, after), k.(sched := TryLock(k, l, after).sched));
    case Release(l) =>
      WokenLiving(k, OnLock(l));
      SameLiving(DoRelease(k, l), k.(sched := Woken(k.sched, OnLock(l))));
    case Become(c) => SameLiving(Next(k, a), k);
    case Dispatch(sweep) => DispatchLiving(k, sweep);
    case Preempt => YieldLiving(k);
    case Fork(t, c) => ForkLiving(k, t, c);
    case Exit => ExitLiving(k);
  }

  lemma SameLiving<C>(k: K<C>, j: K<C>)
    requires k.sched == j.sched
    ensures Living(k) == Living(j)
  {
  }

  lemma SleepLiving<C>(k: K<C>, a: Addr)
    requires k.sched.cur.Some?
    ensures Living(k.(sched := Asleep(k.sched, a))) == Living(k)
  {
  }

  lemma YieldLiving<C>(k: K<C>)
    requires k.sched.cur.Some?
    ensures Living(k.(sched := SwitchOut(k.sched, Ready))) == Living(k)
  {
  }

  lemma ExitLiving<C>(k: K<C>)
    requires k.sched.cur.Some? && k.sched.num > 0
    ensures Living(k.(sched := Exited(k.sched))) == Living(k) - multiset{k.sched.cur.value}
  {
  }

  lemma ForkLiving<C>(k: K<C>, t: nat, c: C)
    ensures Living(PutPc(k.(sched := Forked(k.sched, t)), t, Run(c))) == Living(k) + multiset{t}
  {
  }

  lemma DispatchLiving<C>(k: K<C>, sweep: bool)
    requires Ok(k) && Enabled(k, Dispatch(sweep))
    ensures Living(Next(k, Dispatch(sweep))) == Living(k)
  {
    hide Ok, Wf, Everyone, Living, Asleep;
    ReadyOk(k);
    var j := k.(sched := Dispatched(k.sched, sweep));
    assert Living(j) == Living(k) by {
      HeadLiving(k, sweep);
    }
    var t := k.sched.ready[0];
    match k.pc[t]
    case Run(c) =>
    case InP(s, after) =>
      SleepLiving(j, OnSem(s));
      SameLiving(DoP(j, s, after), j.(sched := DoP(j, s, after).sched));
    case InAcquire(l, after) =>
      SleepLiving(j, OnLock(l));
      SameLiving(TryLock(j, l, after), j.(sched := TryLock(j, l, after).sched));
  }

  lemma HeadLiving<C>(k: K<C>, sweep: bool)
    requires k.sched.cur.None? && k.sched.ready != []
    ensures Living(k.(sched := Dispatched(k.sched, sweep))) == Living(k)
  {
    assert k.sched.ready == [k.sched.ready[0]] + k.sched.ready[1..];
  }

  lemma WokenLiving<C>(k: K<C>, a: Addr)
    requires Ok(k)
    ensures (forall t :: t in k.sched.sleepers ==> t in k.sched.addr)
      && Living(k.(sched := Woken(k.sched, a))) == Living(k)
  {
    hide Wf, Everyone, Picked;
    WfSleepers(k.sched);
    PickedSplit(k.sched.sleepers, k.sched.addr, a);
  }

  /** A thread that is not alive -- a zombie, or one already destroyed -- never runs, waits or becomes
      runnable again. */
  lemma {:induction false} DeadStayDead<C>(k: K<C>, steps: seq<Action<C>>, j: K<C>, t: nat)
    requires Ok(k) && Leads(k, steps, j) && t !in Living(k)
    requires forall i :: 0 <= i < |steps| ==> !(steps[i].Fork? && steps[i].t == t)
    ensures t !in Living(j)
    decreases |steps|
  {
    hide Ok, Everyone, Wf, Living;
    if steps == [] {
    } else {
      StepKeeps(k, steps[0]);
      StepThreads(k, steps[0]);
      DeadStayDead(Next(k, steps[0]), steps[1..], j, t);
    }
  }

  lemma ZombieNotLiving<C>(k: K<C>, t: nat)
    requires Ok(k) && t in k.sched.zombies
    ensures t !in Living(k)
  {
    assert Everyone(k.sched) == Living(k) + multiset(k.sched.zombies);
    assert t in Everyone(k.sched);
  }

  /** A zombie never runs, waits or becomes runnable again, whether it has been destroyed by then or not. */
  lemma ZombiesNeverRun<C>(k: K<C>, steps: seq<Action<C>>, j: K<C>, t: nat)
    requires Ok(k) && Leads(k, steps, j) && t in k.sched.zombies
    requires forall i :: 0 <= i < |steps| ==> !(steps[i].Fork? && steps[i].t == t)
    ensures j.sched.cur != Some(t) && t !in j.sched.ready && t !in j.sched.sleepers
  {
    hide Ok, Everyone, Wf;
    ZombieNotLiving(k, t);
    DeadStayDead(k, steps, j, t);
    assert t !in Living(j);
    assert t !in Current(j.sched);
  }

  // ---------------------------------------------------------------- what one step does

  /** The running thread may call anything, but acquire a lock it owns; V is open to interrupt handlers too,
      and the run queue moves whenever nobody runs. */
  lemma CallsOpen<C>(k: K<C>, s: nat, l: nat, c: C)
    requires s < |k.sems| && l < |k.locks|
    ensures Enabled(k, V(s))
    ensures k.sched.cur.Some? ==>
      Enabled(k, P(s, c)) && Enabled(k, Release(l)) && Enabled(k, Preempt) && Enabled(k, Exit)
    ensures k.sched.cur.Some? ==> (Enabled(k, Acquire(l, c)) <==> k.locks[l].owner != k.sched.cur)
    ensures k.sched.cur.None? && k.sched.ready != [] ==> Enabled(k, Dispatch(true)) && Enabled(k, Dispatch(false))
  {
  }

  /** The thread that takes the step: the one dispatched, or the current one. */
  ghost function Mover<C>(k: K<C>, a: Action<C>): Option<nat> {
    if a.Dispatch? && k.sched.ready != [] then Some(k.sched.ready[0]) else k.sched.cur
  }

  /** The step is a turn of P(s): the call, or one more look after a sleep. */
  ghost predicate TurnOfP<C>(k: K<C>, a: Action<C>, s: nat)
    requires Ok(k) && Enabled(k, a)
  {
    ReadyOk(k);
    if a.Dispatch? then k.pc[k.sched.ready[0]].InP? && k.pc[k.sched.ready[0]].s == s else a.P? && a.s == s
  }

  ghost predicate TurnOfAcquire<C>(k: K<C>, a: Action<C>, l: nat)
    requires Ok(k) && Enabled(k, a)
  {
    ReadyOk(k);
    if a.Dispatch? then k.pc[k.sched.ready[0]].InAcquire? && k.pc[k.sched.ready[0]].l == l else a.Acquire? && a.l == l
  }

  /** What the mover goes on with after its P or lock_acquire. */
  ghost function Onward<C>(k: K<C>, a: Action<C>): C
    requires Ok(k) && Enabled(k, a)
    requires a.P? || a.Acquire? || (a.Dispatch? && (ReadyOk(k); !k.pc[k.sched.ready[0]].Run?))
  {
    if a.Dispatch? then ReadyOk(k); k.pc[k.sched.ready[0]].after else a.after
  }

  /** Where the mover is in its code after the step. */
  ghost predicate Arrives<C>(k: K<C>, a: Action<C>, p: Pc<C>)
    requires Ok(k) && Enabled(k, a)
  {
    Mover(k, a).Some? && Mover(k, a).value in Next(k, a).pc && Next(k, a).pc[Mover(k, a).value] == p
  }

  /** After the step the mover is outside P and lock_acquire. */
  ghost predicate GetsThrough<C>(k: K<C>, a: Action<C>)
    requires Ok(k) && Enabled(k, a)
  {
    Mover(k, a).Some? && Mover(k, a).value in Next(k, a).pc && Next(k, a).pc[Mover(k, a).value].Run?
  }

  /** A turn of P gets through exactly when the count is positive, and then takes one; otherwise the thread
      goes (back) to sleep on the semaphore. */
  lemma TurnOfPDoes<C>(k: K<C>, a: Action<C>, s: nat)
    requires Ok(k) && Enabled(k, a) && TurnOfP(k, a, s)
    ensures s < |k.sems| == |Next(k, a).sems|
    ensures GetsThrough(k, a) <==> k.sems[s].count > 0
    ensures k.sems[s].count > 0 ==>
      Arrives(k, a, Run(Onward(k, a))) && Next(k, a).sems[s].count == k.sems[s].count - 1
      && Next(k, a).sched.cur == Mover(k, a)
    ensures k.sems[s].count == 0 ==>
      && Arrives(k, a, InP(s, Onward(k, a))) && Next(k, a).sems == k.sems && Next(k, a).sched.cur.None?
      && Mover(k, a).value in Next(k, a).sched.sleepers && Mover(k, a).value in Next(k, a).sched.addr
      && Next(k, a).sched.addr[Mover(k, a).value] == OnSem(s)
  {
    hide Wf, Everyone;
    ReadyOk(k);
  }

  /** A turn of lock_acquire gets through exactly when the lock is free, and then owns it. */
  lemma TurnOfAcquireDoes<C>(k: K<C>, a: Action<C>, l: nat)
    requires Ok(k) && Enabled(k, a) && TurnOfAcquire(k, a, l)
    ensures l < |k.locks| == |Next(k, a).locks|
    ensures GetsThrough(k, a) <==> k.locks[l].free
    ensures k.locks[l].free ==>
      && Arrives(k, a, Run(Onward(k, a))) && Next(k, a).locks[l] == Lock(false, Mover(k, a))
      && Next(k, a).sched.cur == Mover(k, a)
    ensures !k.locks[l].free ==>
      && Arrives(k, a, InAcquire(l, Onward(k, a))) && Next(k, a).locks == k.locks && Next(k, a).sched.cur.None?
      && Mover(k, a).value in Next(k, a).sched.sleepers && Mover(k, a).value in Next(k, a).sched.addr
      && Next(k, a).sched.addr[Mover(k, a).value] == OnLock(l)
  {
    hide Wf, Everyone;
    ReadyOk(k);
  }

  /** V and lock_release wake all and only the sleepers on what they give back, behind those already runnable;
      the caller goes on. */
  lemma GivesBack<C>(k: K<C>, a: Action<C>)
    requires Ok(k) && Enabled(k, a) && (a.V? || a.Release?)
    ensures Next(k, a).sched.cur == k.sched.cur && Next(k, a).pc == k.pc && k.sched.ready <= Next(k, a).sched.ready
    ensures forall t :: t in Next(k, a).sched.sleepers <==>
      t in k.sched.sleepers && k.sched.addr[t] != if a.V? then OnSem(a.s) else OnLock(a.l)
    ensures a.V? ==> Next(k, a).sems[a.s].count == k.sems[a.s].count + 1
    ensures a.Release? ==> Next(k, a).locks[a.l] == Lock(true, None)
  {
    hide Wf, Everyone, Picked;
    ReadyOk(k);
    OkWf(k);
    WokenKeeps(k.sched, if a.V? then OnSem(a.s) else OnLock(a.l));
  }

  /** No step changes a semaphore or a lock but by a call on it, nor where any other thread is in its code. */
  lemma StepFrame<C>(k: K<C>, a: Action<C>)
    requires Ok(k) && Enabled(k, a)
    ensures |Next(k, a).sems| == |k.sems| && |Next(k, a).locks| == |k.locks|
    ensures forall s :: 0 <= s < |k.sems| && Next(k, a).sems[s] != k.sems[s] ==>
      a == V(s) || TurnOfP(k, a, s)
    ensures forall l :: 0 <= l < |k.locks| && Next(k, a).locks[l] != k.locks[l] ==>
      a == Release(l) || TurnOfAcquire(k, a, l)
    ensures forall t :: t in k.pc && Mover(k, a) != Some(t) && !(a.Fork? && a.t == t) ==>
      t in Next(k, a).pc && Next(k, a).pc[t] == k.pc[t]
  {
    hide Wf, Everyone, Picked;
    ReadyOk(k);
    match a
    case P(s, after) =>
    case Acquire(l, after) =>
    case Dispatch(_) =>
    case V(s) =>
    case Release(l) =>
    case Become(c) =>
    case Preempt =>
    case Fork(t, c) =>
    case Exit =>
  }

  // ---------------------------------------------------------------- counting P and V over a run

  /** The step is the turn in which a P(s) returns. */
  ghost predicate EndsP<C>(k: K<C>, a: Action<C>, s: nat)
    requires Ok(k) && Enabled(k, a)
  {
    TurnOfP(k, a, s) && GetsThrough(k, a)
  }

  /** How many P(s) return in the run. */
  ghost function Ps<C>(k: K<C>, steps: seq<Action<C>>, j: K<C>, s: nat): nat
    requires Ok(k) && Leads(k, steps, j)
    decreases |steps|
  {
    if steps == [] then 0
    else
      StepKeeps(k, steps[0]);
      (if EndsP(k, steps[0], s) then 1 else 0) + Ps(Next(k, steps[0]), steps[1..], j, s)
  }

  /** How often V(s) is called in the run. */
  ghost function Vs<C>(steps: seq<Action<C>>, s: nat): nat {
    if steps == [] then 0 else (if steps[0] == V(s) then 1 else 0) + Vs(steps[1..], s)
  }

  lemma StepCount<C>(k: K<C>, a: Action<C>, s: nat)
    requires Ok(k) && Enabled(k, a) && s < |k.sems|
    ensures |Next(k, a).sems| == |k.sems|
    ensures Next(k, a).sems[s].count + (if EndsP(k, a, s) then 1 else 0) == k.sems[s].count + if a == V(s) then 1 else 0
  {
    hide Ok, Wf, Everyone, Next, GetsThrough;
    ReadyOk(k);
    StepFrame(k, a);
    if TurnOfP(k, a, s) {
      TurnOfPDoes(k, a, s);
    } else if a == V(s) {
      GivesBack(k, a);
    }
  }

  /** Whatever the schedule, a count is what it was, plus the V calls, less the P calls that returned. */
  lemma {:induction false} CountLaw<C>(k: K<C>, steps: seq<Action<C>>, j: K<C>, s: nat)
    requires Ok(k) && Leads(k, steps, j) && s < |k.sems|
    ensures |j.sems| == |k.sems| && j.sems[s].count + Ps(k, steps, j, s) == k.sems[s].count + Vs(steps, s)
    decreases |steps|
  {
    hide Ok, Everyone, Wf, EndsP;
    if steps == [] {
    } else {
      StepKeeps(k, steps[0]);
      StepCount(k, steps[0], s);
      CountLaw(Next(k, steps[0]), steps[1..], j, s);
    }
  }

  // ---------------------------------------------------------------- mutual exclusion

  /** The step is the turn in which a lock_acquire returns. */
  ghost predicate EndsAcquire<C>(k: K<C>, a: Action<C>, l: nat)
    requires Ok(k) && Enabled(k, a)
  {
    TurnOfAcquire(k, a, l) && GetsThrough(k, a)
  }

  /** Who has come back from lock_acquire and not called lock_release since, if it was `h` before the step. */
  ghost function HeldAfter<C>(k: K<C>, a: Action<C>, l: nat, h: set<nat>): set<nat>
    requires Ok(k) && Enabled(k, a)
  {
    if EndsAcquire(k, a, l) then h + {Mover(k, a).value}
    else if a == Release(l) then h - {k.sched.cur.value}
    else h
  }

  ghost function Holders<C>(k: K<C>, steps: seq<Action<C>>, j: K<C>, l: nat, h: set<nat>): set<nat>
    requires Ok(k) && Leads(k, steps, j)
    decreases |steps|
  {
    if steps == [] then h
    else
      StepKeeps(k, steps[0]);
      Holders(Next(k, steps[0]), steps[1..], j, l, HeldAfter(k, steps[0], l, h))
  }

  /** The rule of synch.h: only a thread that holds the lock releases it. */
  ghost predicate Polite<C>(k: K<C>, steps: seq<Action<C>>, j: K<C>, l: nat, h: set<nat>)
    requires Ok(k) && Leads(k, steps, j)
    decreases |steps|
  {
    steps == [] ||
      (&& (steps[0] == Release(l) ==> k.sched.cur.value in h)
       && (StepKeeps(k, steps[0]); Polite(Next(k, steps[0]), steps[1..], j, l, HeldAfter(k, steps[0], l, h))))
  }

  /** The holders are as the lock records: its owner, or nobody. */
  ghost predicate Recorded(lock: Lock, h: set<nat>) {
    h == if lock.owner.Some? then {lock.owner.value} else {}
  }

  lemma StepRecorded<C>(k: K<C>, a: Action<C>, l: nat, h: set<nat>)
    requires Ok(k) && Enabled(k, a) && l < |k.locks| && Recorded(k.locks[l], h) && a != Release(l)
    ensures |Next(k, a).locks| == |k.locks| && Recorded(Next(k, a).locks[l], HeldAfter(k, a, l, h))
  {
    hide Wf, Everyone, Next, GetsThrough, TurnOfAcquire;
    StepFrame(k, a);
    assert LockOk(k.locks[l]);
    if TurnOfAcquire(k, a, l) {
      TurnOfAcquireDoes(k, a, l);
    }
  }

  /** A release keeps the record right exactly when the lock is not held by somebody else. */
  lemma ReleaseRecorded<C>(k: K<C>, l: nat, h: set<nat>)
    requires Ok(k) && Enabled(k, Release(l)) && Recorded(k.locks[l], h)
    ensures |Next(k, Release(l)).locks| == |k.locks|
    ensures Recorded(Next(k, Release(l)).locks[l], HeldAfter(k, Release(l), l, h))
            <==> k.locks[l].owner == k.sched.cur || k.locks[l].owner.None?
  {
    hide Wf, Everyone, Picked;
    ReadyOk(k);
    var a: Action<C> := Release(l);
    assert !EndsAcquire(k, a, l);
    if k.locks[l].owner.Some? && k.locks[l].owner != k.sched.cur {
      assert k.locks[l].owner.value in HeldAfter(k, a, l, h);
    }
  }

  /** In every run in which only holders release the lock, at most one thread is between lock_acquire and
      lock_release, and it is the recorded owner. */
  lemma {:induction false} MutualExclusion<C>(k: K<C>, steps: seq<Action<C>>, j: K<C>, l: nat, h: set<nat>)
    requires Ok(k) && Leads(k, steps, j) && l < |k.locks| && Recorded(k.locks[l], h) && Polite(k, steps, j, l, h)
    ensures |j.locks| == |k.locks| && Recorded(j.locks[l], Holders(k, steps, j, l, h))
    ensures forall t, u :: t in Holders(k, steps, j, l, h) && u in Holders(k, steps, j, l, h) ==>
      t == u && j.locks[l].owner == Some(t) && !j.locks[l].free
    decreases |steps|
  {
    hide Ok, Everyone, Wf, EndsAcquire, HeldAfter;
    if steps == [] {
      Locked(k, l);
    } else {
      StepKeeps(k, steps[0]);
      if steps[0] == Release(l) {
        ReleaseRecorded(k, l, h);
      } else {
        StepRecorded(k, steps[0], l, h);
      }
      MutualExclusion(Next(k, steps[0]), steps[1..], j, l, HeldAfter(k, steps[0], l, h));
    }
  }

  lemma Locked<C>(k: K<C>, l: nat)
    requires Ok(k) && l < |k.locks|
    ensures LockOk(k.locks[l])
  {
    hide Wf, Everyone;
  }

  /** Without the rule two threads can hold the lock at once: thread 0 acquires it, thread 1 releases it and
      acquires it. */
  lemma ForeignRelease() returns (j: K<int>)
    ensures var k := TwoThreads(Some(0), [1], Lock(true, None));
            var steps := [Acquire(0, 0), Preempt, Dispatch(true), Release(0), Acquire(0, 0)];
            Ok(k) && Leads(k, steps, j) && Holders(k, steps, j, 0, {}) == {0, 1}
  {
    hide Ok, Wf, Everyone, TwoThreads, Next, Enabled, HeldAfter;
    var steps: seq<Action<int>> := [Acquire(0, 0), Preempt, Dispatch(true), Release(0), Acquire(0, 0)];
    j := TwoThreads(Some(1), [0], Lock(false, Some(1)));
    var k5 := TwoThreads(Some(1), [0], Lock(true, None));
    TwoAcquire(1, 0, {0});
    TwoOk(1, 0, Lock(false, Some(1)));
    assert {0} + {1} == {0, 1} && {} + {0} == {0};
    OneStep(k5, steps[4..], j, j, 0, {0});
    var k4 := TwoThreads(Some(1), [0], Lock(false, Some(0)));
    TwoRelease(1, 0, Lock(false, Some(0)), {0});
    assert {0} - {1} == {0};
    OneStep(k4, steps[3..], k5, j, 0, {0});
    var k3 := TwoThreads(None, [1, 0], Lock(false, Some(0)));
    TwoSwitch(0, 1, Lock(false, Some(0)), {0});
    OneStep(k3, steps[2..], k4, j, 0, {0});
    var k2 := TwoThreads(Some(0), [1], Lock(false, Some(0)));
    OneStep(k2, steps[1..], k3, j, 0, {0});
    TwoAcquire(0, 1, {});
    OneStep(TwoThreads(Some(0), [1], Lock(true, None)), steps, k2, j, 0, {});
  }

  lemma TwoOk(t: nat, u: nat, lock: Lock)
    requires t + u == 1 && LockOk(lock)
    ensures Ok(TwoThreads(Some(t), [u], lock)) && Ok(TwoThreads(None, [u, t], lock))
  {
    hide Wf, Everyone;
    TwoWf(t, u);
    TwoIdleWf(t, u);
  }

  lemma TwoWf(t: nat, u: nat)
    requires t + u == 1
    ensures var s: Sched<Addr> := Sched(Some(t), [u], [], [], map[], 2);
      Wf(s) && forall v :: v in Everyone(s) ==> v <= 1
  {
  }

  lemma TwoIdleWf(t: nat, u: nat)
    requires t + u == 1
    ensures var s: Sched<Addr> := Sched(None, [u, t], [], [], map[], 2);
      Wf(s) && forall v :: v in Everyone(s) ==> v <= 1
  {
  }

  lemma TwoAcquire(t: nat, u: nat, h: set<nat>)
    requires t + u == 1
    ensures var k, a: Action<int> := TwoThreads(Some(t), [u], Lock(true, None)), Acquire(0, 0);
            Ok(k) && Enabled(k, a) && Next(k, a) == TwoThreads(Some(t), [u], Lock(false, Some(t)))
            && HeldAfter(k, a, 0, h) == h + {t}
  {
    hide Ok, Wf, Everyone;
    TwoOk(t, u, Lock(true, None));
    var k, a: Action<int> := TwoThreads(Some(t), [u], Lock(true, None)), Acquire(0, 0);
    assert TurnOfAcquire(k, a, 0) && GetsThrough(k, a);
  }

  lemma TwoRelease(t: nat, u: nat, lock: Lock, h: set<nat>)
    requires t + u == 1 && LockOk(lock)
    ensures var k, a: Action<int> := TwoThreads(Some(t), [u], lock), Release(0);
            Ok(k) && Enabled(k, a) && Next(k, a) == TwoThreads(Some(t), [u], Lock(true, None))
            && HeldAfter(k, a, 0, h) == h - {t}
  {
    hide Ok, Wf, Everyone;
    TwoOk(t, u, lock);
    assert [u] + [] == [u];
  }

  lemma TwoSwitch(t: nat, u: nat, lock: Lock, h: set<nat>)
    requires t + u == 1 && LockOk(lock)
    ensures var k, j := TwoThreads(Some(t), [u], lock), TwoThreads(None, [u, t], lock);
            && Ok(k) && Enabled(k, Preempt) && Next(k, Preempt) == j && HeldAfter(k, Preempt, 0, h) == h
            && Ok(j) && Enabled(j, Dispatch(true)) && Next(j, Dispatch(true)) == TwoThreads(Some(u), [t], lock)
            && HeldAfter(j, Dispatch(true), 0, h) == h
  {
    hide Ok, Wf, Everyone;
    TwoOk(t, u, lock);
    assert [u] + [t] == [u, t] && [u, t][1..] == [t];
  }

  ghost function TwoThreads(cur: Option<nat>, ready: seq<nat>, lock: Lock): K<int> {
    K(Sched(cur, ready, [], [], map[], 2), map[0 := Run(0), 1 := Run(0)], [], [lock])
  }

  lemma OneStep<C>(k: K<C>, steps: seq<Action<C>>, next: K<C>, j: K<C>, l: nat, h: set<nat>)
    requires Ok(k) && steps != [] && Enabled(k, steps[0]) && Next(k, steps[0]) == next
    requires Ok(next) && Leads(next, steps[1..], j)
    ensures Leads(k, steps, j)
    ensures Holders(k, steps, j, l, h) == Holders(next, steps[1..], j, l, HeldAfter(k, steps[0], l, h))
  {
    hide Ok, Wf, Everyone, HeldAfter;
  }
}
