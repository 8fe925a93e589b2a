/** The thread system's own data structures and code (os161/kern/thread/thread.c, scheduler.c).  Thread
    structures are named by numbers; `mem` arguments say whether kmalloc would give memory; a false result is
    one the kernel asserts away. */
module Threads {
  import opened Sched
  import Queue
  import PtrArray

  class ThreadSystem {
    var curthread: Option<nat>
    const sleepers: PtrArray.PtrArray<nat>
    const zombies: PtrArray.PtrArray<nat>
    const runqueue: Queue.Queue<nat>
    var numthreads: nat
    var sleepaddr: map<nat, nat>
    /** A fork has succeeded. */
    ghost var forked: bool

    ghost function Foot(): set<object>
      reads this, sleepers, zombies, runqueue
    {
      {this, sleepers, sleepers.v, zombies, zombies.v, runqueue, runqueue.data}
    }

    /** The arrays are the same ones or new ones. */
    twostate predicate Stays()
      reads this, sleepers, zombies, runqueue
    {
      && (sleepers.v == old(sleepers.v) || fresh(sleepers.v))
      && (zombies.v == old(zombies.v) || fresh(zombies.v))
      && (runqueue.data == old(runqueue.data) || fresh(runqueue.data))
    }

    ghost predicate Separate()
      reads this, sleepers, zombies, runqueue
    {
      && sleepers != zombies
      && sleepers.v != zombies.v && sleepers.v != runqueue.data && zombies.v != runqueue.data
      && sleepers.Valid() && zombies.Valid() && runqueue.Valid()
    }

    ghost function S(): Sched<nat>
      reads this, sleepers, zombies, runqueue, Foot()
      requires Separate()
    {
      Sched(curthread, runqueue.Contents(), sleepers.Contents(), zombies.Contents(), sleepaddr, numthreads)
    }

    /** The space thread_fork reserves in sleepers[] stays reserved. */
    ghost predicate Valid()
      reads this, sleepers, zombies, runqueue, Foot()
    {
      Separate() && Wf(S()) && (forked ==> sleepers.max >= numthreads)
    }

    /** thread_bootstrap and scheduler_bootstrap: the boot thread is number 0. */
    constructor ()
      ensures Valid() && fresh(Foot()) && S() == Sched(Some(0), [], [], [], map[], 1)
      ensures !forked && sleepers.max == 0 && zombies.max == 0 && runqueue.size == 32
    {
      hide Wf, Queue.Ring;
      curthread, numthreads, sleepaddr, forked := Some(0), 1, map[], false;
      sleepers := new PtrArray.PtrArray<nat>();
      zombies := new PtrArray.PtrArray<nat>();
      runqueue := new Queue.Queue<nat>(32);
      new;
      assert S() == Sched(Some(0), [], [], [], map[], 1);
      FirstWf();
    }

    /** exorcise: also gives up the zombie list's storage if there is much of it. */
    method Exorcise()
      requires Valid()
      modifies zombies
      ensures Valid() && S() == Exorcised(old(S())) && forked == old(forked)
      ensures zombies.max == if old(zombies.max) > 16 then 0 else old(zombies.max)
      ensures Stays() && runqueue.size == old(runqueue.size) && sleepers.max == old(sleepers.max)
    {
      var ok := zombies.SetSize(0, false);
      ExorcisedKeeps(old(S()));
    }

    /** The body of thread_fork once the new thread's structure and stack are there: `mem` are kmalloc's answers to the
        three reservations and to make_runnable. */
    method Fork(t: nat, mem: seq<bool>) returns (ok: bool)
      requires Valid() && |mem| == 4 && t !in Everyone(S())
      modifies Foot()
      ensures Valid() && Stays()
      ensures S() == if ok then Forked(old(S()), t) else old(S())
      ensures (forall i :: 0 <= i < 4 ==> mem[i]) ==> ok
      ensures ok ==> forked && mem[0] && mem[1]
      ensures ok ==> sleepers.max >= numthreads && zombies.max >= numthreads && runqueue.size >= numthreads
      ensures ok ==> zombies.max == PtrArray.Enlarged(old(zombies.max), numthreads)
      ensures old(runqueue.size) >= numthreads && |old(runqueue.Contents())| + 1 < old(runqueue.size) ==>
                runqueue.size == old(runqueue.size)
    {
      hide Wf, Everyone, Queue.Ring, PtrArray.Enlarged;
      ghost var s := S();
      ok := sleepers.Preallocate(numthreads + 1, mem[0]);
      if !ok {
        return;
      }
      ok := zombies.Preallocate(numthreads + 1, mem[1]);
      if !ok {
        return;
      }
      assert S() == s;
      ok := runqueue.Preallocate(numthreads + 1, mem[2]);
      assert S() == s;
      if !ok {
        return;
      }
      ok := runqueue.AddTail(t, mem[3]);
      if !ok {
        assert S() == s;
        return;
      }
      numthreads := numthreads + 1;
      forked := true;
      ForkedKeeps(s, t);
    }

    /** Threads 0 to t - 1 have been made, and none has exited. */
    ghost predicate Upto(t: nat)
      reads this, sleepers, zombies, runqueue, Foot()
    {
      && Valid() && curthread.Some? && numthreads == t && (t > 1 ==> forked)
      && forall u :: u in Everyone(S()) ==> u < t
    }

    method ForkNext(t: nat)
      requires Upto(t) && t > 0
      modifies Foot()
      ensures Upto(t + 1) && Stays()
      ensures |runqueue.Contents()| == old(|runqueue.Contents()|) + 1
      ensures old(runqueue.size) > t && old(|runqueue.Contents()|) + 1 < old(runqueue.size) ==>
        runqueue.size == old(runqueue.size)
      ensures zombies.max == PtrArray.Enlarged(old(zombies.max), t + 1)
    {
      hide Wf, Everyone, Queue.Ring, PtrArray.Enlarged;
      ForkedKeeps(S(), t);
      var ok := Fork(t, [true, true, true, true]);
    }

    /** mi_switch up to the call of the scheduler.  The sleepers list has room once a fork has succeeded; the
        run queue and the zombie list may need memory. */
    method Stash(next: NextState, mem: bool) returns (ok: bool)
      requires Separate() && curthread.Some?
      modifies Foot()
      ensures Separate() && Stays()
      ensures ok ==> S() == SwitchOut(old(S()), next)
      ensures numthreads == old(numthreads) && sleepaddr == old(sleepaddr) && forked == old(forked)
      ensures next.Ready? ==> (ok <==> mem || old(|runqueue.Contents()| < runqueue.size - 1))
      ensures next.Sleep? ==> (ok <==> mem || old(sleepers.num < sleepers.max))
      ensures next.Zomb? ==> (ok <==> mem || old(zombies.num < zombies.max))
      ensures sleepers.max >= old(sleepers.max)
    {
      hide Wf, Everyone, Queue.Ring, PtrArray.Enlarged;
      var cur := curthread.value;
      curthread := None;
      match next
      case Ready => ok := runqueue.AddTail(cur, mem);
      case Sleep => ok := sleepers.Add(cur, mem);
      case Zomb => ok := zombies.Add(cur, mem);
    }

    /** The scheduler's choice, which mi_switch makes current; the idle loop ends when something is runnable. */
    method Pick()
      requires Valid() && curthread.None? && runqueue.Contents() != []
      modifies this, runqueue
      ensures Valid() && S() == SwitchIn(old(S())) && forked == old(forked)
      ensures Foot() == old(Foot())
    {
      hide Wf, Everyone, Queue.Ring, PtrArray.Enlarged;
      ghost var s := S();
      var next := runqueue.RemHead();
      curthread := Some(next);
      assert S() == SwitchIn(s);
      SwitchInKeeps(s);
    }

    method Yield(mem: bool) returns (ok: bool)
      requires Valid() && curthread.Some?
      modifies Foot()
      ensures ok <==> mem || old(|runqueue.Contents()| < runqueue.size - 1)
      ensures ok ==> Valid() && S() == SwitchOut(old(S()), Ready)
      ensures Stays()
    {
      hide Wf, Everyone, Queue.Ring, PtrArray.Enlarged;
      SwitchOutKeeps(S(), Ready);
      ok := Stash(Ready, mem);
    }

    /** thread_sleep.  Once a fork has succeeded it never fails, whatever the memory. */
    method Sleep(a: nat, mem: bool) returns (ok: bool)
      requires Valid() && curthread.Some?
      modifies Foot()
      ensures ok <==> mem || old(sleepers.num < sleepers.max)
      ensures old(forked) ==> ok
      ensures ok ==> Valid() && S() == Asleep(old(S()), a)
      ensures Stays()
    {
      hide Wf, Everyone, Queue.Ring, PtrArray.Enlarged;
      AsleepKeeps(S(), a);
      WfFacts(S());
      sleepaddr := sleepaddr[curthread.value := a];
      ok := Stash(NextState.Sleep, mem);
    }

    method Exit(mem: bool) returns (ok: bool)
      requires Valid() && curthread.Some?
      modifies Foot()
      ensures ok <==> mem || old(zombies.num < zombies.max)
      ensures ok ==> Valid() && S() == Exited(old(S()))
      ensures Stays()
    {
      hide Wf, Everyone, Queue.Ring, PtrArray.Enlarged;
      ExitedKeeps(S());
      numthreads := numthreads - 1;
      ok := Stash(Zomb, mem);
    }

    /** One sleeper goes to the end of the run queue. */
    method Rouse(i: nat, mem: bool) returns (ok: bool)
      requires Separate() && i < sleepers.num
      modifies Foot()
      ensures Separate() && Stays() && (ok <==> mem || old(|runqueue.Contents()| < runqueue.size - 1))
      ensures !mem ==> runqueue.size == old(runqueue.size)
      ensures ok ==> S() == old(S()).(sleepers := old(sleepers.Contents()[..i] + sleepers.Contents()[i + 1..]),
                                      ready := old(runqueue.Contents() + [sleepers.Contents()[i]]))
      ensures sleepers.max == old(sleepers.max) && forked == old(forked) && curthread == old(curthread)
      ensures numthreads == old(numthreads) && sleepaddr == old(sleepaddr)
    {
      hide Queue.Ring, PtrArray.Enlarged;
      var t := sleepers.v[i];
      sleepers.Remove(i);
      ok := runqueue.AddTail(t, mem);
    }

    /** thread_wakeup: a removal that looks at the same index again. */
    method Wakeup(a: nat, mem: bool) returns (ok: bool)
      requires Valid()
      modifies Foot()
      ensures Separate() && Stays()
      ensures ok <==> mem || |Woken(old(S()), a).ready| < old(runqueue.size)
      ensures ok ==> Valid() && S() == Woken(old(S()), a)
    {
      hide Wf, Everyone, Queue.Ring, PtrArray.Enlarged, Halfway, Kept, Woken;
      ghost var s := S();
      WfFacts(s);
      HalfwayEnds(s, a);
      runqueue.Bounded();
      var i := 0;
      ghost var k := 0;
      while i < sleepers.num
        invariant Separate() && Stays() && 0 <= k <= |s.sleepers|
        invariant i == Kept(s, a, k) && S() == Halfway(s, a, k)
        invariant sleepers.max == old(sleepers.max) && forked == old(forked)
        invariant mem || (runqueue.size == old(runqueue.size) && |Halfway(s, a, k).ready| < runqueue.size)
        decreases |s.sleepers| - k
      {
        HalfwayAt(s, a, k);
        var t := sleepers.v[i];
        HalfwayStep(s, a, k);
        if sleepaddr[t] == a {
          HalfwayLess(s, a, k + 1);
          ok := Rouse(i, mem);
          if !ok {
            return;
          }
        } else {
          i := i + 1;
        }
        k := k + 1;
      }
      HalfwayAt(s, a, k);
      WokenKeeps(s, a);
      ok := true;
    }
  }

  // ---------------------------------------------------------------- what the reservations of thread_fork do not cover

  /** A run queue of size n holds n - 1 threads: with 32 threads, 31 of them ready, the queue created with
      size 32 is full although thread_fork reserved space for 32, and thread_yield of the current thread needs
      memory. */
  method FullRunQueue() returns (ts: ThreadSystem)
    ensures ts.Valid() && ts.forked && ts.curthread.Some? && ts.numthreads == 32
    ensures |ts.runqueue.Contents()| == ts.runqueue.size - 1
  {
    hide Wf, Everyone, ThreadSystem.S, Queue.Ring, PtrArray.Enlarged;
    ts := new ThreadSystem();
    var t := 1;
    FirstThread(ts);
    while t < 32
      invariant 1 <= t <= 32 && ts.Upto(t) && fresh(ts.Foot())
      invariant |ts.runqueue.Contents()| == t - 1 && ts.runqueue.size == 32
    {
      ts.ForkNext(t);
      t := t + 1;
    }
  }

  /** exorcise gives up a large zombie list, reserved space and all: after 14 forks and one exorcise the next
      thread_exit needs memory. */
  method ShrunkZombieList() returns (ts: ThreadSystem)
    ensures ts.Valid() && ts.forked && ts.curthread.Some? && ts.numthreads == 15
    ensures ts.zombies.num == ts.zombies.max
  {
    hide Wf, Everyone, ThreadSystem.S, Queue.Ring;
    ts := new ThreadSystem();
    var t := 1;
    FirstThread(ts);
    while t < 15
      invariant 1 <= t <= 15 && ts.Upto(t) && fresh(ts.Foot())
      invariant ts.zombies.max ==
        if t == 1 then 0 else if t == 2 then 2 else if t <= 6 then 6 else if t <= 14 then 14 else 30
    {
      ts.ForkNext(t);
      t := t + 1;
    }
    ts.Exorcise();
    NoZombies(ts);
  }

  lemma FirstWf()
    ensures Wf<nat>(Sched(Some(0), [], [], [], map[], 1))
  {
  }

  lemma FirstThread(ts: ThreadSystem)
    requires ts.Valid() && ts.S() == Sched(Some(0), [], [], [], map[], 1)
    ensures ts.Upto(1) && ts.runqueue.Contents() == []
  {
    hide Wf, Queue.Ring;
  }

  lemma NoZombies(ts: ThreadSystem)
    requires ts.Valid() && ts.S().zombies == []
    ensures ts.zombies.num == 0
  {
    hide Wf, Queue.Ring;
  }

  /** thread_wakeup with `k` of the sleepers looked at. */
  ghost function Halfway(s: Sched<nat>, a: nat, k: nat): Sched<nat>
    requires (forall t :: t in s.sleepers ==> t in s.addr) && k <= |s.sleepers|
  {
    s.(sleepers := Picked(s.sleepers[..k], s.addr, a, false) + s.sleepers[k..],
       ready := s.ready + Picked(s.sleepers[..k], s.addr, a, true))
  }

  /** How many of those stay asleep. */
  ghost function Kept(s: Sched<nat>, a: nat, k: nat): nat
    requires (forall t :: t in s.sleepers ==> t in s.addr) && k <= |s.sleepers|
  {
    |Picked(s.sleepers[..k], s.addr, a, false)|
  }

  lemma HalfwayEnds(s: Sched<nat>, a: nat)
    requires forall t :: t in s.sleepers ==> t in s.addr
    ensures Halfway(s, a, 0) == s && Kept(s, a, 0) == 0
    ensures Halfway(s, a, |s.sleepers|) == Woken(s, a)
  {
    assert s.sleepers[..|s.sleepers|] == s.sleepers;
  }

  /** The run queue only gets longer. */
  lemma HalfwayLess(s: Sched<nat>, a: nat, k: nat)
    requires (forall t :: t in s.sleepers ==> t in s.addr) && k <= |s.sleepers|
    ensures |Halfway(s, a, k).ready| <= |Woken(s, a).ready|
    decreases |s.sleepers| - k
  {
    if k == |s.sleepers| {
      HalfwayEnds(s, a);
    } else {
      HalfwayStep(s, a, k);
      HalfwayLess(s, a, k + 1);
    }
  }

  lemma HalfwayAt(s: Sched<nat>, a: nat, k: nat)
    requires (forall t :: t in s.sleepers ==> t in s.addr) && k <= |s.sleepers|
    ensures Halfway(s, a, k).addr == s.addr && Halfway(s, a, k).num == s.num
    ensures |Halfway(s, a, k).sleepers| == Kept(s, a, k) + |s.sleepers| - k
    ensures k < |s.sleepers| ==> Halfway(s, a, k).sleepers[Kept(s, a, k)] == s.sleepers[k] && s.sleepers[k] in s.addr
  {
  }

  lemma HalfwayStep(s: Sched<nat>, a: nat, k: nat)
    requires (forall t :: t in s.sleepers ==> t in s.addr) && k < |s.sleepers|
    ensures Kept(s, a, k) < |Halfway(s, a, k).sleepers|
    ensures s.addr[s.sleepers[k]] == a ==>
              (var h, n := Halfway(s, a, k), Kept(s, a, k);
               && Halfway(s, a, k + 1) ==
                    h.(sleepers := h.sleepers[..n] + h.sleepers[n + 1..], ready := h.ready + [s.sleepers[k]])
               && Kept(s, a, k + 1) == n)
    ensures s.addr[s.sleepers[k]] != a ==>
      Halfway(s, a, k + 1) == Halfway(s, a, k) && Kept(s, a, k + 1) == Kept(s, a, k) + 1
  {
    hide Picked;
    var sl := s.sleepers;
    PickStep(sl, s.addr, a, k);
    CutOut(Picked(sl[..k], s.addr, a, false), sl, k);
  }

  lemma WfFacts(s: Sched<nat>)
    requires Wf(s)
    ensures forall t :: t in s.sleepers ==> t in s.addr
    ensures s.num == |Current(s)| + |s.ready| + |s.sleepers|
  {
  }

  lemma PickStep(sl: seq<nat>, addr: map<nat, nat>, a: nat, k: nat)
    requires (forall t :: t in sl ==> t in addr) && k < |sl|
    ensures forall on :: Picked(sl[..k + 1], addr, a, on) ==
                         Picked(sl[..k], addr, a, on) + if (addr[sl[k]] == a) == on then [sl[k]] else []
    ensures Picked(sl[..k], addr, a, false) + sl[k..] == Picked(sl[..k], addr, a, false) + [sl[k]] + sl[k + 1..]
  {
    assert sl[..k + 1][..k] == sl[..k];
  }

  lemma CutOut(kept: seq<nat>, sl: seq<nat>, k: nat)
    requires k < |sl|
    ensures var all := kept + sl[k..]; all[..|kept|] + all[|kept| + 1..] == kept + sl[k + 1..]
  {
  }
}
