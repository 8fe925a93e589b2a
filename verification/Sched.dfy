/** Where every thread of the kernel is (os161/kern/thread/thread.c, scheduler.c), as a value: what the
    context switch, fork, exit, sleep and wakeup do to the run queue, the sleepers and the zombies.  `A` is
    the type of sleep addresses. */
module Sched {

  datatype Option<T> = None | Some(value: T)

  /** The nextstate argument of mi_switch. */
  datatype NextState = Ready | Sleep | Zomb

  datatype Sched<A> = Sched(cur: Option<nat>, ready: seq<nat>, sleepers: seq<nat>, zombies: seq<nat>, addr: map<nat, A>,
                            num: nat)

  function Current<A>(s: Sched<A>): seq<nat> {
    if s.cur.Some? then [s.cur.value] else []
  }

  /** Every thread there is, zombies included. */
  ghost function Everyone<A>(s: Sched<A>): multiset<nat> {
    multiset(Current(s)) + multiset(s.ready) + multiset(s.sleepers) + multiset(s.zombies)
  }

  /** Every thread is in one place only, the sleepers sleep on something, and numthreads counts all but the zombies. */
  ghost predicate Wf<A>(s: Sched<A>) {
    && (forall t :: t in Everyone(s) ==> Everyone(s)[t] == 1)
    && (forall t :: t in s.sleepers ==> t in s.addr)
    && s.num == |Current(s)| + |s.ready| + |s.sleepers|
  }

  // ---------------------------------------------------------------- the context switch

  /** The first half of mi_switch: the current thread goes onto the list for its next state. */
  function SwitchOut<A>(s: Sched<A>, next: NextState): Sched<A>
    requires s.cur.Some?
  {
    var t := s.cur.value;
    match next
    case Ready => s.(cur := None, ready := s.ready + [t])
    case Sleep => s.(cur := None, sleepers := s.sleepers + [t])
    case Zomb => s.(cur := None, zombies := s.zombies + [t])
  }

  /** The second half: the head of the run queue becomes current. */
  function SwitchIn<A>(s: Sched<A>): Sched<A>
    requires s.cur.None? && s.ready != []
  {
    s.(cur := Some(s.ready[0]), ready := s.ready[1..])
  }

  function Exorcised<A>(s: Sched<A>): Sched<A> {
    s.(zombies := [])
  }

  function Asleep<A>(s: Sched<A>, a: A): Sched<A>
    requires s.cur.Some?
  {
    SwitchOut(s.(addr := s.addr[s.cur.value := a]), Sleep)
  }

  function Exited<A>(s: Sched<A>): Sched<A>
    requires s.cur.Some? && s.num > 0
  {
    SwitchOut(s.(num := s.num - 1), Zomb)
  }

  function Forked<A>(s: Sched<A>, t: nat): Sched<A> {
    s.(ready := s.ready + [t], num := s.num + 1)
  }

  /** Where the thread goes: to the end of the list for its next state, and every other list stays as it is. */
  lemma Placed<A>(s: Sched<A>, next: NextState)
    requires s.cur.Some?
    ensures var r := SwitchOut(s, next);
      && r.cur.None? && r.addr == s.addr && r.num == s.num
      && (if next.Ready? then r.ready[|s.ready|..] == [s.cur.value] && s.ready <= r.ready else r.ready == s.ready)
      && (if next.Sleep? then r.sleepers[|s.sleepers|..] == [s.cur.value] && s.sleepers <= r.sleepers
          else r.sleepers == s.sleepers)
      && (if next.Zomb? then r.zombies[|s.zombies|..] == [s.cur.value] && s.zombies <= r.zombies
          else r.zombies == s.zombies)
  {
  }

  lemma SwitchOutKeeps<A>(s: Sched<A>, next: NextState)
    requires Wf(s) && s.cur.Some? && (next.Sleep? ==> s.cur.value in s.addr)
    ensures Everyone(SwitchOut(s, next)) == Everyone(s)
    ensures !next.Zomb? ==> Wf(SwitchOut(s, next))
  {
    assert Everyone(SwitchOut(s, next)) == Everyone(s);
  }

  lemma SwitchInKeeps<A>(s: Sched<A>)
    requires Wf(s) && s.cur.None? && s.ready != []
    ensures Wf(SwitchIn(s)) && Everyone(SwitchIn(s)) == Everyone(s)
  {
    assert s.ready == [s.ready[0]] + s.ready[1..];
    assert Everyone(SwitchIn(s)) == Everyone(s);
  }

  lemma AsleepKeeps<A>(s: Sched<A>, a: A)
    requires Wf(s) && s.cur.Some?
    ensures Wf(Asleep(s, a)) && Everyone(Asleep(s, a)) == Everyone(s)
  {
    var slept := s.(addr := s.addr[s.cur.value := a]);
    assert Everyone(slept) == Everyone(s);
    SwitchOutKeeps(slept, Sleep);
  }

  lemma ExitedKeeps<A>(s: Sched<A>)
    requires Wf(s) && s.cur.Some?
    ensures s.num > 0 && Wf(Exited(s)) && Everyone(Exited(s)) == Everyone(s)
  {
    assert Everyone(Exited(s)) == Everyone(s);
  }

  lemma ForkedKeeps<A>(s: Sched<A>, t: nat)
    requires Wf(s) && t !in Everyone(s)
    ensures Wf(Forked(s, t)) && Everyone(Forked(s, t)) == Everyone(s) + multiset{t}
  {
    assert Everyone(Forked(s, t)) == Everyone(s) + multiset{t};
  }

  lemma ExorcisedKeeps<A>(s: Sched<A>)
    requires Wf(s)
    ensures Wf(Exorcised(s)) && Everyone(s) == Everyone(Exorcised(s)) + multiset(s.zombies)
  {
    forall t | t in Everyone(Exorcised(s))
      ensures Everyone(Exorcised(s))[t] == 1
    {
      assert t in Everyone(s);
    }
  }

  // ---------------------------------------------------------------- thread_wakeup

  /** The sleepers on `a` (or, with `on` false, the others), in order. */
  function Picked<A(==)>(sl: seq<nat>, addr: map<nat, A>, a: A, on: bool): seq<nat>
    requires forall t :: t in sl ==> t in addr
  {
    if sl == [] then []
    else
      var n := |sl| - 1;
      Picked(sl[..n], addr, a, on) + if (addr[sl[n]] == a) == on then [sl[n]] else []
  }

  function Woken<A(==)>(s: Sched<A>, a: A): Sched<A>
    requires forall t :: t in s.sleepers ==> t in s.addr
  {
    s.(ready := s.ready + Picked(s.sleepers, s.addr, a, true), sleepers := Picked(s.sleepers, s.addr, a, false))
  }

  lemma {:induction false} PickedIs<A>(sl: seq<nat>, addr: map<nat, A>, a: A, on: bool)
    requires forall t :: t in sl ==> t in addr
    ensures forall t :: t in Picked(sl, addr, a, on) <==> t in sl && (addr[t] == a) == on
  {
    if sl == [] {
    } else {
      var n := |sl| - 1;
      assert sl == sl[..n] + [sl[n]];
      PickedIs(sl[..n], addr, a, on);
    }
  }

  lemma {:induction false} PickedSplit<A>(sl: seq<nat>, addr: map<nat, A>, a: A)
    requires forall t :: t in sl ==> t in addr
    ensures multiset(sl) == multiset(Picked(sl, addr, a, true)) + multiset(Picked(sl, addr, a, false))
    ensures |sl| == |Picked(sl, addr, a, true)| + |Picked(sl, addr, a, false)|
  {
    if sl == [] {
    } else {
      var n := |sl| - 1;
      assert sl == sl[..n] + [sl[n]];
      PickedSplit(sl[..n], addr, a);
    }
  }

  /** First come, first woken: of two sleepers on `a`, the one that was first on the list is first in the run queue. */
  lemma {:induction false} PickedOrder<A>(sl: seq<nat>, addr: map<nat, A>, a: A, i: nat, j: nat)
    returns (p: nat, q: nat)
    requires forall t :: t in sl ==> t in addr
    requires i < j < |sl| && addr[sl[i]] == a && addr[sl[j]] == a
    ensures p < q < |Picked(sl, addr, a, true)|
    ensures Picked(sl, addr, a, true)[p] == sl[i] && Picked(sl, addr, a, true)[q] == sl[j]
  {
    var n := |sl| - 1;
    if j < n {
      p, q := PickedOrder(sl[..n], addr, a, i, j);
    } else {
      PickedIs(sl[..n], addr, a, true);
      assert sl[..n][i] in Picked(sl[..n], addr, a, true);
      p :| 0 <= p < |Picked(sl[..n], addr, a, true)| && Picked(sl[..n], addr, a, true)[p] == sl[i];
      q := |Picked(sl[..n], addr, a, true)|;
    }
  }

  /** All and only the sleepers on `a` become runnable, behind what already was; nobody is lost or copied. */
  lemma WokenKeeps<A>(s: Sched<A>, a: A)
    requires Wf(s)
    ensures Wf(Woken(s, a)) && Everyone(Woken(s, a)) == Everyone(s)
    ensures s.ready <= Woken(s, a).ready
    ensures forall t :: t in Woken(s, a).sleepers <==> t in s.sleepers && s.addr[t] != a
    ensures forall t :: t in Woken(s, a).ready <==> t in s.ready || (t in s.sleepers && s.addr[t] == a)
  {
    hide Picked;
    PickedIs(s.sleepers, s.addr, a, true);
    PickedIs(s.sleepers, s.addr, a, false);
    PickedSplit(s.sleepers, s.addr, a);
    assert Everyone(Woken(s, a)) == Everyone(s);
  }
}
