/** What each call of lhd_io (os161/kern/dev/lamebus/lhd.c) returns, told from the outside: from the request,
    from what the device did for the caller, and from whether a copy to or from the caller failed. */
module LhdCalls {
  import opened Lhd
  import Sched
  import Synch

  /** A thread's current or last call: its request, how many operations the device had done for the thread
      before it, and whether uiomove has failed in it. */
  datatype Call = Call(req: Io, start: nat, faulted: bool)

  // ---------------------------------------------------------------- the calls of a run

  /** uiomove is called in this step: data go to the device's buffer, or come out of it. */
  predicate Copies(l: L, c: Phase) {
    (c.Xfer? && c.io.write) || (c.Finish? && !c.io.write && l.result == Good)
  }

  ghost function Noted(l: L, a: Act, calls: map<nat, Call>): map<nat, Call>
    requires Ready(l, a)
  {
    match a
    case CallIo(io) =>
      var t := l.k.sched.cur.value;
      calls[t := Call(io, |Own(l.log, t)|, false)]
    case Go(fault) =>
      var t := l.k.sched.cur.value;
      if fault && Copies(l, l.k.pc[t].c) && t in calls then calls[t := calls[t].(faulted := true)] else calls
    case _ => calls
  }

  ghost function Calls(l: L, acts: seq<Act>, m: L, disk: seq<Data>, calls: map<nat, Call>): map<nat, Call>
    requires Inv(l, disk) && Leads(l, acts, m, disk)
    decreases |acts|
  {
    if acts == [] then calls
    else
      StepKeeps(l, disk, acts[0]);
      Calls(Step(l, acts[0], disk), acts[1..], m, disk, Noted(l, acts[0], calls))
  }

  // ---------------------------------------------------------------- what a call returns

  ghost predicate Serves(io: Io, call: Call) {
    && io.sector == call.req.sector && io.len == call.req.len && io.write == call.req.write
    && io.out == call.req.out && io.start == call.start
  }

  predicate AllGood(ops: seq<Ev>) {
    forall j :: 0 <= j < |ops| ==> ops[j].code == Good
  }

  /** The one answer to a call, where `ops` is what the device did for it. */
  function Answer(n: nat, call: Call, ops: seq<Ev>): Code {
    if call.req.sector + call.req.len > n then InvSect
    else if call.faulted then Fault
    else if ops != [] then ops[|ops| - 1].code
    else Good
  }

  function CodeOf(r: Ret): Code {
    if r.Success? then Good else r.code
  }

  /** The call has returned as it should: only its last operation can have failed, and a good return means all
      were done. */
  ghost predicate Answers(n: nat, call: Call, own: seq<Ev>, r: Ret) {
    && call.start <= |own| && Serves(r.io, call) && (r.Failure? ==> r.code != Good)
    && var ops := own[call.start..];
       && CodeOf(r) == Answer(n, call, ops) && |ops| <= call.req.len && (r.Success? ==> |ops| == call.req.len)
       && (ops != [] ==> AllGood(ops[..|ops| - 1]))
       && (call.req.sector + call.req.len > n ==> ops == [])
  }

  ghost predicate CallOk(l: L, calls: map<nat, Call>, t: nat, c: Phase) {
    if c.Free? then t in calls ==> t in l.rets && Answers(|l.disk|, calls[t], Own(l.log, t), l.rets[t])
    else t in calls && Serves(c.io, calls[t]) && !calls[t].faulted
  }

  ghost predicate CallsOk(l: L, calls: map<nat, Call>) {
    && calls.Keys <= l.k.pc.Keys
    && forall t :: t in l.k.pc ==> CallOk(l, calls, t, Stage(l.k.pc[t]))
  }

  // ---------------------------------------------------------------- steps that are not the driver's

  /** Threads may have moved, but not to another call. */
  ghost predicate SameCalls(k: Synch.K<Phase>, j: Synch.K<Phase>) {
    && k.pc.Keys <= j.pc.Keys
    && (forall t :: t in k.pc ==> SameCall(Stage(k.pc[t]), Stage(j.pc[t])))
    && (forall t :: t in j.pc && t !in k.pc ==> Stage(j.pc[t]) == Free)
  }

  predicate SameCall(c: Phase, d: Phase) {
    if c.Free? then d.Free? else !d.Free? && d.io == c.io
  }

  lemma SameCallsOk(l: L, calls: map<nat, Call>, m: L)
    requires CallsOk(l, calls) && SameCalls(l.k, m.k)
    requires m.log == l.log && m.rets == l.rets && |m.disk| == |l.disk|
    ensures CallsOk(m, calls)
  {
    hide Stage, Answers;
    forall t | t in m.k.pc
      ensures CallOk(m, calls, t, Stage(m.k.pc[t]))
    {
      if t in l.k.pc {
        assert CallOk(l, calls, t, Stage(l.k.pc[t])) && SameCall(Stage(l.k.pc[t]), Stage(m.k.pc[t]));
      }
    }
  }

  lemma SyncSame(k: Synch.K<Phase>, b: Synch.Action<Phase>)
    requires Synch.Ok(k) && Synch.Enabled(k, b) && Allowed(k, b)
    requires forall t :: t in k.pc ==> Shape(k.pc[t])
    ensures SameCalls(k, Synch.Next(k, b))
  {
    hide Sched.Wf, Sched.Everyone, Sched.Picked;
    Synch.ReadyOk(k);
  }

  lemma TurnSame(l: L, s: nat, c: Phase, after: Phase)
    requires l.k.sched.cur.Some? && l.k.sched.cur.value in l.k.pc && s < |l.k.sems|
    requires l.k.pc[l.k.sched.cur.value] == Synch.Run(c)
    requires (c.Start? && after == Xfer(c.io)) || (c.Wait? && after == Finish(c.io))
    ensures SameCalls(l.k, Synch.DoP(l.k, s, after))
  {
  }

  // ---------------------------------------------------------------- the driver's steps

  /** One thread goes on, or returns; nothing else happens to anybody's call. */
  lemma OneMoves(l: L, calls: map<nat, Call>, m: L, now: map<nat, Call>, t: nat)
    requires CallsOk(l, calls) && t in l.k.pc && m.k.pc.Keys == l.k.pc.Keys
    requires forall x :: x in l.k.pc && x != t ==> m.k.pc[x] == l.k.pc[x] && (x in m.rets <==> x in l.rets)
    requires forall x :: x in l.rets && x != t ==> x in m.rets && m.rets[x] == l.rets[x]
    requires now.Keys <= calls.Keys + {t} && forall x :: x in calls && x != t ==> x in now && now[x] == calls[x]
    requires m.log == l.log && |m.disk| == |l.disk| && CallOk(m, now, t, Stage(m.k.pc[t]))
    ensures CallsOk(m, now)
  {
    hide Stage, Answers;
    forall x | x in m.k.pc
      ensures CallOk(m, now, x, Stage(m.k.pc[x]))
    {
      assert CallOk(l, calls, x, Stage(l.k.pc[x]));
    }
  }

  lemma CallNoted(l: L, calls: map<nat, Call>, io: Io)
    requires CallsOk(l, calls) && Ready(l, CallIo(io))
    ensures CallsOk(Called(l, io), Noted(l, CallIo(io), calls))
  {
    hide Own;
    var t := l.k.sched.cur.value;
    OneMoves(l, calls, Called(l, io), Noted(l, CallIo(io), calls), t);
  }

  lemma StoppedAt(own: seq<Ev>, t: nat, io: Io, m: nat)
    requires io.start + m <= |own| && forall j :: 0 <= j < m ==> SectorDone(own, t, io, j)
    ensures AllGood(own[io.start..io.start + m])
  {
    var ops := own[io.start..io.start + m];
    forall j | 0 <= j < m
      ensures ops[j].code == Good
    {
      assert SectorDone(own, t, io, j);
    }
  }

  lemma XferNoted(l: L, u: Sched.Option<nat>, calls: map<nat, Call>, io: Io, fault: bool)
    requires DevOk(l, u) && CallsOk(l, calls) && Ready(l, Go(fault))
    requires l.k.pc[l.k.sched.cur.value] == Synch.Run(Xfer(io)) && (io.write ==> io.i < |io.out|)
    requires forall t :: t in l.k.sched.sleepers ==> t in l.k.sched.addr
    ensures CallsOk(GoXfer(l, io, fault), Noted(l, Go(fault), calls))
  {
    hide Own, DevOk, Handshake, SectorDone;
    var t := l.k.sched.cur.value;
    TwoSems(l, u);
    HandshakeOf(l, u, t);
    assert CallOk(l, calls, t, Stage(l.k.pc[t]));
    var own := Own(l.log, t);
    StoppedAt(own, t, io, io.i);
    assert own[io.start..] == own[io.start..io.start + io.i];
    OneMoves(l, calls, GoXfer(l, io, fault), Noted(l, Go(fault), calls), t);
  }

  /** The device has answered, and the call goes on to the next sector or returns. */
  lemma FinishAnswers(l: L, t: nat, call: Call, io: Io, fault: bool)
    requires IoOk(l.log, |l.disk|, t, io, 1) && Answered(l, t, io, l.result) && Serves(io, call) && !call.faulted
    ensures var code := Outcome(l, io, fault);
            var now := call.(faulted := fault && Copies(l, Finish(io)));
            && (code != Good ==> Answers(|l.disk|, now, Own(l.log, t), Failure(io, code)))
            && (code == Good ==> !now.faulted && Serves(Advanced(l, io), call))
            && (code == Good && io.i + 1 == io.len ==>
                  Answers(|l.disk|, now, Own(l.log, t), Success(Advanced(l, io))))
  {
    hide Own, SectorDone;
    var own := Own(l.log, t);
    OwnLast(l.log, t);
    StoppedAt(own, t, io, io.i);
    var ops := own[io.start..];
    assert ops[..|ops| - 1] == own[io.start..io.start + io.i];
  }

  lemma FinishNoted(l: L, u: Sched.Option<nat>, calls: map<nat, Call>, io: Io, fault: bool)
    requires DevOk(l, u) && CallsOk(l, calls) && Ready(l, Go(fault))
    requires l.k.pc[l.k.sched.cur.value] == Synch.Run(Finish(io))
    requires forall t :: t in l.k.sched.sleepers ==> t in l.k.sched.addr
    ensures |l.k.sems| >= 2 && CallsOk(GoFinish(l, io, fault), Noted(l, Go(fault), calls))
  {
    hide Own, DevOk, IoOk, Answers, Answered, Outcome, Serves, Copies, Advanced;
    var t := l.k.sched.cur.value;
    TwoSems(l, u);
    HandshakeOf(l, u, t);
    assert CallOk(l, calls, t, Stage(l.k.pc[t]));
    FinishAnswers(l, t, calls[t], io, fault);
    assert calls[t].(faulted := false) == calls[t];
    IoInRange(l.log, |l.disk|, t, io, 1);
    StepsOn(l, io);
    OneMoves(l, calls, GoFinish(l, io, fault), Noted(l, Go(fault), calls), t);
  }

  lemma StepsOn(l: L, io: Io)
    ensures Advanced(l, io).i == io.i + 1 && Advanced(l, io).len == io.len
  {
  }

  /** The device works only for a thread that waits for it. */
  lemma ServedNoted(l: L, u: Sched.Option<nat>, calls: map<nat, Call>, code: Code)
    requires DevOk(l, u) && CallsOk(l, calls) && Ready(l, Serve(code))
    ensures CallsOk(Served(l, code), calls)
  {
    hide Own, IoOk, Answers;
    var m := Served(l, code);
    var e := m.log[|l.log|];
    forall t | t in m.k.pc
      ensures CallOk(m, calls, t, Stage(m.k.pc[t]))
    {
      assert CallOk(l, calls, t, Stage(l.k.pc[t])) && ThreadOk(l, u, t, l.k.pc[t]);
      OwnPush(l.log, e, t);
      assert e.who != t ==> Own(m.log, t) == Own(l.log, t);
    }
  }

  lemma StepNoted(l: L, disk: seq<Data>, a: Act, calls: map<nat, Call>)
    requires Inv(l, disk) && Ready(l, a) && CallsOk(l, calls)
    ensures CallsOk(Step(l, a, disk), Noted(l, a, calls))
  {
    hide Synch.Ok, DevOk, HistoryOk, Sched.Everyone, CallsOk, CallOk, Stage, Handshake;
    StepFacts(l, disk, a);
    var u :| DevOk(l, u);
    Shapes(l, u);
    match a
    case Sync(b) =>
      SyncSame(l.k, b);
      SameCallsOk(l, calls, Step(l, a, disk));
    case CallIo(io) => CallNoted(l, calls, io);
    case Go(fault) =>
      var c := l.k.pc[l.k.sched.cur.value].c;
      match c {
        case Start(io) =>
          TurnSame(l, CLEAR, c, Xfer(io));
          SameCallsOk(l, calls, Step(l, a, disk));
        case Wait(io) =>
          TurnSame(l, DONE, c, Finish(io));
          SameCallsOk(l, calls, Step(l, a, disk));
        case Xfer(io) => XferNoted(l, u, calls, io, fault);
        case Finish(io) => FinishNoted(l, u, calls, io, fault);
      }
    case Serve(code) => ServedNoted(l, u, calls, code);
    case Irq =>
      SamePlaces(l.k, Interrupted(l).k);
      SameCallsOk(l, calls, Interrupted(l));
  }

  lemma SamePlaces(k: Synch.K<Phase>, j: Synch.K<Phase>)
    requires j.pc == k.pc
    ensures SameCalls(k, j)
  {
  }

  // ---------------------------------------------------------------- whole runs

  lemma {:induction false} RunNoted(l: L, acts: seq<Act>, m: L, disk: seq<Data>, calls: map<nat, Call>)
    requires Inv(l, disk) && Leads(l, acts, m, disk) && CallsOk(l, calls)
    ensures CallsOk(m, Calls(l, acts, m, disk, calls))
    decreases |acts|
  {
    hide Inv, CallsOk, Noted;
    if acts == [] {
    } else {
      StepKeeps(l, disk, acts[0]);
      StepNoted(l, disk, acts[0], calls);
      RunNoted(Step(l, acts[0], disk), acts[1..], m, disk, Noted(l, acts[0], calls));
    }
  }

  /** In every run from configuration on, a thread that is back from lhd_io has the one right answer: InvSect
      past the end of the disk, Fault exactly if one of its copies failed, else what the device said last. */
  lemma EveryReturn(acts: seq<Act>, m: L, disk: seq<Data>, t: nat)
    requires Inv(Configured(disk), disk) && Leads(Configured(disk), acts, m, disk)
    requires t in m.k.pc && Stage(m.k.pc[t]) == Free && t in Calls(Configured(disk), acts, m, disk, map[])
    ensures t in m.rets && |m.disk| == |disk|
    ensures Answers(|disk|, Calls(Configured(disk), acts, m, disk, map[])[t], Own(m.log, t), m.rets[t])
  {
    hide Answers;
    RunNoted(Configured(disk), acts, m, disk, map[]);
    RunKeeps(Configured(disk), acts, m, disk);
    assert CallOk(m, Calls(Configured(disk), acts, m, disk, map[]), t, Stage(m.k.pc[t]));
  }

  // ---------------------------------------------------------------- nothing fails by itself

  /** No copy fails and the device never refuses. */
  predicate Smooth(acts: seq<Act>) {
    forall i :: 0 <= i < |acts| ==> acts[i] != Go(true) && (acts[i].Serve? ==> acts[i].code == Good)
  }

  predicate NoFaults(calls: map<nat, Call>) {
    forall t :: t in calls ==> !calls[t].faulted
  }

  lemma StepSmooth(l: L, disk: seq<Data>, a: Act, calls: map<nat, Call>)
    requires Inv(l, disk) && Ready(l, a) && Smooth([a]) && AllGood(l.log) && NoFaults(calls)
    ensures AllGood(Step(l, a, disk).log) && NoFaults(Noted(l, a, calls))
  {
    hide Inv, Synch.Next, Synch.DoP, Synch.DoV, Own;
    assert [a][0] == a;
    StepFacts(l, disk, a);
  }

  lemma {:induction false} RunSmooth(l: L, acts: seq<Act>, m: L, disk: seq<Data>, calls: map<nat, Call>)
    requires Inv(l, disk) && Leads(l, acts, m, disk) && Smooth(acts) && AllGood(l.log) && NoFaults(calls)
    ensures AllGood(m.log) && NoFaults(Calls(l, acts, m, disk, calls))
    decreases |acts|
  {
    hide Inv, Noted, NoFaults, AllGood;
    if acts == [] {
    } else {
      StepKeeps(l, disk, acts[0]);
      StepSmooth(l, disk, acts[0], calls);
      RunSmooth(Step(l, acts[0], disk), acts[1..], m, disk, Noted(l, acts[0], calls));
    }
  }

  lemma {:induction false} OwnGood(log: seq<Ev>, t: nat)
    requires AllGood(log)
    ensures AllGood(Own(log, t))
  {
    if log == [] {
    } else {
      OwnGood(log[..|log| - 1], t);
    }
  }

  /** If no copy fails and the device never refuses, every lhd_io inside the disk succeeds. */
  lemma SmoothSucceeds(acts: seq<Act>, m: L, disk: seq<Data>, t: nat)
    requires Inv(Configured(disk), disk) && Leads(Configured(disk), acts, m, disk) && Smooth(acts)
    requires t in m.k.pc && Stage(m.k.pc[t]) == Free && t in Calls(Configured(disk), acts, m, disk, map[])
    ensures t in m.rets && var req := Calls(Configured(disk), acts, m, disk, map[])[t].req;
      m.rets[t].Success? <==> req.sector + req.len <= |disk|
  {
    hide Own;
    EveryReturn(acts, m, disk, t);
    RunSmooth(Configured(disk), acts, m, disk, map[]);
    OwnGood(m.log, t);
  }

  // ---------------------------------------------------------------- nobody waits for ever

  /** A thread inside lhd_io is alive. */
  ghost predicate CallersLive(l: L) {
    forall t :: t in l.k.pc && !Stage(l.k.pc[t]).Free? ==> t in Synch.Living(l.k)
  }

  /** Whoever is in lhd_io now was there before, or is the current thread; and nobody has died. */
  lemma LiveKept(l: L, m: L)
    requires CallersLive(l) && Synch.Living(m.k) == Synch.Living(l.k)
    requires forall t :: t in m.k.pc && !Stage(m.k.pc[t]).Free? ==>
      (t in l.k.pc && !Stage(l.k.pc[t]).Free?) || l.k.sched.cur == Sched.Some(t)
    ensures CallersLive(m)
  {
    hide Stage;
    if l.k.sched.cur.Some? {
      assert l.k.sched.cur.value in Sched.Current(l.k.sched);
    }
  }

  lemma SyncLive(l: L, b: Synch.Action<Phase>)
    requires Synch.Ok(l.k) && Ready(l, Sync(b)) && CallersLive(l)
    requires forall t :: t in l.k.pc ==> Shape(l.k.pc[t])
    ensures CallersLive(l.(k := Synch.Next(l.k, b)))
  {
    hide Synch.Ok, Synch.Living, Synch.Next, Shape;
    SyncSame(l.k, b);
    Synch.StepThreads(l.k, b);
    var j := Synch.Next(l.k, b);
    forall t | t in j.pc && !Stage(j.pc[t]).Free?
      ensures t in Synch.Living(j)
    {
      assert t in l.k.pc && SameCall(Stage(l.k.pc[t]), Stage(j.pc[t]));
    }
  }

  /** V on a driver semaphore, after the current thread may have moved. */
  lemma GiveLive(l: L, c: Phase, s: nat)
    requires Synch.Ok(l.k) && l.k.sched.cur.Some? && s < |l.k.sems|
    ensures var j := Synch.PutPc(l.k, l.k.sched.cur.value, Synch.Run(c));
            && (forall t :: t in j.sched.sleepers ==> t in j.sched.addr)
            && Synch.Living(Synch.DoV(j, s)) == Synch.Living(l.k)
  {
    hide Synch.Ok, Synch.Living;
    Synch.BecomeKeeps(l.k, c);
    var j := Synch.PutPc(l.k, l.k.sched.cur.value, Synch.Run(c));
    Synch.ReadyOk(j);
    Synch.StepThreads(j, Synch.V(s));
    Synch.SameLiving(j, l.k);
  }

  lemma GoLive(l: L, disk: seq<Data>, fault: bool)
    requires Inv(l, disk) && Ready(l, Go(fault)) && CallersLive(l)
    ensures CallersLive(Step(l, Go(fault), disk))
  {
    hide Synch.Ok, Synch.Living, DevOk, HistoryOk, Stage, CallersLive, Synch.DoP, Synch.DoV;
    StepFacts(l, disk, Go(fault));
    var t, m := l.k.sched.cur.value, Step(l, Go(fault), disk);
    var c := l.k.pc[t].c;
    match c
    case Start(io) =>
      Synch.StepThreads(l.k, Synch.P(CLEAR, Xfer(io)));
      TurnSame(l, CLEAR, c, Xfer(io));
      MovedLive(l, m);
    case Wait(io) =>
      Synch.StepThreads(l.k, Synch.P(DONE, Finish(io)));
      TurnSame(l, DONE, c, Finish(io));
      MovedLive(l, m);
    case Xfer(io) =>
      if io.write && fault {
        GiveLive(l, Free, CLEAR);
        DoVPcs(Synch.PutPc(l.k, t, Synch.Run(Free)), CLEAR);
      } else {
        Synch.SameLiving(m.k, l.k);
      }
      LiveKept(l, m);
    case Finish(io) =>
      var next := if Outcome(l, io, fault) != Good || Advanced(l, io).i == io.len then Free else Start(Advanced(l, io));
      GiveLive(l, next, CLEAR);
      DoVPcs(Synch.PutPc(l.k, t, Synch.Run(next)), CLEAR);
      LiveKept(l, m);
  }

  lemma MovedLive(l: L, m: L)
    requires CallersLive(l) && SameCalls(l.k, m.k) && Synch.Living(m.k) == Synch.Living(l.k)
    ensures CallersLive(m)
  {
    hide Stage, Synch.Living;
    forall t | t in m.k.pc && !Stage(m.k.pc[t]).Free?
      ensures t in l.k.pc && !Stage(l.k.pc[t]).Free?
    {
      assert t in l.k.pc && SameCall(Stage(l.k.pc[t]), Stage(m.k.pc[t]));
    }
    LiveKept(l, m);
  }

  lemma DoVPcs(k: Synch.K<Phase>, s: nat)
    requires s < |k.sems| && forall t :: t in k.sched.sleepers ==> t in k.sched.addr
    ensures Synch.DoV(k, s).pc == k.pc
  {
  }

  lemma StepLive(l: L, disk: seq<Data>, a: Act)
    requires Inv(l, disk) && Ready(l, a) && CallersLive(l)
    ensures CallersLive(Step(l, a, disk))
  {
    hide Synch.Ok, DevOk, HistoryOk, Stage, Synch.Living, CallersLive, Synch.DoV;
    StepFacts(l, disk, a);
    var u :| DevOk(l, u);
    Shapes(l, u);
    match a
    case Sync(b) => SyncLive(l, b);
    case CallIo(io) =>
      Synch.SameLiving(Called(l, io).k, l.k);
      LiveKept(l, Called(l, io));
    case Go(fault) => GoLive(l, disk, fault);
    case Serve(code) => LiveKept(l, Served(l, code));
    case Irq =>
      Synch.StepThreads(l.k, Synch.V(DONE));
      DoVPcs(l.k, DONE);
      LiveKept(l, Interrupted(l));
  }

  lemma {:induction false} RunLive(l: L, acts: seq<Act>, m: L, disk: seq<Data>)
    requires Inv(l, disk) && Leads(l, acts, m, disk) && CallersLive(l)
    ensures CallersLive(m)
    decreases |acts|
  {
    hide Inv, CallersLive;
    if acts == [] {
    } else {
      StepKeeps(l, disk, acts[0]);
      StepLive(l, disk, acts[0]);
      RunLive(Step(l, acts[0], disk), acts[1..], m, disk);
    }
  }

  /** In no run does everybody wait for ever: while a thread is in lhd_io some step of the threads, the device
      or the interrupt handler can be taken, other than a new call. */
  lemma NeverStuck(acts: seq<Act>, m: L, disk: seq<Data>, t: nat) returns (a: Act)
    requires Inv(Configured(disk), disk) && Leads(Configured(disk), acts, m, disk)
    requires t in m.k.pc && !Stage(m.k.pc[t]).Free?
    ensures Ready(m, a) && (a == Sync(Synch.Preempt) || a == Sync(Synch.Dispatch(true)) || a.Serve? || a.Irq?)
    ensures m.k.sched.cur.None? && m.k.sched.ready == [] ==> a.Serve? || a.Irq?
    ensures m.k.sched.cur == Sched.Some(t) && m.k.pc[t].Run? ==> Ready(m, Go(false))
  {
    RunKeeps(Configured(disk), acts, m, disk);
    RunLive(Configured(disk), acts, m, disk);
    if m.k.sched.cur.Some? {
      a := Sync(Synch.Preempt);
    } else if m.k.sched.ready != [] {
      a := Sync(Synch.Dispatch(true));
    } else {
      AsleepInDriver(m, disk, t);
      a := if m.dev.Working? then Serve(Media) else Irq;
    }
  }

  lemma AsleepInDriver(m: L, disk: seq<Data>, t: nat)
    requires Inv(m, disk) && CallersLive(m)
    requires t in m.k.pc && !Stage(m.k.pc[t]).Free? && m.k.sched.cur.None? && m.k.sched.ready == []
    ensures !m.dev.Idle?
  {
    hide HistoryOk, IoOk, Answered, Sched.Wf, Sched.Everyone;
    var u: Sched.Option<nat> :| DevOk(m, u);
    var v := if u.Some? then u.value else t;
    assert ThreadOk(m, u, v, m.k.pc[v]) && ThreadOk(m, u, t, m.k.pc[t]);
    assert v in Synch.Living(m.k) && v in m.k.sched.sleepers;
    assert Synch.SleeperOk(m.k, v);
  }

  // ---------------------------------------------------------------- the device's side

  /** What the device answered, in order. */
  function Replies(acts: seq<Act>): seq<Code> {
    if acts == [] then [] else (if acts[0].Serve? then [acts[0].code] else []) + Replies(acts[1..])
  }

  function Codes(log: seq<Ev>): (r: seq<Code>)
    ensures |r| == |log|
  {
    seq(|log|, i requires 0 <= i < |log| => log[i].code)
  }

  lemma StepLogged(l: L, disk: seq<Data>, a: Act)
    requires Inv(l, disk) && Ready(l, a)
    ensures Codes(Step(l, a, disk).log) == Codes(l.log) + if a.Serve? then [a.code] else []
  {
    hide Inv, Synch.Next, Synch.DoP, Synch.DoV, Own;
    StepFacts(l, disk, a);
  }

  /** The history is the device's own: one entry for each answer, with its code. */
  lemma {:induction false} HistoryLogged(l: L, acts: seq<Act>, m: L, disk: seq<Data>)
    requires Inv(l, disk) && Leads(l, acts, m, disk)
    ensures Codes(m.log) == Codes(l.log) + Replies(acts)
    decreases |acts|
  {
    hide Inv, Codes, Step, Ready;
    if acts == [] {
      assert Codes(l.log) + [] == Codes(l.log);
    } else {
      StepKeeps(l, disk, acts[0]);
      StepLogged(l, disk, acts[0]);
      HistoryLogged(Step(l, acts[0], disk), acts[1..], m, disk);
      var c, x, r := Codes(l.log), if acts[0].Serve? then [acts[0].code] else [], Replies(acts[1..]);
      assert c + x + r == c + (x + r);
    }
  }

  // ---------------------------------------------------------------- a run

  lemma Cons(l: L, a: Act, acts: seq<Act>, m: L, disk: seq<Data>)
    requires Inv(l, disk) && Ready(l, a) && Inv(Step(l, a, disk), disk) && Leads(Step(l, a, disk), acts, m, disk)
    ensures Leads(l, [a] + acts, m, disk)
  {
    hide Inv;
    assert ([a] + acts)[1..] == acts;
  }

  /** A machine with the boot thread alone, at place `p`. */
  ghost function Alone(cur: Sched.Option<nat>, ready: seq<nat>, sleepers: seq<nat>, addr: map<nat, Synch.Addr>,
                       p: Synch.Pc<Phase>, clear: nat, done: nat): Synch.K<Phase> {
    Synch.K(Sched.Sched(cur, ready, sleepers, [], addr, 1), map[0 := p], [Synch.Sem(clear), Synch.Sem(done)], [])
  }

  ghost function Request(): Io {
    Io(0, 1, false, [], 0, [], 0)
  }

  lemma OneReadStarts(disk: seq<Data>) returns (l: L)
    requires |disk| > 0
    ensures Inv(Configured(disk), disk) && Inv(l, disk)
    ensures Leads(Configured(disk), [CallIo(Request()), Go(false), Go(false), Go(false)], l, disk)
    ensures l == L(Alone(Sched.None, [], [0], map[0 := Synch.OnSem(DONE)], Synch.InP(DONE, Finish(Request())), 0, 0),
                   Working(0, false, 0), 0, Good, disk, [], map[])
  {
    hide Inv;
    ConfiguredOk(disk);
    var l0 := Configured(disk);
    assert Own([], 0) == [];
    var l1 := L(Alone(Sched.Some(0), [], [], map[], Synch.Run(Start(Request())), 1, 0), Idle, 0, Good, disk, [], map[]);
    assert Step(l0, CallIo(Request()), disk) == l1;
    StepKeeps(l0, disk, CallIo(Request()));
    var l2 := L(Alone(Sched.Some(0), [], [], map[], Synch.Run(Xfer(Request())), 0, 0), Idle, 0, Good, disk, [], map[]);
    assert Step(l1, Go(false), disk) == l2;
    StepKeeps(l1, disk, Go(false));
    var l3 := L(Alone(Sched.Some(0), [], [], map[], Synch.Run(Wait(Request())), 0, 0),
                Working(0, false, 0), 0, Good, disk, [], map[]);
    assert Step(l2, Go(false), disk) == l3;
    StepKeeps(l2, disk, Go(false));
    l := L(Alone(Sched.None, [], [0], map[0 := Synch.OnSem(DONE)], Synch.InP(DONE, Finish(Request())), 0, 0),
           Working(0, false, 0), 0, Good, disk, [], map[]);
    assert Step(l3, Go(false), disk) == l;
    StepKeeps(l3, disk, Go(false));
    hide Step, Ready, Alone;
    Cons(l3, Go(false), [], l, disk);
    Cons(l2, Go(false), [Go(false)], l, disk);
    Cons(l1, Go(false), [Go(false), Go(false)], l, disk);
    Cons(l0, CallIo(Request()), [Go(false), Go(false), Go(false)], l, disk);
  }

  lemma OneReadEnds(l: L, disk: seq<Data>) returns (m: L)
    requires |disk| > 0 && Inv(l, disk)
    requires l == L(Alone(Sched.None, [], [0], map[0 := Synch.OnSem(DONE)], Synch.InP(DONE, Finish(Request())), 0, 0),
                    Working(0, false, 0), 0, Good, disk, [], map[])
    ensures Leads(l, [Serve(Good), Irq, Sync(Synch.Dispatch(true)), Go(false)], m, disk)
    ensures 0 in m.rets && m.rets[0] == Success(Request().(i := 1, got := [disk[0]]))
  {
    hide Inv;
    var log := [Ev(0, 0, false, disk[0], Good)];
    var addr: map<nat, Synch.Addr> := map[0 := Synch.OnSem(DONE)];
    var l1 := L(l.k, Done(Good, 0), disk[0], Good, disk, log, map[]);
    assert Step(l, Serve(Good), disk) == l1;
    StepKeeps(l, disk, Serve(Good));
    var l2 := L(Alone(Sched.None, [0], [], addr, Synch.InP(DONE, Finish(Request())), 0, 1),
                Idle, disk[0], Good, disk, log, map[]);
    OneWoken(addr);
    assert Step(l1, Irq, disk) == l2;
    StepKeeps(l1, disk, Irq);
    var l3 := L(Alone(Sched.Some(0), [], [], addr, Synch.Run(Finish(Request())), 0, 0),
                Idle, disk[0], Good, disk, log, map[]);
    assert Step(l2, Sync(Synch.Dispatch(true)), disk) == l3;
    StepKeeps(l2, disk, Sync(Synch.Dispatch(true)));
    m := Step(l3, Go(false), disk);
    assert [] + [disk[0]] == [disk[0]];
    assert m.rets == map[0 := Success(Request().(i := 1, got := [disk[0]]))];
    StepKeeps(l3, disk, Go(false));
    hide Step, Ready, Alone;
    Cons(l3, Go(false), [], m, disk);
    Cons(l2, Sync(Synch.Dispatch(true)), [Go(false)], m, disk);
    Cons(l1, Irq, [Sync(Synch.Dispatch(true)), Go(false)], m, disk);
    Cons(l, Serve(Good), [Irq, Sync(Synch.Dispatch(true)), Go(false)], m, disk);
  }

  lemma OneWoken(addr: map<nat, Synch.Addr>)
    requires 0 in addr && addr[0] == Synch.OnSem(DONE)
    ensures Sched.Picked([0], addr, Synch.OnSem(DONE), true) == [0]
    ensures Sched.Picked([0], addr, Synch.OnSem(DONE), false) == []
  {
    assert [0][..0] == [] && [] + [0] == [0];
  }

  lemma {:induction false} Joined(l: L, acts: seq<Act>, k: L, more: seq<Act>, m: L, disk: seq<Data>)
    requires Inv(l, disk) && Leads(l, acts, k, disk) && Inv(k, disk) && Leads(k, more, m, disk)
    ensures Leads(l, acts + more, m, disk)
    decreases |acts|
  {
    hide Inv, Step, Ready;
    if acts == [] {
      assert acts + more == more;
    } else {
      StepKeeps(l, disk, acts[0]);
      Joined(Step(l, acts[0], disk), acts[1..], k, more, m, disk);
      assert (acts + more)[1..] == acts[1..] + more;
    }
  }

  /** A run: the boot thread reads sector 0, sleeps until the interrupt, and returns with what is there. */
  lemma OneRead(disk: seq<Data>) returns (acts: seq<Act>, m: L)
    requires |disk| > 0
    ensures Inv(Configured(disk), disk) && Leads(Configured(disk), acts, m, disk)
    ensures acts != [] && acts[0] == CallIo(Request())
    ensures 0 in m.rets && m.rets[0] == Success(Request().(i := 1, got := [disk[0]]))
  {
    hide Inv, Leads, Alone;
    var l := OneReadStarts(disk);
    m := OneReadEnds(l, disk);
    var before := [CallIo(Request()), Go(false), Go(false), Go(false)];
    var after := [Serve(Good), Irq, Sync(Synch.Dispatch(true)), Go(false)];
    Joined(Configured(disk), before, l, after, m, disk);
    acts := before + after;
  }
}
