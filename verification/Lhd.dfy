/** The lamebus hard disk driver (os161/kern/dev/lamebus/lhd.c) between its two semaphores: any number of
    threads in lhd_io, the device, and the interrupt handler, in any order.  The contents of a sector are an
    opaque value. */
module Lhd {
  import opened Sched
  import opened Synch

  type Data = nat

  /** What the device reports, with the result of a failed uiomove. */
  datatype Code = Good | InvSect | Media | Fault

  /** One lhd_io of `len` sectors, `i` of them done.  `out` is what it writes, `got` what it has read; `start`
      is how many operations the device had done for this thread when the call began. */
  datatype Io = Io(sector: nat, len: nat, write: bool, out: seq<Data>, i: nat, got: seq<Data>, start: nat)

  /** A thread outside the driver, at the top of the sector loop, with the device to itself, waiting for the
      interrupt, or about to look at the result. */
  datatype Phase = Free | Start(io: Io) | Xfer(io: Io) | Wait(io: Io) | Finish(io: Io)

  /** The status register.  `who` names the thread that started the operation. */
  datatype Dev = Idle | Working(sector: nat, write: bool, who: nat) | Done(code: Code, who: nat)

  datatype Ev = Ev(who: nat, sector: nat, write: bool, data: Data, code: Code)

  /** What a thread's last lhd_io returned. */
  datatype Ret = Success(io: Io) | Failure(io: Io, code: Code)

  datatype L = L(k: K<Phase>, dev: Dev, buf: Data, result: Code, disk: seq<Data>, log: seq<Ev>, rets: map<nat, Ret>)

  const CLEAR := 0
  const DONE := 1

  // ---------------------------------------------------------------- steps

  datatype Act = Sync(a: Action<Phase>) | CallIo(io: Io) | Go(fault: bool) | Serve(code: Code) | Irq

  /** The current thread is outside the driver. */
  ghost predicate Outside(k: K<Phase>) {
    k.sched.cur.Some? && k.sched.cur.value in k.pc && k.pc[k.sched.cur.value] == Run(Free)
  }

  /** What other kernel code may do: anything, but not to the driver's semaphores. */
  ghost predicate Allowed(k: K<Phase>, a: Action<Phase>) {
    match a
    case P(s, after) => s >= 2 && after == Free && Outside(k)
    case V(s) => s >= 2
    case Acquire(_, after) => after == Free && Outside(k)
    case Release(_) => Outside(k)
    case Become(_) => false
    case Preempt => true
    case Fork(t, c) => c == Free && t !in k.pc
    case Exit => Outside(k)
    case Dispatch(_) => true
  }

  ghost predicate Ready(l: L, a: Act) {
    match a
    case Sync(b) => Enabled(l.k, b) && Allowed(l.k, b)
    case CallIo(io) => Outside(l.k) && io.i == 0 && io.got == [] && (io.write ==> |io.out| == io.len)
    case Go(_) => l.k.sched.cur.Some? && l.k.sched.cur.value in l.k.pc && l.k.pc[l.k.sched.cur.value].Run? &&
                  !l.k.pc[l.k.sched.cur.value].c.Free?
    case Serve(code) => l.dev.Working? && code != Fault && (code == Good ==> l.dev.sector < |l.disk|)
    case Irq => l.dev.Done?
  }

  function SetPhase(l: L, c: Phase): L
    requires l.k.sched.cur.Some?
  {
    l.(k := PutPc(l.k, l.k.sched.cur.value, Run(c)))
  }

  function Returns(l: L, r: Ret): L
    requires l.k.sched.cur.Some?
  {
    SetPhase(l, Free).(rets := l.rets[l.k.sched.cur.value := r])
  }

  /** V(lh_clear) */
  function Unlock(l: L): L
    requires CLEAR < |l.k.sems| && forall t :: t in l.k.sched.sleepers ==> t in l.k.sched.addr
  {
    l.(k := DoV(l.k, CLEAR))
  }

  /** Starts the operation for sector `io.i`, or gives up if the data cannot be fetched. */
  function GoXfer(l: L, io: Io, fault: bool): L
    requires l.k.sched.cur.Some? && CLEAR < |l.k.sems| && forall t :: t in l.k.sched.sleepers ==> t in l.k.sched.addr
    requires io.write ==> io.i < |io.out|
  {
    if io.write && fault then Unlock(Returns(l, Failure(io, Fault)))
    else
      SetPhase(l, Wait(io)).(buf := if io.write then io.out[io.i] else l.buf,
                             dev := Working(io.sector + io.i, io.write, l.k.sched.cur.value))
  }

  /** The result of the sector as lhd_io sees it. */
  function Outcome(l: L, io: Io, fault: bool): Code {
    if l.result == Good && !io.write && fault then Fault else l.result
  }

  function Advanced(l: L, io: Io): Io {
    io.(i := io.i + 1, got := if io.write then io.got else io.got + [l.buf])
  }

  /** Takes the result, frees the device, and goes on to the next sector or returns. */
  function GoFinish(l: L, io: Io, fault: bool): L
    requires l.k.sched.cur.Some? && CLEAR < |l.k.sems| && forall t :: t in l.k.sched.sleepers ==> t in l.k.sched.addr
  {
    var code, next := Outcome(l, io, fault), Advanced(l, io);
    Unlock(if code != Good then Returns(l, Failure(io, code))
           else if next.i == io.len then Returns(l, Success(next))
           else SetPhase(l, Start(next)))
  }

  /** The device finishes: it has moved the sector between the disk and its buffer, or it has not. */
  function Served(l: L, code: Code): L
    requires l.dev.Working? && (code == Good ==> l.dev.sector < |l.disk|)
  {
    var buf := if code == Good && !l.dev.write then l.disk[l.dev.sector] else l.buf;
    l.(dev := Done(code, l.dev.who), buf := buf,
       disk := if code == Good && l.dev.write then l.disk[l.dev.sector := l.buf] else l.disk,
       log := l.log + [Ev(l.dev.who, l.dev.sector, l.dev.write, buf, code)])
  }

  /** lhd_irq on a finished operation. */
  function Interrupted(l: L): L
    requires l.dev.Done? && DONE < |l.k.sems| && forall t :: t in l.k.sched.sleepers ==> t in l.k.sched.addr
  {
    l.(dev := Idle, result := l.dev.code, k := DoV(l.k, DONE))
  }

  /** The beginning of lhd_io: requests past the end of the disk are refused, empty ones done. */
  function Called(l: L, io: Io): L
    requires l.k.sched.cur.Some?
  {
    var own := io.(start := |Own(l.log, l.k.sched.cur.value)|);
    if io.sector + io.len > |l.disk| then Returns(l, Failure(own, InvSect))
    else if io.len == 0 then Returns(l, Success(own))
    else SetPhase(l, Start(own))
  }

  ghost function Go1(l: L, c: Phase, fault: bool): L
    requires l.k.sched.cur.Some? && |l.k.sems| >= 2 && !c.Free? && (c.io.write ==> c.io.i < |c.io.out|)
    requires forall t :: t in l.k.sched.sleepers ==> t in l.k.sched.addr
  {
    match c
    case Start(io) => l.(k := DoP(l.k, CLEAR, Xfer(io)))
    case Xfer(io) => GoXfer(l, io, fault)
    case Wait(io) => l.(k := DoP(l.k, DONE, Finish(io)))
    case Finish(io) => GoFinish(l, io, fault)
  }

  // ---------------------------------------------------------------- the device's history

  /** The operations done for one thread, in order. */
  function Own(log: seq<Ev>, t: nat): seq<Ev> {
    if log == [] then []
    else
      var n := |log| - 1;
      Own(log[..n], t) + if log[n].who == t then [log[n]] else []
  }

  lemma OwnPush(log: seq<Ev>, e: Ev, t: nat)
    ensures Own(log + [e], t) == Own(log, t) + if e.who == t then [e] else []
  {
    assert (log + [e])[..|log|] == log;
  }

  /** The disk after the operations in `log`. */
  function After(disk: seq<Data>, log: seq<Ev>): (r: seq<Data>)
    ensures |r| == |disk|
  {
    if log == [] then disk
    else
      var n := |log| - 1;
      var d := After(disk, log[..n]);
      if log[n].write && log[n].code == Good && log[n].sector < |d| then d[log[n].sector := log[n].data] else d
  }

  /** Every successful read found what the last successful write of that sector left. */
  ghost predicate ReadsOk(disk: seq<Data>, log: seq<Ev>) {
    forall n :: 0 <= n < |log| ==> ReadOk(disk, log, n)
  }

  ghost predicate ReadOk(disk: seq<Data>, log: seq<Ev>, n: nat)
    requires n < |log|
  {
    log[n].code == Good ==>
      log[n].sector < |disk| && (!log[n].write ==> After(disk, log[..n])[log[n].sector] == log[n].data)
  }

  lemma LogPush(disk: seq<Data>, log: seq<Ev>, e: Ev)
    requires ReadsOk(disk, log)
      && (e.code == Good ==> e.sector < |disk| && (!e.write ==> After(disk, log)[e.sector] == e.data))
    ensures ReadsOk(disk, log + [e])
    ensures After(disk, log + [e]) ==
      if e.write && e.code == Good then After(disk, log)[e.sector := e.data] else After(disk, log)
  {
    var now := log + [e];
    assert now[..|log|] == log;
    forall n | 0 <= n < |now|
      ensures ReadOk(disk, now, n)
    {
      assert now[..n] == log[..n];
      assert n < |log| ==> ReadOk(disk, log, n);
    }
  }

  /** The device has done the first `m` sectors of `io` for thread `t`, with its data, one after the other. */
  ghost predicate SectorsDone(log: seq<Ev>, t: nat, io: Io, m: nat) {
    && io.start + m <= |Own(log, t)|
    && forall j :: 0 <= j < m ==> SectorDone(Own(log, t), t, io, j)
  }

  ghost predicate SectorDone(own: seq<Ev>, t: nat, io: Io, j: nat)
    requires io.start + j < |own|
  {
    && j < |if io.write then io.out else io.got|
    && own[io.start + j] == Ev(t, io.sector + j, io.write, (if io.write then io.out else io.got)[j], Good)
  }

  /** A return value is about the thread's own operations: success means all its sectors were done, failure
      means the first `i` were and, unless it was the copy that failed, the device refused the next. */
  ghost predicate RetOk(log: seq<Ev>, n: nat, t: nat, r: Ret) {
    match r
    case Success(io) => io.i == io.len && SectorsDone(log, t, io, io.len)
    case Failure(io, code) =>
      && code != Good && SectorsDone(log, t, io, io.i)
      && (code == Fault || io.sector + io.len > n ||
          (io.start + io.i < |Own(log, t)| &&
           var e := Own(log, t)[io.start + io.i];
           e.sector == io.sector + io.i && e.write == io.write && e.code == code))
  }

  // ---------------------------------------------------------------- what every step keeps

  /** The phase of a thread, whether it is about to call P or asleep inside it. */
  function Stage(p: Pc<Phase>): Phase {
    match p
    case Run(c) => c
    case InP(s, after) => if after.Xfer? then Start(after.io) else if after.Finish? then Wait(after.io) else Free
    case InAcquire(_, _) => Free
  }

  ghost predicate Shape(p: Pc<Phase>) {
    match p
    case Run(_) => true
    case InP(s, after) => (s == CLEAR && after.Xfer?) || (s == DONE && after.Finish?) || (s >= 2 && after.Free?)
    case InAcquire(_, after) => after.Free?
  }

  /** In these phases the thread has the device to itself. */
  predicate InDev(c: Phase) {
    c.Xfer? || c.Wait? || c.Finish?
  }

  /** Whether the device has already done the operation the thread is at. */
  function Extra(dev: Dev, c: Phase): nat {
    if c.Finish? || (c.Wait? && !dev.Working?) then 1 else 0
  }

  ghost predicate IoOk(log: seq<Ev>, n: nat, t: nat, io: Io, extra: nat) {
    && io.i < io.len && io.sector + io.len <= n && (if io.write then |io.out| == io.len else |io.got| == io.i)
    && |Own(log, t)| == io.start + io.i + extra && SectorsDone(log, t, io, io.i)
  }

  ghost predicate ThreadOk(l: L, u: Option<nat>, t: nat, p: Pc<Phase>) {
    var c := Stage(p);
    && Shape(p) && (InDev(c) <==> u == Some(t))
    && (c.Free? || IoOk(l.log, |l.disk|, t, c.io, Extra(l.dev, c)))
  }

  /** The last operation was the one `t` is at, and its outcome `code` and data are what the device now shows. */
  ghost predicate Answered(l: L, t: nat, io: Io, code: Code) {
    && |l.log| > 0 && l.log[|l.log| - 1] == Ev(t, io.sector + io.i, io.write, l.buf, code)
    && (io.write ==> io.i < |io.out| && l.buf == io.out[io.i])
  }

  /** The device and its completion semaphore, seen from the thread that has the device. */
  ghost predicate Handshake(l: L, done: nat, t: nat, c: Phase) {
    match c
    case Xfer(io) => l.dev.Idle? && done == 0
    case Wait(io) =>
      if l.dev.Working? then
        && done == 0 && l.dev == Working(io.sector + io.i, io.write, t)
        && (io.write ==> io.i < |io.out| && l.buf == io.out[io.i])
      else if l.dev.Done? then done == 0 && l.dev.who == t && Answered(l, t, io, l.dev.code)
      else done == 1 && Answered(l, t, io, l.result)
    case Finish(io) => l.dev.Idle? && done == 0 && Answered(l, t, io, l.result)
    case Free => false
    case Start(_) => false
  }

  /** `u` is the thread that has the device, if any: just then lh_clear is 0. */
  ghost predicate DevOk(l: L, u: Option<nat>) {
    && |l.k.sems| >= 2
    && (forall t :: t in l.k.pc ==> ThreadOk(l, u, t, l.k.pc[t]))
    && l.k.sems[CLEAR].count == (if u.Some? then 0 else 1)
    && (if u.Some? then u.value in l.k.pc && Handshake(l, l.k.sems[DONE].count, u.value, Stage(l.k.pc[u.value]))
        else l.dev.Idle? && l.k.sems[DONE].count == 0)
  }

  ghost predicate HistoryOk(l: L, disk: seq<Data>) {
    && l.disk == After(disk, l.log) && ReadsOk(disk, l.log)
    && forall t :: t in l.rets ==> RetOk(l.log, |l.disk|, t, l.rets[t])
  }

  ghost predicate Inv(l: L, disk: seq<Data>) {
    Ok(l.k) && HistoryOk(l, disk) && exists u :: DevOk(l, u)
  }

  // ---------------------------------------------------------------- steps that are not the driver's

  /** Nothing the driver cares about has changed. */
  ghost predicate SameDriver(k: K<Phase>, j: K<Phase>) {
    && |k.sems| >= 2 && |j.sems| >= 2
    && j.sems[CLEAR].count == k.sems[CLEAR].count && j.sems[DONE].count == k.sems[DONE].count
    && k.pc.Keys <= j.pc.Keys
    && (forall t :: t in j.pc ==> Shape(j.pc[t]))
    && (forall t :: t in k.pc ==> Stage(j.pc[t]) == Stage(k.pc[t]))
    && (forall t :: t in j.pc && t !in k.pc ==> Stage(j.pc[t]) == Free)
  }

  lemma SameDevOk(l: L, u: Option<nat>, j: K<Phase>)
    requires DevOk(l, u) && SameDriver(l.k, j)
    ensures DevOk(l.(k := j), u)
  {
    hide IoOk, Handshake, Shape, Stage;
    var m := l.(k := j);
    forall t | t in j.pc
      ensures ThreadOk(m, u, t, j.pc[t])
    {
      if t in l.k.pc {
        assert ThreadOk(l, u, t, l.k.pc[t]);
      }
    }
    if u.Some? {
      HandshakeSame(l, m, u.value);
    }
  }

  lemma HandshakeSame(l: L, m: L, t: nat)
    requires t in l.k.pc && |l.k.sems| >= 2 && m == l.(k := m.k)
    ensures forall d, c :: Handshake(l, d, t, c) == Handshake(m, d, t, c)
  {
  }

  lemma DispatchedDevOk(l: L, u: Option<nat>, s: Sched<Addr>)
    requires DevOk(l, u)
    ensures DevOk(l.(k := l.k.(sched := s)), u)
  {
    hide IoOk, Handshake, Stage, Shape, InDev;
    Shapes(l, u);
    SameDevOk(l, u, l.k.(sched := s));
  }

  lemma Shapes(l: L, u: Option<nat>)
    requires DevOk(l, u)
    ensures forall t :: t in l.k.pc ==> Shape(l.k.pc[t])
  {
    hide IoOk, Handshake, Stage, Shape, InDev;
    forall t | t in l.k.pc
      ensures Shape(l.k.pc[t])
    {
      assert ThreadOk(l, u, t, l.k.pc[t]);
    }
  }

  /** A call made outside the driver does not show in it. */
  lemma QuietSame(k: K<Phase>, a: Action<Phase>)
    requires Ok(k) && |k.sems| >= 2 && Enabled(k, a) && Allowed(k, a) && !a.Dispatch?
    requires forall t :: t in k.pc ==> Shape(k.pc[t])
    ensures SameDriver(k, Next(k, a))
  {
    hide Wf, Everyone, Picked;
    ReadyOk(k);
  }

  // ---------------------------------------------------------------- P on the driver's semaphores

  /** P(lh_clear) at the top of the loop: the thread gets the device exactly when nobody has it. */
  lemma TakeClear(l: L, u: Option<nat>, io: Io) returns (v: Option<nat>)
    requires DevOk(l, u) && l.k.sched.cur.Some? && l.k.sched.cur.value in l.k.pc
    requires Stage(l.k.pc[l.k.sched.cur.value]) == Start(io)
    ensures DevOk(l.(k := DoP(l.k, CLEAR, Xfer(io))), v)
    ensures v == if u.Some? then u else l.k.sched.cur
  {
    hide IoOk, Answered, Asleep;
    var t, j := l.k.sched.cur.value, DoP(l.k, CLEAR, Xfer(io));
    var m := l.(k := j);
    assert ThreadOk(l, u, t, l.k.pc[t]);
    Shapes(l, u);
    if u.Some? {
      v := u;
      assert SameDriver(l.k, j);
      SameDevOk(l, u, j);
    } else {
      v := Some(t);
      forall x | x in j.pc
        ensures ThreadOk(m, v, x, j.pc[x])
      {
        assert ThreadOk(l, u, x, l.k.pc[x]);
      }
    }
  }

  /** P(lh_done): the thread that has the device goes on exactly when its operation has been answered. */
  lemma TakeDone(l: L, u: Option<nat>, io: Io)
    requires DevOk(l, u) && l.k.sched.cur.Some? && l.k.sched.cur.value in l.k.pc
    requires Stage(l.k.pc[l.k.sched.cur.value]) == Wait(io)
    ensures DevOk(l.(k := DoP(l.k, DONE, Finish(io))), u) && u == l.k.sched.cur
  {
    hide IoOk, Answered, Asleep;
    var t, j := l.k.sched.cur.value, DoP(l.k, DONE, Finish(io));
    var m := l.(k := j);
    assert ThreadOk(l, u, t, l.k.pc[t]);
    Shapes(l, u);
    if l.k.sems[DONE].count == 0 {
      assert SameDriver(l.k, j);
      SameDevOk(l, u, j);
    } else {
      AnsweredSame(l, m, t, io);
      forall x | x in j.pc
        ensures ThreadOk(m, u, x, j.pc[x])
      {
        assert ThreadOk(l, u, x, l.k.pc[x]);
      }
    }
  }

  lemma AnsweredSame(l: L, m: L, t: nat, io: Io)
    requires m.log == l.log && m.buf == l.buf
    ensures forall c :: Answered(l, t, io, c) == Answered(m, t, io, c)
  {
  }

  // ---------------------------------------------------------------- the driver's other steps

  lemma HandshakeOf(l: L, u: Option<nat>, t: nat)
    requires DevOk(l, u) && t in l.k.pc && InDev(Stage(l.k.pc[t]))
    ensures u == Some(t) && Handshake(l, l.k.sems[DONE].count, t, Stage(l.k.pc[t]))
    ensures IoOk(l.log, |l.disk|, t, Stage(l.k.pc[t]).io, Extra(l.dev, Stage(l.k.pc[t])))
  {
    hide IoOk, Handshake, Stage, Shape;
    assert ThreadOk(l, u, t, l.k.pc[t]);
  }

  /** V(lh_clear) by the thread that has the device, which goes on with `c`. */
  lemma UnlockOk(l: L, c: Phase, rets: map<nat, Ret>)
    requires Ok(l.k) && l.k.sched.cur.Some? && DevOk(l, l.k.sched.cur) && l.dev.Idle? && l.k.sems[DONE].count == 0
    requires c.Free? || (c.Start? && IoOk(l.log, |l.disk|, l.k.sched.cur.value, c.io, 0))
    requires forall t :: t in l.k.sched.sleepers ==> t in l.k.sched.addr
    ensures DevOk(Unlock(SetPhase(l, c).(rets := rets)), None)
  {
    hide IoOk, Handshake, Shape, Ok, Woken;
    var t, m := l.k.sched.cur.value, Unlock(SetPhase(l, c).(rets := rets));
    ShapeRun(c);
    forall x | x in m.k.pc
      ensures ThreadOk(m, None, x, m.k.pc[x])
    {
      if x != t {
        assert ThreadOk(l, Some(t), x, l.k.pc[x]);
      }
    }
  }

  lemma ShapeRun(c: Phase)
    ensures Shape(Run(c))
  {
  }

  lemma GoXferDev(l: L, u: Option<nat>, io: Io, fault: bool) returns (v: Option<nat>)
    requires Ok(l.k) && DevOk(l, u) && l.k.sched.cur.Some? && l.k.sched.cur.value in l.k.pc
    requires l.k.pc[l.k.sched.cur.value] == Run(Xfer(io)) && forall t :: t in l.k.sched.sleepers ==> t in l.k.sched.addr
    ensures (io.write ==> io.i < |io.out|) && DevOk(GoXfer(l, io, fault), v)
  {
    hide Ok, Shape, SectorsDone, Woken;
    var t := l.k.sched.cur.value;
    HandshakeOf(l, u, t);
    if io.write && fault {
      v := None;
      UnlockOk(l, Free, l.rets[t := Failure(io, Fault)]);
    } else {
      v := u;
      ShapeRun(Wait(io));
      var m := GoXfer(l, io, fault);
      forall x | x in m.k.pc
        ensures ThreadOk(m, v, x, m.k.pc[x])
      {
        assert ThreadOk(l, u, x, l.k.pc[x]);
      }
    }
  }

  lemma OwnLast(log: seq<Ev>, t: nat)
    requires |log| > 0 && log[|log| - 1].who == t
    ensures |Own(log, t)| > 0 && Own(log, t)[|Own(log, t)| - 1] == log[|log| - 1]
  {
  }

  /** One more sector done. */
  lemma SectorAdvances(l: L, t: nat, io: Io)
    requires IoOk(l.log, |l.disk|, t, io, 1) && Answered(l, t, io, Good)
    ensures SectorsDone(l.log, t, Advanced(l, io), io.i + 1)
    ensures io.i + 1 < io.len ==> IoOk(l.log, |l.disk|, t, Advanced(l, io), 0)
  {
    hide Own;
    OwnLast(l.log, t);
    var next := Advanced(l, io);
    forall j | 0 <= j < io.i + 1
      ensures SectorDone(Own(l.log, t), t, next, j)
    {
      if j < io.i {
        assert SectorDone(Own(l.log, t), t, io, j);
      }
    }
  }

  lemma GoFinishDev(l: L, u: Option<nat>, io: Io, fault: bool)
    requires Ok(l.k) && DevOk(l, u) && l.k.sched.cur.Some? && l.k.sched.cur.value in l.k.pc
    requires l.k.pc[l.k.sched.cur.value] == Run(Finish(io))
      && forall t :: t in l.k.sched.sleepers ==> t in l.k.sched.addr
    ensures DevOk(GoFinish(l, io, fault), None)
  {
    hide Ok, Shape, DevOk, IoOk, SectorsDone, Answered, Unlock;
    var t, code, next := l.k.sched.cur.value, Outcome(l, io, fault), Advanced(l, io);
    assert |l.k.sems| >= 2 by {
      TwoSems(l, u);
    }
    HandshakeOf(l, u, t);
    if code != Good {
      UnlockOk(l, Free, l.rets[t := Failure(io, code)]);
    } else {
      SectorAdvances(l, t, io);
      if next.i == io.len {
        UnlockOk(l, Free, l.rets[t := Success(next)]);
      } else {
        IoInRange(l.log, |l.disk|, t, io, 1);
        UnlockOk(l, Start(next), l.rets);
        assert SetPhase(l, Start(next)).(rets := l.rets) == SetPhase(l, Start(next));
      }
    }
  }

  lemma TwoSems(l: L, u: Option<nat>)
    requires DevOk(l, u)
    ensures |l.k.sems| >= 2
  {
  }

  lemma IoInRange(log: seq<Ev>, n: nat, t: nat, io: Io, extra: nat)
    requires IoOk(log, n, t, io, extra)
    ensures io.i < io.len
  {
  }

  lemma CalledDev(l: L, u: Option<nat>, io: Io)
    requires DevOk(l, u) && Ready(l, CallIo(io))
    ensures DevOk(Called(l, io), u)
  {
    hide Handshake, Own;
    var t, m := l.k.sched.cur.value, Called(l, io);
    assert ThreadOk(l, u, t, l.k.pc[t]);
    forall x | x in m.k.pc
      ensures ThreadOk(m, u, x, m.k.pc[x])
    {
      assert ThreadOk(l, u, x, l.k.pc[x]);
    }
    if u.Some? {
      HandshakeRets(l, m, u.value);
    }
  }

  lemma HandshakeRets(l: L, m: L, t: nat)
    requires m == l.(k := m.k, rets := m.rets)
    ensures forall d, c :: Handshake(l, d, t, c) == Handshake(m, d, t, c)
  {
  }

  /** lhd_irq: the operation's thread finds exactly one completion, and the result is its own. */
  lemma InterruptedDev(l: L, u: Option<nat>)
    requires DevOk(l, u) && l.dev.Done? && forall t :: t in l.k.sched.sleepers ==> t in l.k.sched.addr
    ensures DevOk(Interrupted(l), u)
  {
    hide IoOk, Shape, Woken;
    var m := Interrupted(l);
    forall x | x in m.k.pc
      ensures ThreadOk(m, u, x, m.k.pc[x])
    {
      assert ThreadOk(l, u, x, l.k.pc[x]);
    }
  }

  lemma ServedDev(l: L, u: Option<nat>, code: Code)
    requires DevOk(l, u) && Ready(l, Serve(code))
    ensures DevOk(Served(l, code), u)
  {
    hide Shape, Own, SectorsDone;
    var m := Served(l, code);
    var e := m.log[|l.log|];
    forall x | x in m.k.pc
      ensures ThreadOk(m, u, x, m.k.pc[x])
    {
      assert ThreadOk(l, u, x, l.k.pc[x]);
      OwnPush(l.log, e, x);
      var c := Stage(l.k.pc[x]);
      if !c.Free? {
        DonePush(l.log, e, x, c.io, c.io.i);
      }
    }
  }

  lemma DonePush(log: seq<Ev>, e: Ev, t: nat, io: Io, m: nat)
    requires SectorsDone(log, t, io, m)
    ensures SectorsDone(log + [e], t, io, m)
  {
    OwnPush(log, e, t);
    forall j | 0 <= j < m
      ensures SectorDone(Own(log + [e], t), t, io, j)
    {
      assert SectorDone(Own(log, t), t, io, j);
    }
  }

  // ---------------------------------------------------------------- the history and the return values

  lemma RetKept(log: seq<Ev>, e: Ev, n: nat, t: nat, r: Ret)
    requires RetOk(log, n, t, r)
    ensures RetOk(log + [e], n, t, r)
  {
    hide Own, SectorsDone;
    OwnPush(log, e, t);
    DonePush(log, e, t, r.io, r.io.i);
  }

  lemma ServedHistory(l: L, disk: seq<Data>, code: Code)
    requires HistoryOk(l, disk) && Ready(l, Serve(code))
    ensures HistoryOk(Served(l, code), disk)
  {
    hide RetOk, After, ReadsOk;
    var m := Served(l, code);
    var e := m.log[|l.log|];
    LogPush(disk, l.log, e);
    forall t | t in m.rets
      ensures RetOk(m.log, |m.disk|, t, m.rets[t])
    {
      RetKept(l.log, e, |l.disk|, t, l.rets[t]);
    }
  }

  lemma ReturnsHistory(l: L, disk: seq<Data>, m: L, t: nat, r: Ret)
    requires HistoryOk(l, disk) && m.log == l.log && m.disk == l.disk && m.rets == l.rets[t := r]
    requires RetOk(l.log, |l.disk|, t, r)
    ensures HistoryOk(m, disk)
  {
    hide RetOk, After, ReadsOk;
  }

  lemma FinishRet(l: L, u: Option<nat>, t: nat, io: Io, fault: bool)
    requires DevOk(l, u) && t in l.k.pc && l.k.pc[t] == Run(Finish(io))
    ensures var code := Outcome(l, io, fault);
            if code != Good then RetOk(l.log, |l.disk|, t, Failure(io, code))
            else io.i + 1 == io.len ==> RetOk(l.log, |l.disk|, t, Success(Advanced(l, io)))
  {
    hide DevOk, Own;
    HandshakeOf(l, u, t);
    if Outcome(l, io, fault) == Good {
      SectorAdvances(l, t, io);
    } else {
      OwnLast(l.log, t);
    }
  }

  // ---------------------------------------------------------------- every step keeps the invariant

  lemma StepFacts(l: L, disk: seq<Data>, a: Act)
    requires Inv(l, disk) && Ready(l, a)
    ensures |l.k.sems| >= 2 && forall t :: t in l.k.sched.sleepers ==> t in l.k.sched.addr
    ensures a.Go? ==> var io := l.k.pc[l.k.sched.cur.value].c.io; io.write ==> io.i < |io.out|
  {
    hide Wf, Everyone, Handshake, SectorsDone;
    ReadyOk(l.k);
    var u :| DevOk(l, u);
    if a.Go? {
      var t := l.k.sched.cur.value;
      assert ThreadOk(l, u, t, l.k.pc[t]);
    }
  }

  ghost function Step(l: L, a: Act, disk: seq<Data>): L
    requires Inv(l, disk) && Ready(l, a)
  {
    StepFacts(l, disk, a);
    match a
    case Sync(b) => l.(k := Next(l.k, b))
    case CallIo(io) => Called(l, io)
    case Go(fault) => Go1(l, l.k.pc[l.k.sched.cur.value].c, fault)
    case Serve(code) => Served(l, code)
    case Irq => Interrupted(l)
  }

  lemma DispatchDev(l: L, u: Option<nat>, sweep: bool) returns (v: Option<nat>)
    requires Ok(l.k) && DevOk(l, u) && Enabled(l.k, Dispatch(sweep))
    ensures DevOk(l.(k := Next(l.k, Dispatch(sweep))), v)
  {
    hide Ok, Wf, Everyone, DevOk, Handshake, IoOk, DoP, TryLock;
    ReadyOk(l.k);
    var t := l.k.sched.ready[0];
    var m := l.(k := l.k.(sched := Dispatched(l.k.sched, sweep)));
    DispatchedDevOk(l, u, Dispatched(l.k.sched, sweep));
    Shapes(l, u);
    v := u;
    match l.k.pc[t]
    case Run(c) =>
    case InP(s, after) =>
      if after.Xfer? {
        v := TakeClear(m, u, after.io);
      } else if after.Finish? {
        TakeDone(m, u, after.io);
      } else {
        SameAfterP(m, u, s);
      }
    case InAcquire(i, after) =>
      SameAfterLock(m, u, i);
  }

  lemma SameAfterP(l: L, u: Option<nat>, s: nat)
    requires DevOk(l, u) && l.k.sched.cur.Some? && l.k.sched.cur.value in l.k.pc && 2 <= s < |l.k.sems|
    requires Stage(l.k.pc[l.k.sched.cur.value]) == Free
    ensures DevOk(l.(k := DoP(l.k, s, Free)), u)
  {
    hide IoOk, Handshake, Asleep;
    Shapes(l, u);
    SameDevOk(l, u, DoP(l.k, s, Free));
  }

  lemma SameAfterLock(l: L, u: Option<nat>, i: nat)
    requires DevOk(l, u) && l.k.sched.cur.Some? && l.k.sched.cur.value in l.k.pc && i < |l.k.locks|
    requires Stage(l.k.pc[l.k.sched.cur.value]) == Free
    ensures DevOk(l.(k := TryLock(l.k, i, Free)), u)
  {
    hide IoOk, Handshake, Asleep;
    Shapes(l, u);
    SameDevOk(l, u, TryLock(l.k, i, Free));
  }

  lemma SyncKeeps(l: L, disk: seq<Data>, b: Action<Phase>)
    requires Inv(l, disk) && Ready(l, Sync(b))
    ensures Inv(l.(k := Next(l.k, b)), disk)
  {
    hide Ok, DevOk, RetOk, After, ReadsOk, Everyone;
    var u :| DevOk(l, u);
    Synch.StepKeeps(l.k, b);
    var m := l.(k := Next(l.k, b));
    if b.Dispatch? {
      var v := DispatchDev(l, u, b.sweep);
    } else {
      TwoSems(l, u);
      Shapes(l, u);
      QuietSame(l.k, b);
      SameDevOk(l, u, Next(l.k, b));
    }
  }

  lemma GoKeeps(l: L, disk: seq<Data>, fault: bool)
    requires Inv(l, disk) && Ready(l, Go(fault))
    ensures Inv(Step(l, Go(fault), disk), disk)
  {
    hide Ok, DevOk, RetOk, After, ReadsOk, Everyone, DoP, DoV, Handshake, IoOk;
    StepFacts(l, disk, Go(fault));
    var u :| DevOk(l, u);
    var t := l.k.sched.cur.value;
    match l.k.pc[t].c
    case Start(io) =>
      DoPKeeps(l.k, CLEAR, Xfer(io));
      var v := TakeClear(l, u, io);
    case Wait(io) =>
      DoPKeeps(l.k, DONE, Finish(io));
      TakeDone(l, u, io);
    case Xfer(io) =>
      GoXferKeeps(l, disk, u, io, fault);
    case Finish(io) =>
      GoFinishKeeps(l, disk, u, io, fault);
  }

  lemma GoXferKeeps(l: L, disk: seq<Data>, u: Option<nat>, io: Io, fault: bool)
    requires Ok(l.k) && HistoryOk(l, disk) && DevOk(l, u) && l.k.sched.cur.Some? && l.k.sched.cur.value in l.k.pc
    requires l.k.pc[l.k.sched.cur.value] == Run(Xfer(io)) && forall t :: t in l.k.sched.sleepers ==> t in l.k.sched.addr
    ensures (io.write ==> io.i < |io.out|) && Inv(GoXfer(l, io, fault), disk)
  {
    hide Ok, DevOk, RetOk, After, ReadsOk, DoV, Handshake;
    var t := l.k.sched.cur.value;
    var v := GoXferDev(l, u, io, fault);
    TwoSems(l, u);
    if io.write && fault {
      HandshakeOf(l, u, t);
      FaultRet(l.log, |l.disk|, t, io);
      BecomeKeeps(l.k, Free);
      DoVKeeps(PutPc(l.k, t, Run(Free)), CLEAR);
      ReturnsHistory(l, disk, GoXfer(l, io, fault), t, Failure(io, Fault));
    } else {
      BecomeKeeps(l.k, Wait(io));
    }
  }

  lemma FaultRet(log: seq<Ev>, n: nat, t: nat, io: Io)
    requires IoOk(log, n, t, io, 0)
    ensures RetOk(log, n, t, Failure(io, Fault))
  {
  }

  lemma GoFinishKeeps(l: L, disk: seq<Data>, u: Option<nat>, io: Io, fault: bool)
    requires Ok(l.k) && HistoryOk(l, disk) && DevOk(l, u) && l.k.sched.cur.Some? && l.k.sched.cur.value in l.k.pc
    requires l.k.pc[l.k.sched.cur.value] == Run(Finish(io))
      && forall t :: t in l.k.sched.sleepers ==> t in l.k.sched.addr
    requires |l.k.sems| >= 2
    ensures Inv(GoFinish(l, io, fault), disk)
  {
    hide Ok, DevOk, RetOk, After, ReadsOk, DoV, Handshake;
    var t, code, next := l.k.sched.cur.value, Outcome(l, io, fault), Advanced(l, io);
    var m := GoFinish(l, io, fault);
    GoFinishDev(l, u, io, fault);
    FinishRet(l, u, t, io, fault);
    var c := if code != Good || next.i == io.len then Free else Start(next);
    BecomeKeeps(l.k, c);
    DoVKeeps(PutPc(l.k, t, Run(c)), CLEAR);
    if code != Good {
      ReturnsHistory(l, disk, m, t, Failure(io, code));
    } else if next.i == io.len {
      ReturnsHistory(l, disk, m, t, Success(next));
    }
  }

  lemma CallKeeps(l: L, disk: seq<Data>, io: Io)
    requires Inv(l, disk) && Ready(l, CallIo(io))
    ensures Inv(Called(l, io), disk)
  {
    hide Ok, DevOk, After, ReadsOk, Own;
    var u :| DevOk(l, u);
    var t := l.k.sched.cur.value;
    var own := io.(start := |Own(l.log, t)|);
    CalledDev(l, u, io);
    if io.sector + io.len > |l.disk| {
      BecomeKeeps(l.k, Free);
      ReturnsHistory(l, disk, Called(l, io), t, Failure(own, InvSect));
    } else if io.len == 0 {
      BecomeKeeps(l.k, Free);
      ReturnsHistory(l, disk, Called(l, io), t, Success(own));
    } else {
      BecomeKeeps(l.k, Start(own));
    }
  }

  lemma StepKeeps(l: L, disk: seq<Data>, a: Act)
    requires Inv(l, disk) && Ready(l, a)
    ensures Inv(Step(l, a, disk), disk)
  {
    hide Ok, DevOk, HistoryOk, Everyone;
    StepFacts(l, disk, a);
    match a
    case Sync(b) => SyncKeeps(l, disk, b);
    case CallIo(io) => CallKeeps(l, disk, io);
    case Go(fault) => GoKeeps(l, disk, fault);
    case Serve(code) =>
      var u :| DevOk(l, u);
      ServedDev(l, u, code);
      ServedHistory(l, disk, code);
    case Irq =>
      var u :| DevOk(l, u);
      InterruptedDev(l, u);
      DoVKeeps(l.k, DONE);
      SameHistory(l, disk, Interrupted(l));
  }

  lemma SameHistory(l: L, disk: seq<Data>, m: L)
    requires HistoryOk(l, disk) && m.log == l.log && m.disk == l.disk && m.rets == l.rets
    ensures HistoryOk(m, disk)
  {
  }

  // ---------------------------------------------------------------- whole runs

  ghost predicate Leads(l: L, acts: seq<Act>, m: L, disk: seq<Data>)
    requires Inv(l, disk)
    decreases |acts|
  {
    if acts == [] then m == l
    else Ready(l, acts[0]) && (StepKeeps(l, disk, acts[0]); Leads(Step(l, acts[0], disk), acts[1..], m, disk))
  }

  /** config_lhd: the boot thread is running, and the two semaphores are 1 and 0. */
  function Configured(disk: seq<Data>): L {
    L(K(Sched(Some(0), [], [], [], map[], 1), map[0 := Run(Free)], [Sem(1), Sem(0)], []),
      Idle, 0, Good, disk, [], map[])
  }

  lemma ConfiguredOk(disk: seq<Data>)
    ensures Inv(Configured(disk), disk)
  {
    var l := Configured(disk);
    assert Everyone(l.k.sched) == multiset{0};
    assert DevOk(l, None);
  }

  /** From configuration on, in every order of steps, the invariant holds. */
  lemma {:induction false} RunKeeps(l: L, acts: seq<Act>, m: L, disk: seq<Data>)
    requires Inv(l, disk) && Leads(l, acts, m, disk)
    ensures Inv(m, disk)
    decreases |acts|
  {
    hide Inv;
    if acts == [] {
    } else {
      StepKeeps(l, disk, acts[0]);
      RunKeeps(Step(l, acts[0], disk), acts[1..], m, disk);
    }
  }

  /** One thread at most is between P(lh_clear) and V(lh_clear), and then lh_clear is 0; there is at most one completion
      pending, and none while the device works. */
  lemma OneAtATime(l: L, disk: seq<Data>, t: nat)
    requires Inv(l, disk) && t in l.k.pc && InDev(Stage(l.k.pc[t]))
    ensures |l.k.sems| >= 2 && l.k.sems[CLEAR].count == 0 && l.k.sems[DONE].count <= 1
    ensures l.dev != Idle ==> l.k.sems[DONE].count == 0 && l.dev.who == t
    ensures forall x :: x in l.k.pc && InDev(Stage(l.k.pc[x])) ==> x == t
  {
    hide Ok, HistoryOk, IoOk, Stage, Shape;
    var u :| DevOk(l, u);
    HandshakeOf(l, u, t);
    forall x | x in l.k.pc && InDev(Stage(l.k.pc[x]))
      ensures x == t
    {
      HandshakeOf(l, u, x);
    }
  }

  /** When nobody is in the device it is idle and its semaphores are as they were configured. */
  lemma IdleBetween(l: L, disk: seq<Data>)
    requires Inv(l, disk) && forall t :: t in l.k.pc ==> !InDev(Stage(l.k.pc[t]))
    ensures |l.k.sems| >= 2 && l.k.sems[CLEAR].count == 1 && l.k.sems[DONE].count == 0 && l.dev == Idle
  {
    hide Ok, HistoryOk, IoOk, Stage, Shape;
    var u :| DevOk(l, u);
  }

  /** A thread about to look at a good result finds its own: after a read the buffer is its sector, after a
      write its sector is what it wrote. */
  lemma OwnResult(l: L, disk: seq<Data>, t: nat, io: Io)
    requires Inv(l, disk) && t in l.k.pc && l.k.pc[t] == Run(Finish(io)) && l.result == Good
    ensures io.sector + io.i < |l.disk| && l.disk[io.sector + io.i] == l.buf
    ensures io.write ==> io.i < |io.out| && l.buf == io.out[io.i]
  {
    hide Ok, DevOk, IoOk;
    var u :| DevOk(l, u);
    HandshakeOf(l, u, t);
    var n := |l.log| - 1;
    assert ReadOk(disk, l.log, n);
  }

  /** What lhd_io returned: all of its sectors in order, each the device's own operation for this thread. */
  lemma SuccessMeans(l: L, disk: seq<Data>, t: nat)
    requires Inv(l, disk) && t in l.rets && l.rets[t].Success?
    ensures var io := l.rets[t].io;
            io.start + io.len <= |Own(l.log, t)| && forall j :: 0 <= j < io.len ==> SectorDone(Own(l.log, t), t, io, j)
  {
    hide Ok, DevOk, After, ReadsOk, Own;
    assert RetOk(l.log, |l.disk|, t, l.rets[t]);
  }
}
