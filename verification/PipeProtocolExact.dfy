/** The run that loses a wakeup, and the exact bound on writes that rules it out. */
module PipeProtocolExact {
  import opened PipeRing
  import opened PipeProtocol
  import opened PipeProtocolLocks
  import opened PipeProtocolWakeups
  import opened PipeProtocolLostWakeup

  lemma {:induction false} StepsExtend(s: State, acts: seq<Action>, bound: nat, t: State, a: Action)
    requires Steps(s, acts, bound, t) && Enabled(t, a, bound)
    ensures Steps(s, acts + [a], bound, Apply(t, a, bound))
    decreases |acts|
  {
    hide Apply, Enabled;
    if acts != [] {
      assert (acts + [a])[1..] == acts[1..] + [a];
      StepsExtend(Apply(s, acts[0], bound), acts[1..], bound, t, a);
    } else {
      assert (acts + [a])[1..] == [];
      assert Steps(Apply(t, a, bound), [], bound, Apply(t, a, bound));
    }
  }

  lemma Go(bound: nat, s: State, a: Action, t: State)
    requires Reachable(bound, s) && Enabled(s, a, bound) && Apply(s, a, bound) == t
    ensures Reachable(bound, t)
  {
    hide Apply, Enabled, Init, Steps;
    var s0, acts :| Init(s0) && Steps(s0, acts, bound, s);
    StepsExtend(s0, acts, bound, s, a);
  }

  /** Three processes on two CPUs: a reader, a writer and a killer. */
  function Snap(r: Proc, w: Proc, k: Proc, c0: Cpu, c1: Cpu, pipeLock: Lock, ptLock: Lock, world: World): State {
    State(Sys([r, w, k], [c0, c1], pipeLock, ptLock, false), world)
  }

  const NEW_PROC := Proc(RUNNABLE, NoChan, false, ForkRet, User, NoOp, true, -1)
  const BOOT_CPU := Cpu(0, true, true, -1, SchedAcquire)

  function FreshWorld(data: seq<char>): World {
    World(Pipe(data, 0, 0, true, true), false, false, false, [], [], false)
  }

  function Reader(pc: Pc): Proc {
    Proc(RUNNING, NoChan, false, pc, User, Read(1, [], false), true, 0)
  }

  const ASLEEP_READER := Proc(SLEEPING, NreadChan, false, SleepWoken, User, Read(1, [], false), true, -1)

  const RAN_CPU := Cpu(1, true, false, -1, SchedLoop)

  function Sitting(ncli: int, p: int): Cpu {
    Cpu(ncli, true, ncli == 0, p, SchedLoop)
  }

  function Fresh(p: int, pc: Pc): Proc {
    Proc(RUNNING, NoChan, false, pc, User, NoOp, true, p)
  }

  lemma Boot(bound: nat, data: seq<char>)
    requires SizeOk(|data|)
    ensures Reachable(bound, Snap(NEW_PROC, NEW_PROC, NEW_PROC, BOOT_CPU, BOOT_CPU, Free, Free, FreshWorld(data)))
  {
    var s0 := Snap(NEW_PROC, NEW_PROC, NEW_PROC, BOOT_CPU, BOOT_CPU, Free, Free, FreshWorld(data));
    assert Init(s0) && Steps(s0, [], bound, s0);
  }

  /** CPU 0 enters its scheduler and picks the reader, which calls piperead. */
  lemma ReaderCalls(bound: nat, data: seq<char>)
    requires SizeOk(|data|)
    ensures Reachable(bound,
      Snap(Reader(OpAcquire), NEW_PROC, NEW_PROC, Sitting(0, 0), BOOT_CPU, Free, Free, FreshWorld(data)))
  {
    Boot(bound, data);
    hide Reachable, BodyStep, ScanStep, KillStep, ReturnStep, Interrupt, EndInterrupt, Sched, LeaveScheduler,
      AcquirePipe, ReleasePipe;
    var w := FreshWorld(data);
    var s0 := Snap(NEW_PROC, NEW_PROC, NEW_PROC, BOOT_CPU, BOOT_CPU, Free, Free, w);
    var s1 := Snap(NEW_PROC, NEW_PROC, NEW_PROC, RAN_CPU, BOOT_CPU, Free, HeldBy(0), w);
    Go(bound, s0, SchedTake(0), s1);
    var s2 := Snap(Fresh(0, ForkRet), NEW_PROC, NEW_PROC, Sitting(1, 0), BOOT_CPU, Free, HeldBy(0), w);
    Go(bound, s1, SchedPick(0, 0), s2);
    var s3 := Snap(Fresh(0, User), NEW_PROC, NEW_PROC, Sitting(0, 0), BOOT_CPU, Free, Free, w);
    Go(bound, s2, Continue(0), s3);
    Go(bound, s3, Call(0, Read(1, [], false)),
      Snap(Reader(OpAcquire), NEW_PROC, NEW_PROC, Sitting(0, 0), BOOT_CPU, Free, Free, w));
  }

  /** It finds the pipe empty and gives up the pipe lock under ptable.lock. */
  lemma ReaderFindsEmpty(bound: nat, data: seq<char>)
    requires SizeOk(|data|)
    ensures Reachable(bound,
      Snap(Reader(SleepSet), NEW_PROC, NEW_PROC, Sitting(1, 0), BOOT_CPU, Free, HeldBy(0), FreshWorld(data)))
  {
    ReaderCalls(bound, data);
    hide Reachable, ScanStep, KillStep, ReturnStep, Interrupt, EndInterrupt, Sched, EnterScheduler, LeaveScheduler,
      CallStep, Dispatch, WriteBody, CloseBody, NoneWaiting, MayCall;
    var w := FreshWorld(data);
    var s0 := Snap(Reader(OpAcquire), NEW_PROC, NEW_PROC, Sitting(0, 0), BOOT_CPU, Free, Free, w);
    var s1 := Snap(Reader(OpBody), NEW_PROC, NEW_PROC, Sitting(1, 0), BOOT_CPU, HeldBy(0), Free, w);
    Go(bound, s0, Continue(0), s1);
    var s2 := Snap(Reader(SleepAcquire), NEW_PROC, NEW_PROC, Sitting(1, 0), BOOT_CPU, HeldBy(0), Free, w);
    Go(bound, s1, Continue(0), s2);
    var s3 := Snap(Reader(SleepRelease), NEW_PROC, NEW_PROC, Sitting(2, 0), BOOT_CPU, HeldBy(0), HeldBy(0), w);
    Go(bound, s2, Continue(0), s3);
    Go(bound, s3, Continue(0), Snap(Reader(SleepSet), NEW_PROC, NEW_PROC, Sitting(1, 0), BOOT_CPU, Free, HeldBy(0), w));
  }

  /** It falls asleep, and CPU 0 runs the killer instead. */
  lemma ReaderSleeps(bound: nat, data: seq<char>)
    requires SizeOk(|data|)
    ensures Reachable(bound,
      Snap(ASLEEP_READER, NEW_PROC, Fresh(0, User), Sitting(0, 2), BOOT_CPU, Free, Free, FreshWorld(data)))
  {
    ReaderFindsEmpty(bound, data);
    hide Reachable, BodyStep, ScanStep, KillStep, ReturnStep, Interrupt, EndInterrupt, EnterScheduler, LeaveScheduler,
      CallStep, AcquirePipe, AcquirePt, ReleasePipe, MayCall;
    var w := FreshWorld(data);
    var s0 := Snap(Reader(SleepSet), NEW_PROC, NEW_PROC, Sitting(1, 0), BOOT_CPU, Free, HeldBy(0), w);
    var s1 := Snap(Reader(SleepSched).(state := SLEEPING, chan := NreadChan), NEW_PROC, NEW_PROC, Sitting(1, 0),
      BOOT_CPU, Free, HeldBy(0), w);
    Go(bound, s0, Continue(0), s1);
    var s2 := Snap(ASLEEP_READER, NEW_PROC, NEW_PROC, RAN_CPU, BOOT_CPU, Free, HeldBy(0), w);
    Go(bound, s1, Continue(0), s2);
    var s3 := Snap(ASLEEP_READER, NEW_PROC, Fresh(0, ForkRet), Sitting(1, 2), BOOT_CPU, Free, HeldBy(0), w);
    Go(bound, s2, SchedPick(0, 2), s3);
    Go(bound, s3, Continue(0), Snap(ASLEEP_READER, NEW_PROC, Fresh(0, User), Sitting(0, 2), BOOT_CPU, Free, Free, w));
  }

  function Writer(pc: Pc, buf: seq<char>, i: int, killed: bool): Proc {
    Proc(RUNNING, NoChan, killed, pc, User, Write(buf, i, i), true, 1)
  }

  /** CPU 1 runs the writer, which calls pipewrite. */
  lemma WriterCalls(bound: nat, data: seq<char>, buf: seq<char>)
    requires SizeOk(|data|) && |buf| <= bound
    ensures Reachable(bound,
      Snap(ASLEEP_READER, Writer(OpAcquire, buf, 0, false), Fresh(0, User), Sitting(0, 2), Sitting(0, 1), Free, Free,
      FreshWorld(data)))
  {
    ReaderSleeps(bound, data);
    hide Reachable, BodyStep, ScanStep, KillStep, ReturnStep, Interrupt, EndInterrupt, Sched, LeaveScheduler,
      AcquirePipe, ReleasePipe;
    var w, r, k := FreshWorld(data), ASLEEP_READER, Fresh(0, User);
    var s0 := Snap(r, NEW_PROC, k, Sitting(0, 2), BOOT_CPU, Free, Free, w);
    var s1 := Snap(r, NEW_PROC, k, Sitting(0, 2), RAN_CPU, Free, HeldBy(1), w);
    Go(bound, s0, SchedTake(1), s1);
    var s2 := Snap(r, Fresh(1, ForkRet), k, Sitting(0, 2), Sitting(1, 1), Free, HeldBy(1), w);
    Go(bound, s1, SchedPick(1, 1), s2);
    var s3 := Snap(r, Fresh(1, User), k, Sitting(0, 2), Sitting(0, 1), Free, Free, w);
    Go(bound, s2, Continue(1), s3);
    Go(bound, s3, Call(1, Write(buf, 0, 0)),
      Snap(r, Writer(OpAcquire, buf, 0, false), k, Sitting(0, 2), Sitting(0, 1), Free, Free, w));
  }

  /** The world after the writer has stored the first i bytes of buf. */
  ghost function Filled(data: seq<char>, buf: seq<char>, i: nat): (w: World)
    requires |data| > 0 && i <= |buf|
    ensures |w.pipe.data| == |data| && w.pipe.readopen && !w.abandoned && !w.freed
  {
    if i == 0 then FreshWorld(data)
    else
      var w := Filled(data, buf, i - 1);
      w.(pipe := Store(w.pipe, buf[i - 1]), written := w.written + [buf[i - 1]])
  }

  lemma {:induction false} FilledCount(data: seq<char>, buf: seq<char>, i: nat)
    requires SizeOk(|data|) && i <= |buf| && i <= |data|
    ensures Valid(Filled(data, buf, i).pipe) && Count(Filled(data, buf, i).pipe) == i
    ensures Full(Filled(data, buf, i).pipe) <==> i == |data|
  {
    if i > 0 {
      FilledCount(data, buf, i - 1);
      StoreAppends(Filled(data, buf, i - 1).pipe, buf[i - 1]);
    }
    CountMeaning(Filled(data, buf, i).pipe);
  }

  ghost function Filling(data: seq<char>, buf: seq<char>, i: nat): State
    requires |data| > 0 && i <= |buf|
  {
    Snap(ASLEEP_READER, Writer(OpBody, buf, i, false), Fresh(0, User), Sitting(0, 2), Sitting(1, 1), HeldBy(1), Free,
      Filled(data, buf, i))
  }

  /** The writer stores one byte after the other until the ring is full. */
  lemma {:induction false} WriterFills(bound: nat, data: seq<char>, buf: seq<char>, i: nat)
    requires SizeOk(|data|) && |data| < |buf| <= bound && i <= |data|
    ensures Reachable(bound, Filling(data, buf, i))
  {
    if i == 0 {
      WriterCalls(bound, data, buf);
      hide Reachable, BodyStep;
      var s0 := Snap(ASLEEP_READER, Writer(OpAcquire, buf, 0, false), Fresh(0, User), Sitting(0, 2), Sitting(0, 1),
        Free, Free, FreshWorld(data));
      Go(bound, s0, Continue(1), Filling(data, buf, 0));
    } else {
      WriterFills(bound, data, buf, i - 1);
      FilledCount(data, buf, i - 1);
      hide Reachable, Full, Valid, Store, ReadBody, CloseBody;
      var s, t := Filling(data, buf, i - 1), Filling(data, buf, i);
      assert Apply(s, Continue(1), bound) == BodyStep(s, 1);
      Go(bound, s, Continue(1), t);
    }
  }

  function Abandoned(w: World): World {
    w.(abandoned := true)
  }

  /** Meanwhile CPU 0 runs kill on the writer r. */
  lemma KillerCalls(bound: nat, r: Proc, w: World)
    requires |w.pipe.data| > 0
    requires Reachable(bound, Snap(ASLEEP_READER, r, Fresh(0, User), Sitting(0, 2), Sitting(1, 1), HeldBy(1), Free, w))
    ensures Reachable(bound,
      Snap(ASLEEP_READER, r, Fresh(0, KillScan(1)), Sitting(1, 2), Sitting(1, 1), HeldBy(1), HeldBy(0), w))
  {
    hide Reachable, BodyStep, ScanStep, ReturnStep, KillStep, Sched, ReleasePt, ReleasePipe, AcquirePipe, EndInterrupt;
    var s0 := Snap(ASLEEP_READER, r, Fresh(0, User), Sitting(0, 2), Sitting(1, 1), HeldBy(1), Free, w);
    var s1 := Snap(ASLEEP_READER, r, Fresh(0, KillAcquire(1)), Sitting(0, 2), Sitting(1, 1), HeldBy(1), Free, w);
    Go(bound, s0, CallKill(0, 1), s1);
    Go(bound, s1, Continue(0),
      Snap(ASLEEP_READER, r, Fresh(0, KillScan(1)), Sitting(1, 2), Sitting(1, 1), HeldBy(1), HeldBy(0), w));
  }

  lemma WriterKilled(bound: nat, r: Proc, w: World)
    requires |w.pipe.data| > 0 && r.state == RUNNING
    requires Reachable(bound,
      Snap(ASLEEP_READER, r, Fresh(0, KillScan(1)), Sitting(1, 2), Sitting(1, 1), HeldBy(1), HeldBy(0), w))
    ensures Reachable(bound,
      Snap(ASLEEP_READER, r.(killed := true), Fresh(0, KillRelease), Sitting(1, 2), Sitting(1, 1), HeldBy(1),
      HeldBy(0), w))
  {
    hide Reachable, BodyStep, ScanStep, ReturnStep, Sched, AcquirePt, ReleasePt, ReleasePipe, AcquirePipe, EndInterrupt;
    var s0 := Snap(ASLEEP_READER, r, Fresh(0, KillScan(1)), Sitting(1, 2), Sitting(1, 1), HeldBy(1), HeldBy(0), w);
    Go(bound, s0, Continue(0),
      Snap(ASLEEP_READER, r.(killed := true), Fresh(0, KillRelease), Sitting(1, 2), Sitting(1, 1), HeldBy(1),
      HeldBy(0), w));
  }

  /** The writer finds the ring full and itself killed, and leaves without a wakeup. */
  lemma WriterLeaves(bound: nat, r: Proc, w: World)
    requires |w.pipe.data| > 0 && Full(w.pipe) && r.pc == OpBody && r.op.Write? && 0 <= r.op.i < |r.op.buf| &&
      r.killed && r.state == RUNNING
    requires Reachable(bound,
      Snap(ASLEEP_READER, r, Fresh(0, KillRelease), Sitting(1, 2), Sitting(1, 1), HeldBy(1), HeldBy(0), w))
    ensures Reachable(bound,
      Snap(ASLEEP_READER, At(r, OpRelease), Fresh(0, KillRelease), Sitting(1, 2), Sitting(1, 1), HeldBy(1), HeldBy(0),
      Abandoned(w)))
  {
    hide Reachable, Full, Store, ReadBody, CloseBody, ScanStep, KillStep, ReturnStep, Sched, AcquirePt, ReleasePt,
      ReleasePipe, AcquirePipe, EndInterrupt;
    var s0 := Snap(ASLEEP_READER, r, Fresh(0, KillRelease), Sitting(1, 2), Sitting(1, 1), HeldBy(1), HeldBy(0), w);
    assert Waiting(s0.sys.procs[0], NreadChan);
    Go(bound, s0, Continue(1),
      Snap(ASLEEP_READER, At(r, OpRelease), Fresh(0, KillRelease), Sitting(1, 2), Sitting(1, 1), HeldBy(1), HeldBy(0),
      Abandoned(w)));
  }

  lemma WriterReturns(bound: nat, r: Proc, w: World)
    requires |w.pipe.data| > 0 && r.pc == OpRelease && r.op.Write?
    requires Reachable(bound,
      Snap(ASLEEP_READER, r, Fresh(0, KillRelease), Sitting(1, 2), Sitting(1, 1), HeldBy(1), HeldBy(0), w))
    ensures Reachable(bound,
      Snap(ASLEEP_READER, r.(op := NoOp, pc := User), Fresh(0, KillRelease), Sitting(1, 2), Sitting(0, 1), Free,
      HeldBy(0), w))
  {
    hide Reachable, BodyStep, ScanStep, KillStep, Sched, AcquirePt, ReleasePt, AcquirePipe, EndInterrupt;
    var s0 := Snap(ASLEEP_READER, r, Fresh(0, KillRelease), Sitting(1, 2), Sitting(1, 1), HeldBy(1), HeldBy(0), w);
    Go(bound, s0, Continue(1),
      Snap(ASLEEP_READER, r.(op := NoOp, pc := User), Fresh(0, KillRelease), Sitting(1, 2), Sitting(0, 1), Free,
      HeldBy(0), w));
  }

  /** A quiet pipe, full, with a reader asleep on it. */
  lemma WakeupIsLost(bound: nat, data: seq<char>, buf: seq<char>) returns (t: State)
    requires SizeOk(|data|) && |data| < |buf| <= bound
    ensures Reachable(bound, t) && t.sys.pipeLock == Free && |t.world.pipe.data| == |data|
    ensures |t.sys.procs| == 3 && t.sys.procs[0] == ASLEEP_READER && !Empty(t.world.pipe)
  {
    var w, r := Filled(data, buf, |data|), Writer(OpBody, buf, |data|, false);
    WriterFills(bound, data, buf, |data|);
    FilledCount(data, buf, |data|);
    CountMeaning(w.pipe);
    hide Reachable, Full, Empty, Valid, Count, SizeOk;
    assert |w.pipe.data| > 0 && Full(w.pipe) && !Empty(w.pipe);
    hide Filled;
    KillerCalls(bound, r, w);
    WriterKilled(bound, r, w);
    WriterLeaves(bound, r.(killed := true), w);
    var r' := At(r.(killed := true), OpRelease);
    WriterReturns(bound, r', Abandoned(w));
    t := Snap(ASLEEP_READER, r'.(op := NoOp, pc := User), Fresh(0, KillRelease), Sitting(1, 2), Sitting(0, 1), Free,
      HeldBy(0), Abandoned(w));
  }

  /** Every reachable quiet state of a pipe with this ring has only sleepers with reason. */
  ghost predicate NoWakeupLost(ring: nat, bound: nat) {
    forall t :: Reachable(bound, t) && |t.world.pipe.data| == ring && t.sys.pipeLock == Free ==> SleepersHaveReason(t)
  }

  /** The exact condition: no interleaving loses a wakeup if and only if no single write is longer than the ring. */
  lemma NoWakeupLostIff(ring: nat, bound: nat)
    requires SizeOk(ring)
    ensures NoWakeupLost(ring, bound) <==> bound <= ring
  {
    hide Reachable, SleepersHaveReason, AllInv, Full, Empty;
    if bound <= ring {
      forall t | Reachable(bound, t) && |t.world.pipe.data| == ring && t.sys.pipeLock == Free
        ensures SleepersHaveReason(t)
      {
        NothingOwed(bound, t);
        PipeRuns(bound, t);
      }
    } else {
      LosingRun(ring, bound);
    }
  }

  lemma NothingOwed(bound: nat, t: State)
    requires Reachable(bound, t) && bound <= |t.world.pipe.data|
    ensures !t.world.abandoned
  {
    ReachableAllInv(bound, t);
  }

  lemma LosingRun(ring: nat, bound: nat)
    requires SizeOk(ring) && ring < bound
    ensures exists t ::
      Reachable(bound, t) && |t.world.pipe.data| == ring && t.sys.pipeLock == Free && !SleepersHaveReason(t)
  {
    var data: seq<char> := seq(ring, _ => 'x');
    var buf: seq<char> := seq(ring + 1, _ => 'y');
    var t := WakeupIsLost(bound, data, buf);
    hide Reachable, Empty;
    assert t.sys.procs[0].state == SLEEPING;
    assert !SleepersHaveReason(t);
  }
}
