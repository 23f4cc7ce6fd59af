/** The lock and scheduling discipline of the pipe machine: what every step keeps
    about CPUs, locks and process states, and that no panic is reachable. */
module PipeProtocolLocks {
  import opened PipeRing
  import opened PipeProtocol

  predicate HoldsPipe(pc: Pc) {
    pc == OpBody || pc == OpRelease || pc.WakeAcquire? || pc.WakeScan? || pc.WakeRelease? || pc == SleepAcquire ||
      pc == SleepRelease
  }

  /** Includes a process that the scheduler has just switched into, and one about to switch away. */
  predicate HoldsPt(pc: Pc) {
    || pc.WakeScan? || pc.WakeRelease? || pc == SleepRelease || pc == SleepSet || pc == SleepSched || pc == SleepWoken
    || pc == SleepPtRelease || pc.KillScan? || pc == KillRelease || pc == YieldSet || pc == YieldSched ||
      pc == YieldBack || pc == ForkRet
  }

  function Depth(b: bool): int {
    if b then 1 else 0
  }

  ghost predicate CpuInv(y: Sys, c: int)
    requires 0 <= c < |y.cpus|
  {
    var k := y.cpus[c];
    && -1 <= k.cur < |y.procs|
    && (k.cur >= 0 ==> y.procs[k.cur].on == c)
    && (y.pipeLock == HeldBy(c) <==> k.cur >= 0 && HoldsPipe(y.procs[k.cur].pc))
    && (y.ptLock == HeldBy(c) <==> if k.cur >= 0 then HoldsPt(y.procs[k.cur].pc) else k.sched == SchedLoop)
    && k.ncli == Depth(y.pipeLock == HeldBy(c)) + Depth(y.ptLock == HeldBy(c))
    && (k.ncli > 0 ==> !k.ifl)
  }

  predicate Yields(pc: Pc) {
    pc == YieldAcquire || pc == YieldSet || pc == YieldSched || pc == YieldBack
  }

  /** Where the process is in its own call, seen through a timer interrupt. */
  function CallPc(pc: Pc, saved: Pc): Pc {
    if Yields(pc) then saved else pc
  }

  predicate Sleeps(pc: Pc) {
    pc == SleepAcquire || pc == SleepRelease || pc == SleepSet || pc == SleepSched || pc == SleepWoken ||
      pc == SleepPtRelease || pc == SleepReacquire
  }

  predicate Wakes(pc: Pc) {
    pc.WakeAcquire? || pc.WakeScan? || pc.WakeRelease?
  }

  function WakesForRoom(pc: Pc): bool {
    match pc
    case WakeAcquire(full) => full
    case WakeScan(full) => full
    case WakeRelease(full) => full
    case _ => false
  }

  /** The locals of a call fit its control point. */
  predicate OpAt(pc: Pc, op: Op, bound: nat) {
    match op
    case NoOp => pc == User || pc == ForkRet || pc.KillAcquire? || pc.KillScan? || pc == KillRelease
    case Write(buf, i, u) =>
      && (pc == OpAcquire || HoldsPipe(pc) || Sleeps(pc))
      && 0 <= u <= i <= |buf| <= bound
      && (pc == OpAcquire || Sleeps(pc) || pc.WakeRelease? ==> u == 0)
      && (WakesForRoom(pc) ==> i < |buf|)
    case Read(n, got, copying) =>
      && (pc == OpAcquire || HoldsPipe(pc) || Sleeps(pc))
      && (pc == OpAcquire || Sleeps(pc) ==> !copying)
      && (!copying ==> got == [])
      && (Wakes(pc) ==> copying && !WakesForRoom(pc))
    case Close(writable, closed, last) =>
      && (pc == OpAcquire || (HoldsPipe(pc) && !Sleeps(pc)))
      && (pc == OpAcquire ==> !closed)
      && (Wakes(pc) ==> closed && !WakesForRoom(pc))
      && (pc == OpRelease ==> closed)
      && (last ==> pc == OpRelease)
  }

  predicate OpInv(at: Pc, saved: Pc, op: Op, bound: nat) {
    && (Yields(at) ==> Unlocked(saved))
    && OpAt(CallPc(at, saved), op, bound)
  }

  ghost predicate ProcInv(y: Sys, p: int, bound: nat)
    requires 0 <= p < |y.procs|
  {
    var pr := y.procs[p];
    && OpInv(pr.pc, pr.saved, pr.op, bound)
    && (pr.on == -1 || (0 <= pr.on < |y.cpus| && y.cpus[pr.on].cur == p))
    && (pr.on == -1 ==>
          && (pr.pc == SleepWoken || pr.pc == YieldBack || pr.pc == ForkRet)
          && pr.state != RUNNING
          && (pr.pc != SleepWoken ==> pr.state == RUNNABLE))
    && (pr.on != -1 ==> pr.state == if pr.pc == SleepSched then SLEEPING else if pr.pc == YieldSched then RUNNABLE
      else RUNNING)
    && (pr.state == SLEEPING ==> pr.chan == SleepChan(pr.op) && (pr.pc == SleepSched || pr.pc == SleepWoken))
  }

  ghost predicate LockInv(y: Sys, bound: nat) {
    && !y.panicked
    && (y.pipeLock.HeldBy? ==> 0 <= y.pipeLock.cpu < |y.cpus|)
    && (y.ptLock.HeldBy? ==> 0 <= y.ptLock.cpu < |y.cpus|)
    && (forall c :: 0 <= c < |y.cpus| ==> CpuInv(y, c))
    && (forall p :: 0 <= p < |y.procs| ==> ProcInv(y, p, bound))
  }

  lemma InitLockInv(s: State, bound: nat)
    requires Init(s)
    ensures LockInv(s.sys, bound)
  {
  }

  predicate LockChange(before: Lock, after: Lock, c: int) {
    after == before || (before == Free && after == HeldBy(c)) || (before == HeldBy(c) && after == Free)
  }

  /** A step that touches one CPU, one process and only that CPU's hold on the locks
      keeps the invariant as soon as it holds for that CPU and that process. */
  lemma LocalKeeps(y: Sys, z: Sys, c: int, p: int, bound: nat)
    requires LockInv(y, bound) && InRange(y, c, p)
    requires y.cpus[c].cur == p || (y.cpus[c].cur == -1 && y.procs[p].on == -1)
    requires |z.cpus| == |y.cpus| && |z.procs| == |y.procs|
    requires z.cpus == y.cpus[c := z.cpus[c]] && z.procs == y.procs[p := z.procs[p]]
    requires LockChange(y.pipeLock, z.pipeLock, c) && LockChange(y.ptLock, z.ptLock, c)
    requires !z.panicked && (z.cpus[c].cur == p || z.cpus[c].cur == -1)
    requires CpuInv(z, c) && ProcInv(z, p, bound)
    ensures LockInv(z, bound)
  {
    hide OpInv, HoldsPipe, HoldsPt;
    assert CpuInv(y, c) && ProcInv(y, p, bound);
    forall d | 0 <= d < |z.cpus|
      ensures CpuInv(z, d)
    {
      assert CpuInv(y, d);
    }
    forall q | 0 <= q < |z.procs|
      ensures ProcInv(z, q, bound)
    {
      assert ProcInv(y, q, bound);
    }
  }

  lemma LockInvAt(y: Sys, c: int, p: int, bound: nat)
    requires LockInv(y, bound) && InRange(y, c, p)
    ensures CpuInv(y, c) && ProcInv(y, p, bound) && !y.panicked
  {
    hide OpInv, HoldsPipe, HoldsPt;
    assert CpuInv(y, c);
  }

  predicate Plain(pc: Pc) {
    pc != SleepSched && pc != YieldSched
  }

  /** Process p runs on CPU c and is not between a state change and sched. */
  ghost predicate OnCpu(y: Sys, c: int, p: int, bound: nat) {
    LockInv(y, bound) && InRange(y, c, p) && y.cpus[c].cur == p && Plain(y.procs[p].pc)
  }

  lemma AcquirePtKeeps(y: Sys, c: nat, p: nat, next: Pc, bound: nat)
    requires OnCpu(y, c, p, bound) && y.ptLock == Free
    requires OpInv(next, y.procs[p].saved, y.procs[p].op, bound) && Plain(next)
    requires HoldsPt(next) && HoldsPipe(next) == HoldsPipe(y.procs[p].pc)
    ensures LockInv(AcquirePt(y, c, p, next), bound)
  {
    LockInvAt(y, c, p, bound);
    hide LockInv, OpInv, HoldsPipe, HoldsPt;
    LocalKeeps(y, AcquirePt(y, c, p, next), c, p, bound);
  }

  lemma AcquirePipeKeeps(y: Sys, c: nat, p: nat, next: Pc, bound: nat)
    requires OnCpu(y, c, p, bound) && y.pipeLock == Free
    requires OpInv(next, y.procs[p].saved, y.procs[p].op, bound) && Plain(next)
    requires HoldsPipe(next) && HoldsPt(next) == HoldsPt(y.procs[p].pc)
    ensures LockInv(AcquirePipe(y, c, p, next), bound)
  {
    LockInvAt(y, c, p, bound);
    hide LockInv, OpInv, HoldsPipe, HoldsPt;
    LocalKeeps(y, AcquirePipe(y, c, p, next), c, p, bound);
  }

  lemma ReleasePtKeeps(y: Sys, c: nat, p: nat, next: Pc, bound: nat)
    requires OnCpu(y, c, p, bound) && HoldsPt(y.procs[p].pc)
    requires OpInv(next, y.procs[p].saved, y.procs[p].op, bound) && Plain(next)
    requires !HoldsPt(next) && HoldsPipe(next) == HoldsPipe(y.procs[p].pc)
    ensures LockInv(ReleasePt(y, c, p, next), bound)
  {
    LockInvAt(y, c, p, bound);
    hide LockInv, OpInv, HoldsPipe, HoldsPt;
    LocalKeeps(y, ReleasePt(y, c, p, next), c, p, bound);
  }

  lemma ReleasePipeKeeps(y: Sys, c: nat, p: nat, next: Pc, bound: nat)
    requires OnCpu(y, c, p, bound) && HoldsPipe(y.procs[p].pc)
    requires OpInv(next, y.procs[p].saved, y.procs[p].op, bound) && Plain(next)
    requires !HoldsPipe(next) && HoldsPt(next) == HoldsPt(y.procs[p].pc)
    ensures LockInv(ReleasePipe(y, c, p, next), bound)
  {
    LockInvAt(y, c, p, bound);
    hide LockInv, OpInv, HoldsPipe, HoldsPt;
    LocalKeeps(y, ReleasePipe(y, c, p, next), c, p, bound);
  }

  /** A step that changes only p's own record, and no lock. */
  lemma StayKeeps(y: Sys, c: nat, p: nat, pr: Proc, bound: nat)
    requires LockInv(y, bound) && InRange(y, c, p) && y.cpus[c].cur == p
    requires HoldsPipe(pr.pc) == HoldsPipe(y.procs[p].pc) && HoldsPt(pr.pc) == HoldsPt(y.procs[p].pc)
    requires OpInv(pr.pc, pr.saved, pr.op, bound) && pr.on == y.procs[p].on
    requires pr.state == if pr.pc == SleepSched then SLEEPING else if pr.pc == YieldSched then RUNNABLE else RUNNING
    requires pr.pc == SleepSched ==> pr.chan == SleepChan(pr.op)
    ensures LockInv(SetProc(y, p, pr), bound)
  {
    LockInvAt(y, c, p, bound);
    hide LockInv, OpInv, HoldsPipe, HoldsPt;
    LocalKeeps(y, SetProc(y, p, pr), c, p, bound);
  }

  /** Whoever holds ptable.lock at a scan, nobody is half asleep: sleepers are off their CPUs. */
  lemma SleepersAreOff(y: Sys, c: nat, q: nat, bound: nat)
    requires LockInv(y, bound) && Running(y, c) && y.ptLock == HeldBy(c)
    requires Cur(y, c).pc != SleepSched
    requires q < |y.procs| && y.procs[q].state == SLEEPING
    ensures y.procs[q].on == -1 && y.procs[q].pc == SleepWoken
  {
    assert ProcInv(y, q, bound);
    assert y.procs[q].on != -1 ==> CpuInv(y, y.procs[q].on);
    assert CpuInv(y, c);
  }

  /** Waking sleepers under ptable.lock keeps the invariant. */
  lemma WakingKeeps(y: Sys, procs: seq<Proc>, c: nat, bound: nat)
    requires LockInv(y, bound) && Running(y, c) && y.ptLock == HeldBy(c) && Cur(y, c).pc != SleepSched
    requires |procs| == |y.procs|
    requires forall q :: 0 <= q < |procs| ==>
      procs[q] == y.procs[q].(state := procs[q].state, killed := procs[q].killed)
    requires forall q :: 0 <= q < |procs| ==>
      procs[q].state == y.procs[q].state || (y.procs[q].state == SLEEPING && procs[q].state == RUNNABLE)
    ensures LockInv(y.(procs := procs), bound)
  {
    hide OpInv;
    var z := y.(procs := procs);
    forall q | 0 <= q < |procs|
      ensures ProcInv(z, q, bound)
    {
      assert ProcInv(y, q, bound);
      if procs[q].state != y.procs[q].state {
        SleepersAreOff(y, c, q, bound);
      }
    }
    forall d | 0 <= d < |z.cpus|
      ensures CpuInv(z, d)
    {
      assert CpuInv(y, d);
    }
  }

  lemma AcquireStepKeeps(y: Sys, c: nat, p: nat, bound: nat)
    requires OnCpu(y, c, p, bound) && OpInv(y.procs[p].pc, y.procs[p].saved, y.procs[p].op, bound)
    ensures y.procs[p].pc == OpAcquire && y.pipeLock == Free ==> LockInv(AcquirePipe(y, c, p, OpBody), bound)
    ensures y.procs[p].pc == SleepReacquire && y.pipeLock == Free ==> LockInv(AcquirePipe(y, c, p, OpBody), bound)
    ensures y.procs[p].pc.WakeAcquire? && y.ptLock == Free ==>
      LockInv(AcquirePt(y, c, p, WakeScan(y.procs[p].pc.full)), bound)
    ensures y.procs[p].pc == SleepAcquire && y.ptLock == Free ==> LockInv(AcquirePt(y, c, p, SleepRelease), bound)
    ensures y.procs[p].pc.KillAcquire? && y.ptLock == Free ==>
      LockInv(AcquirePt(y, c, p, KillScan(y.procs[p].pc.victim)), bound)
    ensures y.procs[p].pc == YieldAcquire && y.ptLock == Free ==> LockInv(AcquirePt(y, c, p, YieldSet), bound)
  {
    hide LockInv, AcquirePt, AcquirePipe;
    var pc := y.procs[p].pc;
    if y.pipeLock == Free && WantsPipe(pc) {
      AcquirePipeKeeps(y, c, p, OpBody, bound);
    } else if y.ptLock == Free && WantsPt(pc) {
      var next := if pc.WakeAcquire? then WakeScan(pc.full) else if pc == SleepAcquire then SleepRelease
                  else if pc.KillAcquire? then KillScan(pc.victim) else YieldSet;
      AcquirePtKeeps(y, c, p, next, bound);
    }
  }

  predicate ReleasesPt(pc: Pc) {
    pc == ForkRet || pc.WakeRelease? || pc == SleepPtRelease || pc == KillRelease
  }

  function AfterReleasePt(pc: Pc, op: Op): Pc {
    if pc.WakeRelease? then AfterWake(op, pc.full) else if pc == SleepPtRelease then SleepReacquire else User
  }

  lemma ReleaseStepKeeps(y: Sys, c: nat, p: nat, bound: nat)
    requires OnCpu(y, c, p, bound) && OpInv(y.procs[p].pc, y.procs[p].saved, y.procs[p].op, bound)
    ensures ReleasesPt(y.procs[p].pc) ==>
      LockInv(ReleasePt(y, c, p, AfterReleasePt(y.procs[p].pc, y.procs[p].op)), bound)
    ensures y.procs[p].pc == SleepRelease ==> LockInv(ReleasePipe(y, c, p, SleepSet), bound)
  {
    hide LockInv, ReleasePt, ReleasePipe;
    var pc := y.procs[p].pc;
    if ReleasesPt(pc) {
      ReleasePtKeeps(y, c, p, AfterReleasePt(pc, y.procs[p].op), bound);
    } else if pc == SleepRelease {
      ReleasePipeKeeps(y, c, p, SleepSet, bound);
    }
  }

  lemma ReturnStepKeeps(s: State, c: nat, p: nat, bound: nat)
    requires OnCpu(s.sys, c, p, bound) && s.sys.procs[p].pc == OpRelease
    ensures LockInv(ReturnStep(s, c, p).sys, bound)
  {
    LockInvAt(s.sys, c, p, bound);
    hide LockInv;
    LocalKeeps(s.sys, ReturnStep(s, c, p).sys, c, p, bound);
  }

  lemma EndInterruptKeeps(y: Sys, c: nat, p: nat, bound: nat)
    requires OnCpu(y, c, p, bound) && y.procs[p].pc == YieldBack
    ensures LockInv(EndInterrupt(y, c, p), bound)
  {
    LockInvAt(y, c, p, bound);
    hide LockInv, OpAt;
    LocalKeeps(y, EndInterrupt(y, c, p), c, p, bound);
  }

  lemma SchedKeeps(y: Sys, c: nat, p: nat, back: Pc, bound: nat)
    requires LockInv(y, bound) && InRange(y, c, p) && y.cpus[c].cur == p
    requires (y.procs[p].pc == SleepSched && back == SleepWoken) || (y.procs[p].pc == YieldSched && back == YieldBack)
    requires OpInv(back, y.procs[p].saved, y.procs[p].op, bound)
    ensures LockInv(Sched(y, c, p, back), bound)
  {
    LockInvAt(y, c, p, bound);
    hide LockInv, OpInv;
    LocalKeeps(y, Sched(y, c, p, back), c, p, bound);
  }

  lemma SleepStepKeeps(s: State, c: nat, p: nat, bound: nat)
    requires LockInv(s.sys, bound) && InRange(s.sys, c, p) && s.sys.cpus[c].cur == p && |s.world.pipe.data| > 0
    requires s.sys.procs[p].pc in {SleepSet, SleepSched, SleepWoken, YieldSet, YieldSched}
    ensures LockInv(Advance(s, c, p).sys, bound)
  {
    LockInvAt(s.sys, c, p, bound);
    hide LockInv, CpuInv, Sched;
    var pr := s.sys.procs[p];
    if pr.pc == SleepSched {
      SchedKeeps(s.sys, c, p, SleepWoken, bound);
    } else if pr.pc == YieldSched {
      SchedKeeps(s.sys, c, p, YieldBack, bound);
    } else if pr.pc == SleepSet {
      StayKeeps(s.sys, c, p, pr.(chan := SleepChan(pr.op), state := SLEEPING, pc := SleepSched), bound);
    } else if pr.pc == SleepWoken {
      StayKeeps(s.sys, c, p, pr.(chan := NoChan, pc := SleepPtRelease), bound);
    } else {
      StayKeeps(s.sys, c, p, pr.(state := RUNNABLE, pc := YieldSched), bound);
    }
  }

  /** What a body leaves: locals in shape, the ring's size, and a point that holds the pipe lock only. */
  predicate Shaped(w: World, pr: Proc, o: Outcome, bound: nat) {
    && |o.world.pipe.data| == |w.pipe.data|
    && HoldsPipe(o.pc) && !HoldsPt(o.pc) && Plain(o.pc)
    && OpAt(o.pc, o.op, bound)
    && SleepChan(o.op) == SleepChan(pr.op) && WakeChan(o.op) == WakeChan(pr.op)
  }

  lemma WriteShape(w: World, pr: Proc, readerWaits: bool, bound: nat)
    requires pr.op.Write? && OpAt(OpBody, pr.op, bound) && |w.pipe.data| > 0
    ensures Shaped(w, pr, WriteBody(w, pr.op, pr.killed, readerWaits), bound)
  {
    hide Full;
  }

  lemma ReadShape(w: World, pr: Proc, bound: nat)
    requires pr.op.Read? && OpAt(OpBody, pr.op, bound) && |w.pipe.data| > 0
    ensures Shaped(w, pr, ReadBody(w, pr.op, pr.killed), bound)
  {
    hide Empty;
  }

  lemma BodyShape(w: World, pr: Proc, readerWaits: bool, bound: nat)
    requires pr.pc == OpBody && OpAt(OpBody, pr.op, bound) && |w.pipe.data| > 0
    ensures Shaped(w, pr, Body(w, pr, readerWaits), bound)
  {
    hide WriteBody, ReadBody;
    if pr.op.Write? {
      WriteShape(w, pr, readerWaits, bound);
    } else if pr.op.Read? {
      ReadShape(w, pr, bound);
    }
  }

  lemma BodyStepKeeps(s: State, c: nat, p: nat, bound: nat)
    requires OnCpu(s.sys, c, p, bound) && s.sys.procs[p].pc == OpBody && |s.world.pipe.data| > 0
    ensures LockInv(BodyStep(s, p).sys, bound)
  {
    LockInvAt(s.sys, c, p, bound);
    var pr := s.sys.procs[p];
    var waits := !NoneWaiting(s.sys.procs, NreadChan);
    BodyShape(s.world, pr, waits, bound);
    hide LockInv, OpInv, Body, HoldsPipe, HoldsPt, CpuInv;
    var o := Body(s.world, pr, waits);
    StayKeeps(s.sys, c, p, pr.(op := o.op, pc := o.pc), bound);
  }

  lemma ScanStepKeeps(s: State, c: nat, p: nat, bound: nat)
    requires OnCpu(s.sys, c, p, bound) && s.sys.procs[p].pc.WakeScan?
    ensures LockInv(ScanStep(s, p, s.sys.procs[p].pc.full).sys, bound)
  {
    LockInvAt(s.sys, c, p, bound);
    var pr := s.sys.procs[p];
    var procs := Wakeup1(s.sys.procs, WakeChan(pr.op));
    WakingKeeps(s.sys, procs, c, bound);
    hide LockInv, CpuInv;
    StayKeeps(s.sys.(procs := procs), c, p, pr.(op := Signalled(pr.op), pc := WakeRelease(pr.pc.full)), bound);
  }

  lemma KillStepKeeps(s: State, c: nat, p: nat, victim: int, bound: nat)
    requires OnCpu(s.sys, c, p, bound) && s.sys.procs[p].pc == KillScan(victim)
    ensures LockInv(KillStep(s, p, victim).sys, bound)
  {
    LockInvAt(s.sys, c, p, bound);
    var procs := Killed(s.sys.procs, victim);
    WakingKeeps(s.sys, procs, c, bound);
    hide LockInv, CpuInv;
    StayKeeps(s.sys.(procs := procs), c, p, At(procs[p], KillRelease), bound);
  }

  lemma AdvanceKeepsLockInv(s: State, c: nat, p: nat, bound: nat)
    requires LockInv(s.sys, bound) && Enabled(s, Continue(c), bound) && s.sys.cpus[c].cur == p
    ensures LockInv(Advance(s, c, p).sys, bound)
  {
    LockInvAt(s.sys, c, p, bound);
    var pr := s.sys.procs[p];
    assert OpInv(pr.pc, pr.saved, pr.op, bound);
    assert WantsPipe(pr.pc) ==> s.sys.pipeLock == Free;
    assert WantsPt(pr.pc) ==> s.sys.ptLock == Free;
    hide LockInv, OpInv, ProcInv, CpuInv, BodyStep, ScanStep, KillStep, ReturnStep, Sched;
    hide AcquirePipe, AcquirePt, ReleasePipe, ReleasePt, EndInterrupt;
    if pr.pc in {SleepSet, SleepSched, SleepWoken, YieldSet, YieldSched} {
      SleepStepKeeps(s, c, p, bound);
    } else if WantsPipe(pr.pc) || WantsPt(pr.pc) {
      AcquireStepKeeps(s.sys, c, p, bound);
    } else if ReleasesPt(pr.pc) || pr.pc == SleepRelease {
      ReleaseStepKeeps(s.sys, c, p, bound);
    } else if pr.pc == OpRelease {
      ReturnStepKeeps(s, c, p, bound);
    } else if pr.pc == YieldBack {
      EndInterruptKeeps(s.sys, c, p, bound);
    } else if pr.pc == OpBody {
      BodyStepKeeps(s, c, p, bound);
    } else if pr.pc.WakeScan? {
      ScanStepKeeps(s, c, p, bound);
    } else {
      KillStepKeeps(s, c, p, pr.pc.victim, bound);
    }
  }

  /** A user process makes a call. */
  lemma CallKeeps(s: State, c: nat, op: Op, bound: nat)
    requires LockInv(s.sys, bound) && Enabled(s, Call(c, op), bound)
    ensures LockInv(CallStep(s, s.sys.cpus[c].cur, op).sys, bound)
  {
    var p := s.sys.cpus[c].cur;
    LockInvAt(s.sys, c, p, bound);
    hide LockInv;
    StayKeeps(s.sys, c, p, s.sys.procs[p].(op := op, pc := OpAcquire), bound);
  }

  lemma CallKillKeeps(s: State, c: nat, victim: int, bound: nat)
    requires LockInv(s.sys, bound) && Enabled(s, CallKill(c, victim), bound)
    ensures LockInv(Apply(s, CallKill(c, victim), bound).sys, bound)
  {
    var p := s.sys.cpus[c].cur;
    LockInvAt(s.sys, c, p, bound);
    hide LockInv;
    StayKeeps(s.sys, c, p, At(s.sys.procs[p], KillAcquire(victim)), bound);
  }

  lemma InterruptKeeps(s: State, c: nat, bound: nat)
    requires LockInv(s.sys, bound) && Enabled(s, Timer(c), bound)
    ensures LockInv(Interrupt(s.sys, c, s.sys.cpus[c].cur), bound)
  {
    var p := s.sys.cpus[c].cur;
    LockInvAt(s.sys, c, p, bound);
    hide LockInv, OpAt;
    LocalKeeps(s.sys, Interrupt(s.sys, c, p), c, p, bound);
  }

  lemma DispatchKeeps(y: Sys, c: nat, p: nat, bound: nat)
    requires LockInv(y, bound) && Idle(y, c, SchedLoop) && p < |y.procs| && y.procs[p].state == RUNNABLE
    ensures LockInv(Dispatch(y, c, p), bound)
  {
    LockInvAt(y, c, p, bound);
    assert y.procs[p].on != -1 ==> CpuInv(y, y.procs[p].on);
    hide LockInv, OpInv;
    LocalKeeps(y, Dispatch(y, c, p), c, p, bound);
  }

  lemma SchedulerKeeps(y: Sys, z: Sys, c: nat, bound: nat)
    requires LockInv(y, bound)
    requires
      || (Idle(y, c, SchedAcquire) && y.ptLock == Free && z == EnterScheduler(y, c))
      || (Idle(y, c, SchedLoop) && z == LeaveScheduler(y, c))
    ensures LockInv(z, bound)
  {
    hide OpInv;
    assert CpuInv(y, c);
    forall d | 0 <= d < |z.cpus|
      ensures CpuInv(z, d)
    {
      assert CpuInv(y, d);
    }
    forall q | 0 <= q < |z.procs|
      ensures ProcInv(z, q, bound)
    {
      assert ProcInv(y, q, bound);
    }
  }

  lemma StepKeepsLockInv(s: State, a: Action, bound: nat)
    requires LockInv(s.sys, bound) && Enabled(s, a, bound)
    ensures LockInv(Apply(s, a, bound).sys, bound)
  {
    match a {
      case SchedTake(c) =>
        assert s.sys.ptLock == Free by { hide OpInv; assert CpuInv(s.sys, c); }
        SchedulerKeeps(s.sys, EnterScheduler(s.sys, c), c, bound);
      case SchedDrop(c) => SchedulerKeeps(s.sys, LeaveScheduler(s.sys, c), c, bound);
      case SchedPick(c, p) => DispatchKeeps(s.sys, c, p, bound);
      case Call(c, op) => CallKeeps(s, c, op, bound);
      case CallKill(c, v) => CallKillKeeps(s, c, v, bound);
      case Timer(c) => InterruptKeeps(s, c, bound);
      case Continue(c) => AdvanceKeepsLockInv(s, c, s.sys.cpus[c].cur, bound);
    }
  }

  lemma {:induction false} RunKeepsLockInv(s: State, acts: seq<Action>, bound: nat, t: State)
    requires LockInv(s.sys, bound) && Steps(s, acts, bound, t)
    ensures LockInv(t.sys, bound)
    decreases |acts|
  {
    hide LockInv, Apply, Enabled;
    if acts != [] {
      StepKeepsLockInv(s, acts[0], bound);
      RunKeepsLockInv(Apply(s, acts[0], bound), acts[1..], bound, t);
    }
  }

  /** p is executing on some CPU at a point where it holds the pipe lock (ptable.lock). */
  predicate InPipeSection(y: Sys, p: int)
    requires 0 <= p < |y.procs|
  {
    y.procs[p].on != -1 && HoldsPipe(y.procs[p].pc)
  }

  predicate InPtSection(y: Sys, p: int)
    requires 0 <= p < |y.procs|
  {
    y.procs[p].on != -1 && HoldsPt(y.procs[p].pc)
  }

  lemma SectionsAreLocked(y: Sys, p: int, bound: nat)
    requires LockInv(y, bound) && 0 <= p < |y.procs|
    ensures InPipeSection(y, p) ==>
      y.pipeLock == HeldBy(y.procs[p].on) && 0 <= y.procs[p].on < |y.cpus| && y.cpus[y.procs[p].on].cur == p
    ensures InPtSection(y, p) ==>
      y.ptLock == HeldBy(y.procs[p].on) && 0 <= y.procs[p].on < |y.cpus| && y.cpus[y.procs[p].on].cur == p
  {
    hide OpInv, HoldsPipe, HoldsPt;
    assert ProcInv(y, p, bound);
    assert y.procs[p].on != -1 ==> CpuInv(y, y.procs[p].on);
  }

  /** No interleaving panics in acquire, release, popcli or sched; a CPU's cli depth is the
      number of locks it holds, and each lock has at most one process in its critical section. */
  lemma NoPanicAndMutualExclusion(bound: nat, t: State, p: int, q: int)
    requires Reachable(bound, t)
    ensures !t.sys.panicked
    ensures forall c :: 0 <= c < |t.sys.cpus| ==> CpuInv(t.sys, c)
    ensures 0 <= p < q < |t.sys.procs| ==> !(InPipeSection(t.sys, p) && InPipeSection(t.sys, q))
    ensures 0 <= p < q < |t.sys.procs| ==> !(InPtSection(t.sys, p) && InPtSection(t.sys, q))
  {
    var s, acts :| Init(s) && Steps(s, acts, bound, t);
    InitLockInv(s, bound);
    RunKeepsLockInv(s, acts, bound, t);
    if 0 <= p < q < |t.sys.procs| {
      SectionsAreLocked(t.sys, p, bound);
      SectionsAreLocked(t.sys, q, bound);
    }
    hide OpInv, HoldsPipe, HoldsPt;
  }
}
