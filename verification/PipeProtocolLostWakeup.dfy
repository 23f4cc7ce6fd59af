/** Lost wakeups: a process asleep on a quiet pipe has a reason, unless a killed writer left a full pipe behind. */
module PipeProtocolLostWakeup {
  // A killed writer leaves readers without their wakeup only if its write is longer than the ring.

  import opened PipeRing
  import opened PipeProtocol
  import opened PipeProtocolLocks
  import opened PipeProtocolWakeups

  predicate ReadersSettled(procs: seq<Proc>, w: World) {
    NoneWaiting(procs, NreadChan) || (Empty(w.pipe) && w.pipe.writeopen)
  }

  predicate WritersSettled(procs: seq<Proc>, w: World) {
    NoneWaiting(procs, NwriteChan) || (Full(w.pipe) && w.pipe.readopen)
  }

  predicate AboutToScan(pc: Pc) {
    pc.WakeAcquire? || pc.WakeScan?
  }

  /** What the holder of the pipe lock knows about waiting readers, by its control point. */
  predicate ReaderSide(procs: seq<Proc>, w: World, pc: Pc, op: Op) {
    match op
    case NoOp => true
    case Write(_, _, unsignalled) =>
      if pc == OpBody then NoneWaiting(procs, NreadChan) || (w.pipe.writeopen && Count(w.pipe) == unsignalled)
      else AboutToScan(pc) || NoneWaiting(procs, NreadChan)
    case Read(_, _, copying) =>
      if pc == SleepAcquire || pc == SleepRelease then Empty(w.pipe) && w.pipe.writeopen
      else if pc == OpRelease || (pc == OpBody && !copying) then ReadersSettled(procs, w)
      else NoneWaiting(procs, NreadChan)
    case Close(writable, closed, _) =>
      if !writable || (pc == OpBody && !closed) then ReadersSettled(procs, w)
      else AboutToScan(pc) || NoneWaiting(procs, NreadChan)
  }

  predicate WriterSide(procs: seq<Proc>, w: World, pc: Pc, op: Op) {
    match op
    case NoOp => true
    case Write(_, _, _) =>
      && WritersSettled(procs, w)
      && (WakesForRoom(pc) || pc == SleepAcquire || pc == SleepRelease ==> Full(w.pipe) && w.pipe.readopen)
    case Read(_, _, copying) =>
      if AboutToScan(pc) || (pc == OpBody && copying) then true
      else if pc.WakeRelease? then NoneWaiting(procs, NwriteChan)
      else WritersSettled(procs, w)
    case Close(writable, closed, _) =>
      if writable || (pc == OpBody && !closed) then WritersSettled(procs, w)
      else AboutToScan(pc) || NoneWaiting(procs, NwriteChan)
  }

  /** The invariant; a reader's side of it is suspended while a wakeup is owed. */
  ghost predicate WakeInv(s: State) {
    var y, w := s.sys, s.world;
    if y.pipeLock.Free? then
      (w.abandoned || ReadersSettled(y.procs, w)) && WritersSettled(y.procs, w)
    else
      && Running(y, y.pipeLock.cpu)
      && var h := Cur(y, y.pipeLock.cpu);
         (w.abandoned || ReaderSide(y.procs, w, h.pc, h.op)) && WriterSide(y.procs, w, h.pc, h.op)
  }

  /** Nobody starts to wait. */
  ghost predicate Shrinks(before: seq<Proc>, after: seq<Proc>) {
    && |after| == |before|
    && (forall q :: 0 <= q < |before| && Waiting(after[q], NreadChan) ==> Waiting(before[q], NreadChan))
    && (forall q :: 0 <= q < |before| && Waiting(after[q], NwriteChan) ==> Waiting(before[q], NwriteChan))
  }

  lemma ShrinkingKeepsSides(before: seq<Proc>, after: seq<Proc>, w: World, pc: Pc, op: Op)
    requires Shrinks(before, after)
    ensures NoneWaiting(before, NreadChan) ==> NoneWaiting(after, NreadChan)
    ensures NoneWaiting(before, NwriteChan) ==> NoneWaiting(after, NwriteChan)
    ensures ReaderSide(before, w, pc, op) ==> ReaderSide(after, w, pc, op)
    ensures WriterSide(before, w, pc, op) ==> WriterSide(after, w, pc, op)
    ensures ReadersSettled(before, w) ==> ReadersSettled(after, w)
    ensures WritersSettled(before, w) ==> WritersSettled(after, w)
  {
    assert NoneWaiting(before, NreadChan) ==> NoneWaiting(after, NreadChan);
    assert NoneWaiting(before, NwriteChan) ==> NoneWaiting(after, NwriteChan);
    hide NoneWaiting;
  }

  // ----- The holder's own steps

  lemma WriteBodyKeepsSides(procs: seq<Proc>, w: World, op: Op, killed: bool)
    requires op.Write? && 0 <= op.i && Valid(w.pipe)
    requires w.abandoned || ReaderSide(procs, w, OpBody, op)
    requires WriterSide(procs, w, OpBody, op)
    ensures var o := WriteBody(w, op, killed, !NoneWaiting(procs, NreadChan));
      (o.world.abandoned || ReaderSide(procs, o.world, o.pc, o.op)) && WriterSide(procs, o.world, o.pc, o.op)
  {
    if op.i < |op.buf| && !Full(w.pipe) {
      StoreAppends(w.pipe, op.buf[op.i]);
    }
    hide Valid, Count, NoneWaiting, Contents;
  }

  lemma ReadBodyKeepsSides(procs: seq<Proc>, w: World, op: Op, killed: bool)
    requires op.Read? && Valid(w.pipe)
    requires w.abandoned || ReaderSide(procs, w, OpBody, op)
    requires WriterSide(procs, w, OpBody, op)
    ensures var o := ReadBody(w, op, killed);
      (o.world.abandoned || ReaderSide(procs, o.world, o.pc, o.op)) && WriterSide(procs, o.world, o.pc, o.op)
  {
    hide Count, NoneWaiting, Empty, Full, Fetch;
  }

  lemma CloseBodyKeepsSides(procs: seq<Proc>, w: World, op: Op)
    requires op.Close? && Valid(w.pipe)
    requires w.abandoned || ReaderSide(procs, w, OpBody, op)
    requires WriterSide(procs, w, OpBody, op)
    ensures var o := CloseBody(w, op);
      (o.world.abandoned || ReaderSide(procs, o.world, o.pc, o.op)) && WriterSide(procs, o.world, o.pc, o.op)
  {
    hide Count, NoneWaiting;
  }

  lemma BodyKeepsSides(procs: seq<Proc>, w: World, pr: Proc)
    requires Valid(w.pipe) && (pr.op.Write? ==> 0 <= pr.op.i) && !pr.op.NoOp?
    requires w.abandoned || ReaderSide(procs, w, OpBody, pr.op)
    requires WriterSide(procs, w, OpBody, pr.op)
    ensures var o := Body(w, pr, !NoneWaiting(procs, NreadChan));
      (o.world.abandoned || ReaderSide(procs, o.world, o.pc, o.op)) && WriterSide(procs, o.world, o.pc, o.op)
  {
    hide Count, NoneWaiting, ReaderSide, WriterSide, WriteBody, ReadBody, CloseBody;
    if pr.op.Write? {
      WriteBodyKeepsSides(procs, w, pr.op, pr.killed);
    } else if pr.op.Read? {
      ReadBodyKeepsSides(procs, w, pr.op, pr.killed);
    } else {
      CloseBodyKeepsSides(procs, w, pr.op);
    }
  }

  /** Facts about the holder p of the pipe lock. */
  lemma HolderAt(s: State, c: nat, p: nat, bound: nat)
    requires LockInv(s.sys, bound) && Running(s.sys, c) && s.sys.cpus[c].cur == p && HoldsPipe(s.sys.procs[p].pc)
    ensures s.sys.pipeLock == HeldBy(c)
    ensures OpAt(s.sys.procs[p].pc, s.sys.procs[p].op, bound) && s.sys.procs[p].state == RUNNING
  {
    LockInvAt(s.sys, c, p, bound);
    hide LockInv, OpAt;
  }

  lemma BodyStepKeepsWake(s: State, c: nat, p: nat, bound: nat)
    requires LockInv(s.sys, bound) && Running(s.sys, c) && s.sys.cpus[c].cur == p && s.sys.procs[p].pc == OpBody
    requires WakeInv(s) && Valid(s.world.pipe)
    ensures WakeInv(BodyStep(s, p))
  {
    HolderAt(s, c, p, bound);
    var procs, pr := s.sys.procs, s.sys.procs[p];
    assert (pr.op.Write? ==> 0 <= pr.op.i) && !pr.op.NoOp?;
    BodyShape(s.world, pr, !NoneWaiting(procs, NreadChan), bound);
    hide LockInv, OpAt, ReaderSide, WriterSide, Valid, NoneWaiting, HoldsPt;
    BodyKeepsSides(procs, s.world, pr);
    hide Body;
    var t := BodyStep(s, p);
    var o := Body(s.world, pr, !NoneWaiting(procs, NreadChan));
    assert t.sys.procs == procs[p := pr.(op := o.op, pc := o.pc)];
    assert Shrinks(procs, t.sys.procs);
    ShrinkingKeepsSides(procs, t.sys.procs, o.world, o.pc, o.op);
  }

  /** A scan leaves nobody waiting on its channel. */
  lemma ScanEmptiesChannel(y: Sys, c: nat, p: nat, bound: nat)
    requires LockInv(y, bound) && Running(y, c) && y.cpus[c].cur == p && y.procs[p].pc.WakeScan?
    ensures NoneWaiting(Wakeup1(y.procs, WakeChan(y.procs[p].op)), WakeChan(y.procs[p].op))
  {
    var chan := WakeChan(y.procs[p].op);
    var procs := Wakeup1(y.procs, chan);
    forall q | 0 <= q < |procs|
      ensures !Waiting(procs[q], chan)
    {
      hide OpAt;
      assert ProcInv(y, q, bound) && ProcInv(y, p, bound) && CpuInv(y, c);
      SectionsAreLocked(y, p, bound);
      SectionsAreLocked(y, q, bound);
    }
  }

  lemma ScanStepKeepsWake(s: State, c: nat, p: nat, bound: nat)
    requires LockInv(s.sys, bound) && Running(s.sys, c) && s.sys.cpus[c].cur == p && s.sys.procs[p].pc.WakeScan?
    requires WakeInv(s)
    ensures WakeInv(ScanStep(s, p, s.sys.procs[p].pc.full))
  {
    HolderAt(s, c, p, bound);
    ScanEmptiesChannel(s.sys, c, p, bound);
    var pr := s.sys.procs[p];
    var full := pr.pc.full;
    var chan := WakeChan(pr.op);
    var procs := Wakeup1(s.sys.procs, chan);
    var t := ScanStep(s, p, full);
    assert Waiting(pr, NreadChan) == Waiting(pr, NwriteChan) == false by { hide OpAt; }
    assert OpAt(WakeScan(full), pr.op, bound);
    assert t.sys.procs == procs[p := pr.(op := Signalled(pr.op), pc := WakeRelease(full))];
    assert Shrinks(s.sys.procs, t.sys.procs);
    assert Shrinks(procs, t.sys.procs);
    hide LockInv, Wakeup1, ScanStep;
    ShrinkingKeepsSides(procs, t.sys.procs, t.world, WakeRelease(full), Signalled(pr.op));
    ShrinkingKeepsSides(s.sys.procs, t.sys.procs, s.world, WakeScan(full), pr.op);
    hide NoneWaiting, Full, Empty, Count, Shrinks;
  }

  /** The holder moves on without touching the pipe or the pipe lock. */
  lemma HolderMovesKeepsWake(s: State, t: State, c: nat, p: nat, next: Pc)
    requires WakeInv(s) && s.sys.pipeLock == HeldBy(c) && Running(s.sys, c) && s.sys.cpus[c].cur == p
    requires t.world == s.world && t.sys.pipeLock == HeldBy(c) && Running(t.sys, c) && t.sys.cpus[c].cur == p
    requires t.sys.procs == s.sys.procs[p := At(s.sys.procs[p], next)] && next != SleepSet &&
      s.sys.procs[p].pc != SleepSet
    requires ReaderSide(s.sys.procs, s.world, s.sys.procs[p].pc, s.sys.procs[p].op) ==>
      ReaderSide(s.sys.procs, s.world, next, s.sys.procs[p].op)
    requires WriterSide(s.sys.procs, s.world, s.sys.procs[p].pc, s.sys.procs[p].op) ==>
      WriterSide(s.sys.procs, s.world, next, s.sys.procs[p].op)
    ensures WakeInv(t)
  {
    assert Shrinks(s.sys.procs, t.sys.procs);
    ShrinkingKeepsSides(s.sys.procs, t.sys.procs, s.world, next, s.sys.procs[p].op);
    hide ReaderSide, WriterSide, NoneWaiting, Full, Empty, Shrinks;
  }

  lemma HolderStepKeepsWake(s: State, c: nat, p: nat, bound: nat)
    requires LockInv(s.sys, bound) && Enabled(s, Continue(c), bound) && s.sys.cpus[c].cur == p
    requires s.sys.procs[p].pc.WakeAcquire? || s.sys.procs[p].pc.WakeRelease? || s.sys.procs[p].pc == SleepAcquire
    requires WakeInv(s)
    ensures WakeInv(Advance(s, c, p))
  {
    HolderAt(s, c, p, bound);
    LockInvAt(s.sys, c, p, bound);
    var pr := s.sys.procs[p];
    var next := match pr.pc
      case WakeAcquire(full) => WakeScan(full)
      case WakeRelease(full) => AfterWake(pr.op, full)
      case _ => SleepRelease;
    hide LockInv, WakeInv, NoneWaiting, Full, Empty, Count, ProcInv, HoldsPt, HoldsPipe;
    assert ReaderSide(s.sys.procs, s.world, pr.pc, pr.op) ==> ReaderSide(s.sys.procs, s.world, next, pr.op);
    assert WriterSide(s.sys.procs, s.world, pr.pc, pr.op) ==> WriterSide(s.sys.procs, s.world, next, pr.op);
    hide ReaderSide, WriterSide, OpAt;
    HolderMovesKeepsWake(s, Advance(s, c, p), c, p, next);
  }

  /** Releasing the pipe lock at the end of a call. */
  lemma ReturnStepKeepsWake(s: State, c: nat, p: nat, bound: nat)
    requires LockInv(s.sys, bound) && Running(s.sys, c) && s.sys.cpus[c].cur == p && s.sys.procs[p].pc == OpRelease
    requires WakeInv(s)
    ensures WakeInv(ReturnStep(s, c, p))
  {
    HolderAt(s, c, p, bound);
    LockInvAt(s.sys, c, p, bound);
    var t := ReturnStep(s, c, p);
    var procs := s.sys.procs;
    assert t.sys.procs == procs[p := t.sys.procs[p]] && t.sys.pipeLock == Free;
    hide LockInv, ProcInv;
    assert Shrinks(procs, t.sys.procs);
    ShrinkingKeepsSides(procs, t.sys.procs, s.world, OpRelease, procs[p].op);
    hide NoneWaiting, Full, Empty, Count, Shrinks;
  }

  /** Releasing the pipe lock on the way to sleep: p now waits, and with good reason. */
  lemma SleepReleaseKeepsWake(s: State, c: nat, p: nat, bound: nat)
    requires LockInv(s.sys, bound) && Running(s.sys, c) && s.sys.cpus[c].cur == p && s.sys.procs[p].pc == SleepRelease
    requires WakeInv(s) && |s.world.pipe.data| > 0
    ensures WakeInv(Advance(s, c, p))
  {
    HolderAt(s, c, p, bound);
    LockInvAt(s.sys, c, p, bound);
    var t := Advance(s, c, p);
    var procs, pr := s.sys.procs, s.sys.procs[p];
    assert t.sys.procs == procs[p := At(pr, SleepSet)] && t.sys.pipeLock == Free && t.world == s.world;
    hide LockInv, ProcInv, Full, Empty, Count, CpuInv;
    if pr.op.Write? {
      OneMoreWaits(procs, t.sys.procs, p, NreadChan);
    } else {
      OneMoreWaits(procs, t.sys.procs, p, NwriteChan);
    }
  }

  lemma OneMoreWaits(procs: seq<Proc>, after: seq<Proc>, p: nat, other: Chan)
    requires p < |procs| && after == procs[p := At(procs[p], SleepSet)]
    requires procs[p].state == RUNNING && SleepChan(procs[p].op) != other
    ensures NoneWaiting(procs, other) ==> NoneWaiting(after, other)
  {
  }

  /** Taking the pipe lock. */
  lemma AcquireKeepsWake(s: State, c: nat, p: nat, bound: nat)
    requires LockInv(s.sys, bound) && Enabled(s, Continue(c), bound) && s.sys.cpus[c].cur == p &&
      WantsPipe(s.sys.procs[p].pc)
    requires WakeInv(s) && Valid(s.world.pipe)
    ensures WakeInv(Advance(s, c, p))
  {
    LockInvAt(s.sys, c, p, bound);
    CountMeaning(s.world.pipe);
    var t := Advance(s, c, p);
    var procs, pr := s.sys.procs, s.sys.procs[p];
    assert OpAt(pr.pc, pr.op, bound) && s.sys.pipeLock == Free;
    assert t.sys.procs == procs[p := At(pr, OpBody)] && t.sys.pipeLock == HeldBy(c) && t.world == s.world;
    assert pr.state == RUNNING;
    hide LockInv, ProcInv, Full, Empty, Count, CpuInv, Valid, HoldsPipe, HoldsPt;
    assert Shrinks(procs, t.sys.procs);
    hide Shrinks;
    ShrinkingKeepsSides(procs, t.sys.procs, s.world, OpBody, pr.op);
    hide NoneWaiting;
  }

  /** A step by anyone else: the pipe, its lock and its holder are as they were. */
  lemma BystanderKeepsWake(s: State, t: State)
    requires WakeInv(s)
    requires t.world.pipe == s.world.pipe && t.world.abandoned == s.world.abandoned && t.sys.pipeLock == s.sys.pipeLock
    requires Shrinks(s.sys.procs, t.sys.procs)
    requires s.sys.pipeLock.HeldBy? ==>
      var h := s.sys.pipeLock.cpu;
      Running(t.sys, h) && Cur(t.sys, h).pc == Cur(s.sys, h).pc && Cur(t.sys, h).op == Cur(s.sys, h).op
    ensures WakeInv(t)
  {
    if s.sys.pipeLock.HeldBy? {
      var h := Cur(s.sys, s.sys.pipeLock.cpu);
      ShrinkingKeepsSides(s.sys.procs, t.sys.procs, s.world, h.pc, h.op);
      SidesReadPipeOnly(t.sys.procs, s.world, t.world, h.pc, h.op);
    } else {
      ShrinkingKeepsSides(s.sys.procs, t.sys.procs, s.world, User, NoOp);
    }
    hide NoneWaiting, ReaderSide, WriterSide, Full, Empty, Shrinks;
  }

  lemma SidesReadPipeOnly(procs: seq<Proc>, w: World, v: World, pc: Pc, op: Op)
    requires w.pipe == v.pipe
    ensures ReaderSide(procs, w, pc, op) == ReaderSide(procs, v, pc, op)
    ensures WriterSide(procs, w, pc, op) == WriterSide(procs, v, pc, op)
  {
    hide NoneWaiting, Full, Empty, Count;
  }

  /** The CPU that moves is not the one that holds the pipe lock. */
  predicate Bystander(s: State, a: Action) {
    match a
    case Continue(c) => Running(s.sys, c) && !HoldsPipe(Cur(s.sys, c).pc) && !WantsPipe(Cur(s.sys, c).pc)
    case _ => true
  }

  /** A step of one process p on CPU c that is not the holder, other processes apart from p unchanged. */
  lemma SingleBystander(s: State, t: State, c: nat, p: nat, bound: nat)
    requires LockInv(s.sys, bound) && WakeInv(s) && InRange(s.sys, c, p)
    requires s.sys.cpus[c].cur == -1 || (s.sys.cpus[c].cur == p && !HoldsPipe(s.sys.procs[p].pc))
    requires s.sys.cpus[c].cur == -1 ==> s.sys.procs[p].on == -1
    requires t.sys.pipeLock == s.sys.pipeLock && |t.sys.procs| == |s.sys.procs| && |t.sys.cpus| == |s.sys.cpus|
    requires t.sys.procs == s.sys.procs[p := t.sys.procs[p]] && t.sys.cpus == s.sys.cpus[c := t.sys.cpus[c]]
    requires t.world.pipe == s.world.pipe && t.world.abandoned == s.world.abandoned
    requires Waiting(t.sys.procs[p], NreadChan) ==> Waiting(s.sys.procs[p], NreadChan)
    requires Waiting(t.sys.procs[p], NwriteChan) ==> Waiting(s.sys.procs[p], NwriteChan)
    ensures WakeInv(t)
  {
    LockInvAt(s.sys, c, p, bound);
    if s.sys.pipeLock.HeldBy? {
      LockInvAt(s.sys, s.sys.pipeLock.cpu, p, bound);
    }
    hide WakeInv, Waiting;
    assert s.sys.pipeLock.HeldBy? ==> s.sys.pipeLock.cpu != c;
    assert Shrinks(s.sys.procs, t.sys.procs);
    BystanderKeepsWake(s, t);
  }

  lemma PtLockStepKeepsWake(s: State, c: nat, p: nat, bound: nat)
    requires LockInv(s.sys, bound) && Enabled(s, Continue(c), bound) && WakeInv(s) && s.sys.cpus[c].cur == p
    requires Bystander(s, Continue(c)) &&
      (WantsPt(s.sys.procs[p].pc) || ReleasesPt(s.sys.procs[p].pc) || s.sys.procs[p].pc == YieldBack)
    ensures WakeInv(Advance(s, c, p))
  {
    hide LockInv, WakeInv, OpAt, BodyStep, ScanStep, ReturnStep, KillStep, AcquirePipe, ReleasePipe, PushCli, PopCli,
      PopCliPanics, HoldsPt, CpuInv, Sched;
    var t := Advance(s, c, p);
    LockInvAt(s.sys, c, p, bound);
    SingleBystander(s, t, c, p, bound);
  }

  lemma BystanderAdvanceKeepsWake(s: State, c: nat, p: nat, bound: nat)
    requires LockInv(s.sys, bound) && Enabled(s, Continue(c), bound) && WakeInv(s) && s.sys.cpus[c].cur == p
    requires Bystander(s, Continue(c)) && !s.sys.procs[p].pc.KillScan?
    requires !WantsPt(s.sys.procs[p].pc) && !ReleasesPt(s.sys.procs[p].pc) && s.sys.procs[p].pc != YieldBack
    ensures WakeInv(Advance(s, c, p))
  {
    var t := Advance(s, c, p);
    LockInvAt(s.sys, c, p, bound);
    hide LockInv, WakeInv, OpAt, BodyStep, ScanStep, ReturnStep, KillStep, AcquirePipe, ReleasePipe, AcquirePt,
      ReleasePt, EndInterrupt, HoldsPt;
    SingleBystander(s, t, c, p, bound);
  }

  lemma CallKeepsWake(s: State, a: Action, p: nat, bound: nat)
    requires LockInv(s.sys, bound) && Enabled(s, a, bound) && WakeInv(s) && (a.Call? || a.CallKill? || a.Timer?)
    requires p == s.sys.cpus[a.c].cur
    ensures WakeInv(Apply(s, a, bound))
  {
    LockInvAt(s.sys, a.c, p, bound);
    hide LockInv, WakeInv, OpAt, MayCall;
    SingleBystander(s, Apply(s, a, bound), a.c, p, bound);
  }

  lemma DispatchKeepsWake(s: State, c: nat, p: nat, bound: nat)
    requires LockInv(s.sys, bound) && Enabled(s, SchedPick(c, p), bound) && WakeInv(s)
    ensures WakeInv(s.(sys := Dispatch(s.sys, c, p)))
  {
    LockInvAt(s.sys, c, p, bound);
    if s.sys.procs[p].on != -1 {
      LockInvAt(s.sys, s.sys.procs[p].on, p, bound);
    }
    hide LockInv, WakeInv, OpAt;
    SingleBystander(s, s.(sys := Dispatch(s.sys, c, p)), c, p, bound);
  }

  lemma KillStepKeepsWake(s: State, c: nat, p: nat, victim: int, bound: nat)
    requires LockInv(s.sys, bound) && Running(s.sys, c) && s.sys.cpus[c].cur == p && WakeInv(s)
    requires s.sys.procs[p].pc == KillScan(victim)
    ensures WakeInv(KillStep(s, p, victim))
  {
    LockInvAt(s.sys, c, p, bound);
    var t := KillStep(s, p, victim);
    if s.sys.pipeLock.HeldBy? {
      LockInvAt(s.sys, s.sys.pipeLock.cpu, p, bound);
      assert s.sys.pipeLock.cpu != c;
    }
    assert t.sys.cpus == s.sys.cpus;
    assert forall q :: 0 <= q < |s.sys.procs| && q != p ==>
      t.sys.procs[q].pc == s.sys.procs[q].pc && t.sys.procs[q].op == s.sys.procs[q].op;
    assert Shrinks(s.sys.procs, t.sys.procs);
    hide LockInv, WakeInv, Shrinks, KillStep;
    BystanderKeepsWake(s, t);
  }

  lemma SchedulerKeepsWake(s: State, y: Sys, c: nat, bound: nat)
    requires LockInv(s.sys, bound) && WakeInv(s) && c < |s.sys.cpus| && s.sys.cpus[c].cur < 0
    requires y == EnterScheduler(s.sys, c) || y == LeaveScheduler(s.sys, c)
    ensures WakeInv(s.(sys := y))
  {
    assert s.sys.pipeLock.HeldBy? ==> CpuInv(s.sys, s.sys.pipeLock.cpu) by { hide OpInv; }
    assert Shrinks(s.sys.procs, y.procs);
    hide LockInv, WakeInv, Shrinks;
    BystanderKeepsWake(s, s.(sys := y));
  }

  lemma StepKeepsWake(s: State, a: Action, bound: nat)
    requires LockInv(s.sys, bound) && Enabled(s, a, bound) && WakeInv(s) && Valid(s.world.pipe)
    ensures WakeInv(Apply(s, a, bound))
  {
    hide LockInv, WakeInv, Valid, BodyStep, ScanStep, ReturnStep, KillStep, AcquirePipe, ReleasePipe, AcquirePt,
      ReleasePt, Dispatch, EnterScheduler, LeaveScheduler;
    match a {
      case SchedTake(c) => SchedulerKeepsWake(s, EnterScheduler(s.sys, c), c, bound);
      case SchedDrop(c) => SchedulerKeepsWake(s, LeaveScheduler(s.sys, c), c, bound);
      case SchedPick(c, p) => DispatchKeepsWake(s, c, p, bound);
      case Continue(c) => AdvanceKeepsWake(s, c, s.sys.cpus[c].cur, bound);
      case _ => CallKeepsWake(s, a, s.sys.cpus[a.c].cur, bound);
    }
  }

  lemma AdvanceKeepsWake(s: State, c: nat, p: nat, bound: nat)
    requires LockInv(s.sys, bound) && Enabled(s, Continue(c), bound) && s.sys.cpus[c].cur == p && WakeInv(s) &&
      Valid(s.world.pipe)
    ensures WakeInv(Advance(s, c, p))
  {
    var pc := s.sys.procs[p].pc;
    hide LockInv, WakeInv, BodyStep, ScanStep, ReturnStep, KillStep, AcquirePipe, ReleasePipe, AcquirePt, ReleasePt;
    if WantsPipe(pc) {
      AcquireKeepsWake(s, c, p, bound);
    } else if pc == OpBody {
      BodyStepKeepsWake(s, c, p, bound);
    } else if pc.WakeScan? {
      ScanStepKeepsWake(s, c, p, bound);
    } else if pc.WakeAcquire? || pc.WakeRelease? || pc == SleepAcquire {
      HolderStepKeepsWake(s, c, p, bound);
    } else if pc == OpRelease {
      ReturnStepKeepsWake(s, c, p, bound);
    } else if pc == SleepRelease {
      SleepReleaseKeepsWake(s, c, p, bound);
    } else if pc.KillScan? {
      KillStepKeepsWake(s, c, p, pc.victim, bound);
    } else if WantsPt(pc) || ReleasesPt(pc) || pc == YieldBack {
      PtLockStepKeepsWake(s, c, p, bound);
    } else {
      BystanderAdvanceKeepsWake(s, c, p, bound);
    }
  }

  // ----- When a wakeup can be owed

  /** A writer leaves a full pipe while a reader waits only if it had more to write than the ring holds. */
  lemma ShortWritesOweNothing(s: State, c: nat, p: nat, bound: nat)
    requires LockInv(s.sys, bound) && WakeInv(s) && Valid(s.world.pipe)
    requires Running(s.sys, c) && s.sys.cpus[c].cur == p && s.sys.procs[p].pc == OpBody
    requires bound <= |s.world.pipe.data| && !s.world.abandoned
    ensures !BodyStep(s, p).world.abandoned
  {
    var procs, pr := s.sys.procs, s.sys.procs[p];
    HolderAt(s, c, p, bound);
    CountMeaning(s.world.pipe);
    hide LockInv, Valid, Count, Full, NoneWaiting;
  }

  lemma StepOwesNothing(s: State, a: Action, bound: nat)
    requires LockInv(s.sys, bound) && WakeInv(s) && Valid(s.world.pipe) && Enabled(s, a, bound)
    requires bound <= |s.world.pipe.data| && !s.world.abandoned
    ensures !Apply(s, a, bound).world.abandoned
  {
    if !Touches(s, a) {
      OtherStepsAreQuiet(s, a, bound);
    } else if a.Continue? && Cur(s.sys, a.c).pc == OpBody {
      ShortWritesOweNothing(s, a.c, s.sys.cpus[a.c].cur, bound);
    }
    hide LockInv, WakeInv, Valid, BodyStep;
  }

  lemma StepKeepsRingSize(s: State, a: Action, bound: nat)
    requires LockInv(s.sys, bound) && Enabled(s, a, bound)
    ensures |Apply(s, a, bound).world.pipe.data| == |s.world.pipe.data|
  {
    if !Touches(s, a) {
      OtherStepsAreQuiet(s, a, bound);
    } else if a.Continue? && Cur(s.sys, a.c).pc == OpBody {
      var p := s.sys.cpus[a.c].cur;
      LockInvAt(s.sys, a.c, p, bound);
      BodyShape(s.world, s.sys.procs[p], !NoneWaiting(s.sys.procs, NreadChan), bound);
    }
    hide LockInv, Body, NoneWaiting, ProcInv, CpuInv;
  }

  /** All of the invariant, over a run. */
  ghost predicate AllInv(s: State, bound: nat) {
    && LockInv(s.sys, bound) && FifoInv(s) && EndsInv(s) && WakeInv(s)
    && (bound <= |s.world.pipe.data| ==> !s.world.abandoned)
  }

  lemma InitAllInv(s: State, bound: nat)
    requires Init(s)
    ensures AllInv(s, bound)
  {
    InitLockInv(s, bound);
    InitFifo(s);
  }

  lemma StepKeepsAllInv(s: State, a: Action, bound: nat)
    requires AllInv(s, bound) && Enabled(s, a, bound)
    ensures AllInv(Apply(s, a, bound), bound)
  {
    assert Valid(s.world.pipe);
    StepKeepsLockInv(s, a, bound);
    StepKeepsFifo(s, a, bound);
    StepKeepsEnds(s, a, bound);
    StepKeepsWake(s, a, bound);
    StepKeepsRingSize(s, a, bound);
    hide LockInv, FifoInv, EndsInv, WakeInv, Valid, Enabled, Apply;
    if bound <= |s.world.pipe.data| {
      StepOwesNothing(s, a, bound);
    }
  }

  lemma {:induction false} RunKeepsAllInv(s: State, acts: seq<Action>, bound: nat, t: State)
    requires AllInv(s, bound) && Steps(s, acts, bound, t)
    ensures AllInv(t, bound)
    decreases |acts|
  {
    hide AllInv, Apply, Enabled;
    if acts != [] {
      StepKeepsAllInv(s, acts[0], bound);
      RunKeepsAllInv(Apply(s, acts[0], bound), acts[1..], bound, t);
    }
  }

  lemma ReachableAllInv(bound: nat, t: State)
    requires Reachable(bound, t)
    ensures AllInv(t, bound)
  {
    hide AllInv, Steps, Init;
    var s, acts :| Init(s) && Steps(s, acts, bound, t);
    InitAllInv(s, bound);
    RunKeepsAllInv(s, acts, bound, t);
  }

  // ----- Main results

  /** A reader asleep on nread finds the pipe empty and still written to; a writer asleep on nwrite finds it full and
      still read from. */
  ghost predicate SleepersHaveReason(s: State) {
    forall p :: 0 <= p < |s.sys.procs| && s.sys.procs[p].state == SLEEPING ==>
      && (s.sys.procs[p].chan == NreadChan ==> Empty(s.world.pipe) && s.world.pipe.writeopen)
      && (s.sys.procs[p].chan == NwriteChan ==> Full(s.world.pipe) && s.world.pipe.readopen)
  }

  /** Over all interleavings of readers, writers, closers, kills and preemptions: whenever the
      pipe lock is free, no wakeup is lost unless a killed writer has just abandoned the pipe;
      a sleeping writer always has reason to sleep; bytes are delivered in the order written,
      none overwritten unread; and once the page is freed nobody is inside a pipe call. */
  lemma PipeRuns(bound: nat, t: State)
    requires Reachable(bound, t)
    ensures t.sys.pipeLock == Free && !t.world.abandoned ==> SleepersHaveReason(t)
    ensures t.sys.pipeLock == Free ==>
      NoneWaiting(t.sys.procs, NwriteChan) || (Full(t.world.pipe) && t.world.pipe.readopen)
    ensures t.world.delivered <= t.world.written &&
      Count(t.world.pipe) == |t.world.written| - |t.world.delivered| <= |t.world.pipe.data|
    ensures |t.world.pipe.data| > 0 && t.world.written == t.world.delivered + Contents(t.world.pipe)
    ensures forall p :: 0 <= p < |t.sys.procs| && t.sys.procs[p].op.Read? ==>
      SuffixOf(t.sys.procs[p].op.got, t.world.delivered)
    ensures t.world.freed ==> forall p :: 0 <= p < |t.sys.procs| ==> t.sys.procs[p].op.NoOp?
  {
    ReachableAllInv(bound, t);
    if t.world.freed {
      forall p | 0 <= p < |t.sys.procs|
        ensures t.sys.procs[p].op.NoOp?
      {
        assert EndFits(t.world, t.sys.procs[p].op);
      }
    }
    hide LockInv, Full, Empty;
  }

  /** A reader and a writer are never asleep on the same quiet pipe, killed writers or not, once nothing is owed. */
  lemma ReaderAndWriterNeverBothSleep(bound: nat, t: State, r: nat, w: nat)
    requires Reachable(bound, t) && t.sys.pipeLock == Free && !t.world.abandoned
    requires r < |t.sys.procs| && w < |t.sys.procs|
    ensures !(t.sys.procs[r].state == SLEEPING && t.sys.procs[r].chan == NreadChan &&
      t.sys.procs[w].state == SLEEPING && t.sys.procs[w].chan == NwriteChan)
  {
    ReachableAllInv(bound, t);
    PipeRuns(bound, t);
    CountMeaning(t.world.pipe);
    hide LockInv, WakeInv, EndsInv, Full, Empty, Contents;
  }
}
