/** What the callers of a pipe get, over whole runs of the pipe machine (pipe.c): their own bytes. */
module PipeCalls {
  import opened PipeRing
  import opened PipeProtocol
  import opened PipeProtocolLocks
  import opened PipeProtocolWakeups
  import opened PipeProtocolLostWakeup

  /** A run as the states it goes through and the steps between them. */
  ghost predicate IsRun(states: seq<State>, acts: seq<Action>, bound: nat) {
    && |states| == |acts| + 1 && Init(states[0])
    && forall i :: 0 <= i < |acts| ==> IsStep(states[i], acts[i], bound, states[i + 1])
  }

  ghost predicate IsStep(s: State, a: Action, bound: nat, t: State) {
    Enabled(s, a, bound) && t == Apply(s, a, bound)
  }

  /** The step is one of p's own. */
  predicate Own(s: State, a: Action, p: int) {
    a.Continue? && Running(s.sys, a.c) && s.sys.cpus[a.c].cur == p
  }

  predicate Has(s: State, p: int) {
    0 <= p < |s.sys.procs|
  }

  // ----- How each call stands before it returns

  /** The copy loop of piperead is done: as many bytes as asked for, or no more to be had. */
  predicate ReadDone(w: World, op: Op)
    requires op.Read?
  {
    |op.got| >= op.n || Empty(w.pipe)
  }

  predicate Standing(w: World, pr: Proc) {
    match pr.op
    case NoOp => true
    case Write(buf, i, _) =>
      && 0 <= i <= |buf|
      && (Wakes(pr.pc) && !WakesForRoom(pr.pc) ==> i == |buf|)
      && (pr.pc == OpRelease ==> i == |buf| || (Full(w.pipe) && (!w.pipe.readopen || pr.killed)))
    case Read(n, got, copying) =>
      && (got != [] ==> |got| <= n)
      && (copying && got == [] ==> !(Empty(w.pipe) && w.pipe.writeopen))
      && (Wakes(pr.pc) ==> ReadDone(w, pr.op))
      && (pr.pc == OpRelease ==> if copying then ReadDone(w, pr.op) else Empty(w.pipe) && w.pipe.writeopen && pr.killed)
    case Close(writable, closed, last) =>
      && (closed ==> !EndOpen(w, writable))
      && (pr.pc == OpRelease ==> (last <==> !w.pipe.readopen && !w.pipe.writeopen))
  }

  /** Both ends closed: the page is free, or a closer is still to free it. */
  ghost predicate Freeing(s: State) {
    && (!s.world.pipe.readopen && !s.world.pipe.writeopen ==> s.world.freed || exists p :: Closer(s, p))
    && (s.world.freed ==> !s.world.pipe.readopen && !s.world.pipe.writeopen)
    && (s.world.writerGone ==> !s.world.pipe.writeopen || exists p :: Closing(s, p, true))
    && (s.world.readerGone ==> !s.world.pipe.readopen || exists p :: Closing(s, p, false))
  }

  predicate Closer(s: State, p: int) {
    Has(s, p) && s.sys.procs[p].op.Close? && s.sys.procs[p].op.closed
  }

  predicate Closing(s: State, p: int, writable: bool) {
    Has(s, p) && s.sys.procs[p].op.Close? && s.sys.procs[p].op.writable == writable
  }

  ghost predicate CallsInv(s: State) {
    && (forall p :: 0 <= p < |s.sys.procs| ==> Standing(s.world, s.sys.procs[p]))
    && Freeing(s)
  }

  lemma InitCalls(s: State)
    requires Init(s)
    ensures CallsInv(s)
  {
  }

  /** What a body step leaves of everything but the pipe's bytes and ends. */
  predicate SameSides(w: World, v: World) {
    v.freed == w.freed && v.readerGone == w.readerGone && v.writerGone == w.writerGone
  }

  /** A step of a body, for the process whose call it is. */
  lemma BodyStands(w: World, pr: Proc, waits: bool, bound: nat)
    requires |w.pipe.data| > 0 && pr.pc == OpBody && OpAt(OpBody, pr.op, bound) && Standing(w, pr)
    ensures var o := Body(w, pr, waits); Standing(o.world, pr.(op := o.op, pc := o.pc)) && SameSides(w, o.world)
  {
    match pr.op
    case NoOp =>
    case Write(_, _, _) =>
      WriteStands(w, pr, waits);
      hide Standing, WriteBody, SameSides;
    case Read(_, _, _) =>
      ReadStands(w, pr);
      hide Standing, ReadBody, SameSides;
    case Close(_, _, _) =>
      CloseStands(w, pr);
      hide Standing, CloseBody, SameSides;
  }

  lemma WriteStands(w: World, pr: Proc, waits: bool)
    requires |w.pipe.data| > 0 && pr.pc == OpBody && pr.op.Write? && Standing(w, pr)
    ensures var o := WriteBody(w, pr.op, pr.killed, waits);
      Standing(o.world, pr.(op := o.op, pc := o.pc)) && SameSides(w, o.world)
  {
    hide Full, Store;
  }

  lemma ReadStands(w: World, pr: Proc)
    requires |w.pipe.data| > 0 && pr.pc == OpBody && pr.op.Read? && (!pr.op.copying ==> pr.op.got == []) &&
      Standing(w, pr)
    ensures var o := ReadBody(w, pr.op, pr.killed);
      Standing(o.world, pr.(op := o.op, pc := o.pc)) && SameSides(w, o.world)
  {
    hide Empty, Fetch;
  }

  lemma CloseStands(w: World, pr: Proc)
    requires |w.pipe.data| > 0 && pr.pc == OpBody && pr.op.Close? && Standing(w, pr)
    ensures var o := CloseBody(w, pr.op);
      Standing(o.world, pr.(op := o.op, pc := o.pc)) && SameSides(w, o.world)
  {
  }

  /** Control points that ask no more of a call's standing. */
  predicate Follows(before: Pc, after: Pc) {
    || (!Wakes(after) && after != OpRelease)
    || after == before
    || (Wakes(before) && Wakes(after) && WakesForRoom(before) == WakesForRoom(after))
    || (after == OpRelease && Wakes(before) && !WakesForRoom(before))
  }

  lemma FollowsStands(w: World, v: World, x: Proc, y: Proc, bound: nat)
    requires Standing(w, x) && OpAt(CallPc(x.pc, x.saved), x.op, bound) && Follows(x.pc, y.pc) &&
      (x.killed ==> y.killed)
    requires v.pipe == w.pipe && (y.op == x.op || y.op == Signalled(x.op))
    requires x.op.Close? && y.pc == OpRelease ==> x.pc == OpRelease
    ensures Standing(v, y)
  {
    hide Full, Empty;
  }

  /** Outside the pipe lock a call's standing does not depend on the pipe. */
  lemma OutsideStands(w: World, v: World, pr: Proc, bound: nat)
    requires Standing(w, pr) && OpAt(CallPc(pr.pc, pr.saved), pr.op, bound) && !HoldsPipe(pr.pc)
    requires (pr.op.Close? ==> !pr.op.closed) && (Yields(pr.pc) ==> Unlocked(pr.saved))
    ensures Standing(v, pr)
  {
    hide Full, Empty;
  }

  /** Where a step that is neither the body's, nor a return's, nor a scan's leads. */
  function NextPc(pr: Proc): Pc {
    match pr.pc
    case OpAcquire => OpBody
    case WakeAcquire(full) => WakeScan(full)
    case WakeRelease(full) => AfterWake(pr.op, full)
    case SleepAcquire => SleepRelease
    case SleepRelease => SleepSet
    case SleepSet => SleepSched
    case SleepSched => SleepWoken
    case SleepWoken => SleepPtRelease
    case SleepPtRelease => SleepReacquire
    case SleepReacquire => OpBody
    case KillAcquire(v) => KillScan(v)
    case YieldAcquire => YieldSet
    case YieldSet => YieldSched
    case YieldSched => YieldBack
    case YieldBack => pr.saved
    case _ => User
  }

  predicate Plainly(pc: Pc) {
    pc != OpBody && pc != OpRelease && !pc.WakeScan? && !pc.KillScan?
  }

  lemma NextPcFollows(pr: Proc, bound: nat)
    requires OpAt(CallPc(pr.pc, pr.saved), pr.op, bound) && (Yields(pr.pc) ==> Unlocked(pr.saved)) && Plainly(pr.pc)
    ensures Follows(pr.pc, NextPc(pr)) && (pr.op.Close? ==> NextPc(pr) != OpRelease)
  {
  }

  /** p is as before but for its place, its state and what the scheduler keeps of it. */
  predicate Placed(x: Proc, y: Proc, pc: Pc) {
    y.op == x.op && y.killed == x.killed && (y == x || y.pc == pc)
  }

  lemma AcquireMoves(y: Sys, c: nat, p: nat, next: Pc)
    requires InRange(y, c, p)
    ensures var z := AcquirePipe(y, c, p, next);
      |z.procs| == |y.procs| && z.procs == y.procs[p := z.procs[p]] && Placed(y.procs[p], z.procs[p], next)
    ensures var z := AcquirePt(y, c, p, next);
      |z.procs| == |y.procs| && z.procs == y.procs[p := z.procs[p]] && Placed(y.procs[p], z.procs[p], next)
  {
    hide PushCli;
  }

  lemma ReleaseMoves(y: Sys, c: nat, p: nat, next: Pc)
    requires InRange(y, c, p)
    ensures var z := ReleasePipe(y, c, p, next);
      |z.procs| == |y.procs| && z.procs == y.procs[p := z.procs[p]] && Placed(y.procs[p], z.procs[p], next)
    ensures var z := ReleasePt(y, c, p, next);
      |z.procs| == |y.procs| && z.procs == y.procs[p := z.procs[p]] && Placed(y.procs[p], z.procs[p], next)
    ensures var z := EndInterrupt(y, c, p);
      |z.procs| == |y.procs| && z.procs == y.procs[p := z.procs[p]] &&
      Placed(y.procs[p], z.procs[p], y.procs[p].saved)
  {
    hide PopCli, PopCliPanics;
  }

  lemma SchedMoves(y: Sys, c: nat, p: nat, back: Pc)
    requires InRange(y, c, p)
    ensures var z := Sched(y, c, p, back);
      |z.procs| == |y.procs| && z.procs == y.procs[p := z.procs[p]] && Placed(y.procs[p], z.procs[p], back)
  {
  }

  /** Only p has changed, and only in that way. */
  predicate OnlyPlaced(s: State, t: State, p: int) {
    && 0 <= p < |s.sys.procs| == |t.sys.procs| && t.world == s.world
    && t.sys.procs == s.sys.procs[p := t.sys.procs[p]]
    && Placed(s.sys.procs[p], t.sys.procs[p], NextPc(s.sys.procs[p]))
  }

  lemma PlainAcquires(s: State, c: nat, p: nat)
    requires InRange(s.sys, c, p) && |s.world.pipe.data| > 0 && Plainly(s.sys.procs[p].pc)
    requires WantsPipe(s.sys.procs[p].pc) || WantsPt(s.sys.procs[p].pc)
    ensures OnlyPlaced(s, Advance(s, c, p), p)
  {
    AcquireMoves(s.sys, c, p, NextPc(s.sys.procs[p]));
    hide AcquirePipe, AcquirePt, ReleasePipe, ReleasePt, EndInterrupt, Sched, BodyStep, ScanStep, KillStep, ReturnStep,
      AfterWake;
  }

  lemma PlainSets(s: State, c: nat, p: nat)
    requires InRange(s.sys, c, p) && |s.world.pipe.data| > 0 && Plainly(s.sys.procs[p].pc)
    requires var pc := s.sys.procs[p].pc;
      pc == SleepSet || pc == SleepWoken || pc == YieldSet || pc == SleepSched || pc == YieldSched
    ensures OnlyPlaced(s, Advance(s, c, p), p)
  {
    SchedMoves(s.sys, c, p, NextPc(s.sys.procs[p]));
    hide AcquirePipe, AcquirePt, ReleasePipe, ReleasePt, EndInterrupt, Sched, BodyStep, ScanStep, KillStep, ReturnStep,
      AfterWake;
  }

  lemma PlainReleases(s: State, c: nat, p: nat)
    requires InRange(s.sys, c, p) && |s.world.pipe.data| > 0 && Plainly(s.sys.procs[p].pc)
    requires var pc := s.sys.procs[p].pc;
      && !WantsPipe(pc) && !WantsPt(pc)
      && pc != SleepSet && pc != SleepWoken && pc != YieldSet && pc != SleepSched && pc != YieldSched
    ensures OnlyPlaced(s, Advance(s, c, p), p)
  {
    ReleaseMoves(s.sys, c, p, NextPc(s.sys.procs[p]));
    hide AcquirePipe, AcquirePt, ReleasePipe, ReleasePt, EndInterrupt, Sched, BodyStep, ScanStep, KillStep, ReturnStep,
      AfterWake;
  }

  /** A step under a lock, or towards one, that is none of the pipe's own. */
  lemma PlainStep(s: State, c: nat, p: nat)
    requires InRange(s.sys, c, p) && |s.world.pipe.data| > 0 && Plainly(s.sys.procs[p].pc)
    ensures OnlyPlaced(s, Advance(s, c, p), p)
  {
    hide Advance, OnlyPlaced, Plainly;
    var pc := s.sys.procs[p].pc;
    if WantsPipe(pc) || WantsPt(pc) {
      PlainAcquires(s, c, p);
    } else if pc == SleepSet || pc == SleepWoken || pc == YieldSet || pc == SleepSched || pc == YieldSched {
      PlainSets(s, c, p);
    } else {
      PlainReleases(s, c, p);
    }
  }

  // ----- One step of the machine

  /** What a step that is no body step does to a process: its place, its state and its marks, and perhaps the end of its
      call. */
  lemma QuietFor(s: State, a: Action, q: nat, bound: nat)
    requires LockInv(s.sys, bound) && Enabled(s, a, bound) && q < |s.sys.procs|
    requires !(a.Continue? && Cur(s.sys, a.c).pc == OpBody) && !(a.Call? && s.sys.cpus[a.c].cur == q)
    requires !(Own(s, a, q) && s.sys.procs[q].pc == OpRelease)
    ensures var x, t := s.sys.procs[q], Apply(s, a, bound);
      && |t.sys.procs| == |s.sys.procs| && t.world.pipe == s.world.pipe
      && t.world.written == s.world.written && t.world.delivered == s.world.delivered
      && (a.Call? || (a.Continue? && Cur(s.sys, a.c).pc == OpRelease) || SameSides(s.world, t.world))
      && (x.killed ==> t.sys.procs[q].killed)
      && (t.sys.procs[q].op == x.op || (Own(s, a, q) && t.sys.procs[q].op == Signalled(x.op)))
      && Follows(x.pc, t.sys.procs[q].pc)
      && (x.op.Close? && t.sys.procs[q].pc == OpRelease ==> x.pc == OpRelease)
  {
    if a.Continue? {
      ContinueQuiet(s, a.c, s.sys.cpus[a.c].cur, q, bound);
    } else {
      hide LockInv, PushCli, PopCli, PopCliPanics, Advance;
    }
  }

  lemma ContinueQuiet(s: State, c: nat, p: nat, q: nat, bound: nat)
    requires LockInv(s.sys, bound) && Enabled(s, Continue(c), bound) && p == s.sys.cpus[c].cur && q < |s.sys.procs|
    requires s.sys.procs[p].pc != OpBody && !(p == q && s.sys.procs[q].pc == OpRelease)
    ensures var x, t := s.sys.procs[q], Advance(s, c, p);
      && |t.sys.procs| == |s.sys.procs| && t.world.pipe == s.world.pipe
      && t.world.written == s.world.written && t.world.delivered == s.world.delivered
      && (s.sys.procs[p].pc == OpRelease || SameSides(s.world, t.world))
      && (x.killed ==> t.sys.procs[q].killed)
      && (t.sys.procs[q].op == x.op || (p == q && t.sys.procs[q].op == Signalled(x.op)))
      && Follows(x.pc, t.sys.procs[q].pc)
      && (x.op.Close? && t.sys.procs[q].pc == OpRelease ==> x.pc == OpRelease)
  {
    LockInvAt(s.sys, c, p, bound);
    hide LockInv, CpuInv, ProcInv, OpInv;
    var pr := s.sys.procs[p];
    if Plainly(pr.pc) {
      PlainStep(s, c, p);
      PlaceOf(s.sys, p, bound);
      NextPcFollows(pr, bound);
      hide Advance, NextPc, OpAt;
    } else if pr.pc == OpRelease {
      ReleaseMoves(s.sys, c, p, User);
      hide ReleasePipe;
    } else {
      hide Follows;
      FollowsScan(pr.pc);
    }
  }

  lemma FollowsScan(pc: Pc)
    ensures pc.WakeScan? ==> Follows(pc, WakeRelease(pc.full))
    ensures Follows(pc, KillRelease) && Follows(pc, pc)
  {
  }

  lemma PlaceOf(y: Sys, p: nat, bound: nat)
    requires p < |y.procs| && ProcInv(y, p, bound)
    ensures OpAt(CallPc(y.procs[p].pc, y.procs[p].saved), y.procs[p].op, bound)
    ensures Yields(y.procs[p].pc) ==> Unlocked(y.procs[p].saved)
  {
  }

  /** A body step leaves the other processes alone, and the pipe's bytes too unless it is a write's or a read's. */
  lemma BodyFor(s: State, c: nat, p: nat, bound: nat)
    requires LockInv(s.sys, bound) && Enabled(s, Continue(c), bound) && p == s.sys.cpus[c].cur
    requires s.sys.procs[p].pc == OpBody && Standing(s.world, s.sys.procs[p])
    ensures var t := Apply(s, Continue(c), bound);
      && |t.sys.procs| == |s.sys.procs| &&
        (forall q :: 0 <= q < |s.sys.procs| && q != p ==> t.sys.procs[q] == s.sys.procs[q])
      && Standing(t.world, t.sys.procs[p])
      && SameSides(s.world, t.world)
  {
    LockInvAt(s.sys, c, p, bound);
    PlaceOf(s.sys, p, bound);
    BodyStands(s.world, s.sys.procs[p], !NoneWaiting(s.sys.procs, NreadChan), bound);
    hide LockInv, CpuInv, ProcInv, OpInv, OpAt, Standing, NoneWaiting, Body, SameSides;
  }

  lemma StepStands(s: State, a: Action, bound: nat, q: nat)
    requires LockInv(s.sys, bound) && Enabled(s, a, bound) && q < |s.sys.procs|
    requires forall p :: 0 <= p < |s.sys.procs| ==> Standing(s.world, s.sys.procs[p])
    ensures |Apply(s, a, bound).sys.procs| == |s.sys.procs|
    ensures Standing(Apply(s, a, bound).world, Apply(s, a, bound).sys.procs[q])
  {
    assert ProcInv(s.sys, q, bound);
    PlaceOf(s.sys, q, bound);
    if a.Continue? && Cur(s.sys, a.c).pc == OpBody {
      var p := s.sys.cpus[a.c].cur;
      BodyFor(s, a.c, p, bound);
      if p != q {
        LockInvAt(s.sys, a.c, p, bound);
        OthersAreOutside(s.sys, a.c, p, q, bound);
        HolderAlone(s.sys, a.c, p, q, bound);
        OutsideStands(s.world, Apply(s, a, bound).world, s.sys.procs[q], bound);
      }
    } else if a.Call? && s.sys.cpus[a.c].cur == q {
      hide LockInv, ProcInv, OpAt, Full, Empty;
    } else if Own(s, a, q) && s.sys.procs[q].pc == OpRelease {
      hide LockInv, ProcInv, OpAt, Full, Empty, ReleasePipe;
      ReleaseMoves(s.sys, a.c, q, User);
    } else {
      QuietFor(s, a, q, bound);
      FollowsStands(s.world, Apply(s, a, bound).world, s.sys.procs[q], Apply(s, a, bound).sys.procs[q], bound);
    }
    hide LockInv, ProcInv, OpAt, Standing, Apply, Enabled;
  }

  lemma HolderAlone(y: Sys, c: nat, p: nat, q: nat, bound: nat)
    requires LockInv(y, bound) && Running(y, c) && y.cpus[c].cur == p && HoldsPipe(y.procs[p].pc)
    requires q < |y.procs| && q != p
    ensures !HoldsPipe(y.procs[q].pc)
  {
    LockInvAt(y, c, p, bound);
    assert ProcInv(y, q, bound);
    SectionsAreLocked(y, p, bound);
    SectionsAreLocked(y, q, bound);
    hide LockInv, OpInv;
  }

  // ----- When the page is freed

  /** Closers and closing processes other than those that a step of p touches are so afterwards. */
  ghost predicate OthersClose(s: State, t: State, p: int) {
    && |t.sys.procs| == |s.sys.procs|
    && forall q :: 0 <= q < |s.sys.procs| && q != p && s.sys.procs[q].op.Close? ==>
      t.sys.procs[q].op == s.sys.procs[q].op
  }

  lemma OthersStayClosing(s: State, a: Action, p: nat, bound: nat)
    requires LockInv(s.sys, bound) && Enabled(s, a, bound) && p < |s.sys.procs|
    requires forall q :: 0 <= q < |s.sys.procs| ==> Standing(s.world, s.sys.procs[q])
    requires a.Call? || a.Continue? ==> s.sys.cpus[a.c].cur == p
    ensures OthersClose(s, Apply(s, a, bound), p)
  {
    StepStands(s, a, bound, p);
    forall q | 0 <= q < |s.sys.procs| && q != p && s.sys.procs[q].op.Close?
      ensures Apply(s, a, bound).sys.procs[q].op == s.sys.procs[q].op
    {
      if a.Continue? && Cur(s.sys, a.c).pc == OpBody {
        BodyFor(s, a.c, p, bound);
      } else {
        QuietFor(s, a, q, bound);
      }
    }
    hide LockInv, Standing, Apply, Enabled;
  }

  /** Only a close that has not closed its end yet changes the ends, and none opens one. */
  predicate EndsStep(x: Op, y: Op, w: Pipe, v: Pipe) {
    && (x.Close? ==> y.Close? && y.closed && y.writable == x.writable)
    && (!x.Close? || x.closed ==> v.readopen == w.readopen && v.writeopen == w.writeopen)
    && (!w.readopen ==> !v.readopen) && (!w.writeopen ==> !v.writeopen)
  }

  /** The ends of the pipe after a body step. */
  lemma BodyEnds(s: State, c: nat, p: nat, bound: nat)
    requires LockInv(s.sys, bound) && Enabled(s, Continue(c), bound) && p == s.sys.cpus[c].cur
    requires s.sys.procs[p].pc == OpBody
    ensures var t := Apply(s, Continue(c), bound);
      |t.sys.procs| == |s.sys.procs| && EndsStep(s.sys.procs[p].op, t.sys.procs[p].op, s.world.pipe, t.world.pipe)
  {
    LockInvAt(s.sys, c, p, bound);
    PlaceOf(s.sys, p, bound);
    hide LockInv, CpuInv, ProcInv, NoneWaiting, Full, Empty;
  }

  lemma StepFrees(s: State, a: Action, bound: nat)
    requires LockInv(s.sys, bound) && Enabled(s, a, bound) && CallsInv(s)
    ensures Freeing(Apply(s, a, bound))
  {
    var t := Apply(s, a, bound);
    if !(a.Call? || a.Continue?) {
      FreesQuietly(s, a, bound);
    } else {
      var p := s.sys.cpus[a.c].cur;
      OthersStayClosing(s, a, p, bound);
      LockInvAt(s.sys, a.c, p, bound);
      PlaceOf(s.sys, p, bound);
      if a.Call? {
        FreesAtCall(s, a.c, a.op, bound);
      } else if s.sys.procs[p].pc == OpBody {
        BodyFor(s, a.c, p, bound);
        BodyEnds(s, a.c, p, bound);
        FreesAtBody(s, t, p);
      } else if s.sys.procs[p].pc == OpRelease {
        ReleaseMoves(s.sys, a.c, p, User);
        FreesAtReturn(s, a.c, p, bound);
      } else {
        FreesQuietly(s, a, bound);
      }
    }
    hide LockInv, Apply, Enabled, Freeing, Standing, CpuInv, ProcInv;
  }

  lemma FreesAtBody(s: State, t: State, p: nat)
    requires p < |s.sys.procs| && Freeing(s) && OthersClose(s, t, p) && SameSides(s.world, t.world)
    requires EndsStep(s.sys.procs[p].op, t.sys.procs[p].op, s.world.pipe, t.world.pipe)
    ensures Freeing(t)
  {
    assert s.sys.procs[p].op.Close? ==> Closer(t, p);
    forall q | Closer(s, q)
      ensures Closer(t, q)
    {
    }
    forall q, w | Closing(s, q, w)
      ensures Closing(t, q, w)
    {
    }
  }

  lemma FreesAtCall(s: State, c: nat, op: Op, bound: nat)
    requires Enabled(s, Call(c, op), bound) && Freeing(s) && s.sys.procs[s.sys.cpus[c].cur].op == NoOp
    requires OthersClose(s, Apply(s, Call(c, op), bound), s.sys.cpus[c].cur)
    ensures Freeing(Apply(s, Call(c, op), bound))
  {
    var t, p := Apply(s, Call(c, op), bound), s.sys.cpus[c].cur;
    assert op.Close? ==> Closing(t, p, op.writable);
    forall q | Closer(s, q)
      ensures Closer(t, q)
    {
    }
    forall q, w | Closing(s, q, w)
      ensures Closing(t, q, w)
    {
    }
  }

  lemma FreesAtReturn(s: State, c: nat, p: nat, bound: nat)
    requires Enabled(s, Continue(c), bound) && p == s.sys.cpus[c].cur && s.sys.procs[p].pc == OpRelease
    requires Freeing(s) && Standing(s.world, s.sys.procs[p]) && OthersClose(s, Apply(s, Continue(c), bound), p)
    requires s.sys.procs[p].op.Close? ==> s.sys.procs[p].op.closed
    ensures Freeing(Apply(s, Continue(c), bound))
  {
    hide ReleasePipe, Full, Empty;
    ReleaseMoves(s.sys, c, p, User);
    var t := Apply(s, Continue(c), bound);
    forall q | Closer(s, q) && q != p
      ensures Closer(t, q)
    {
    }
    forall q, w | Closing(s, q, w) && q != p
      ensures Closing(t, q, w)
    {
    }
  }

  lemma FreesQuietly(s: State, a: Action, bound: nat)
    requires LockInv(s.sys, bound) && Enabled(s, a, bound) && Freeing(s) && !a.Call?
    requires a.Continue? ==> Cur(s.sys, a.c).pc != OpBody && Cur(s.sys, a.c).pc != OpRelease
    ensures Freeing(Apply(s, a, bound))
  {
    var t := Apply(s, a, bound);
    if |s.sys.procs| > 0 {
      QuietFor(s, a, 0, bound);
    } else {
      NobodyThere(s, a, bound);
    }
    forall q | Closer(s, q)
      ensures Closer(t, q)
    {
      QuietFor(s, a, q, bound);
    }
    forall q, w | Closing(s, q, w)
      ensures Closing(t, q, w)
    {
      QuietFor(s, a, q, bound);
    }
    hide LockInv, Apply, Enabled, Follows;
  }

  lemma NobodyThere(s: State, a: Action, bound: nat)
    requires Enabled(s, a, bound) && s.sys.procs == []
    ensures Apply(s, a, bound).world == s.world
  {
    hide PushCli, PopCli, PopCliPanics;
  }

  // ----- Runs

  lemma {:induction false} RunInv(states: seq<State>, acts: seq<Action>, bound: nat, i: int)
    requires IsRun(states, acts, bound) && 0 <= i < |states|
    ensures AllInv(states[i], bound) && CallsInv(states[i])
    decreases i
  {
    hide AllInv, CallsInv, Init, Enabled, Apply;
    if i == 0 {
      InitAllInv(states[0], bound);
      InitCalls(states[0]);
    } else {
      RunInv(states, acts, bound, i - 1);
      assert IsStep(states[i - 1], acts[i - 1], bound, states[i - 1 + 1]);
      StepKeepsAllInv(states[i - 1], acts[i - 1], bound);
      StepKeepsCalls(states[i - 1], acts[i - 1], bound);
    }
  }

  lemma StepKeepsCalls(s: State, a: Action, bound: nat)
    requires AllInv(s, bound) && Enabled(s, a, bound) && CallsInv(s)
    ensures CallsInv(Apply(s, a, bound))
  {
    hide LockInv, FifoInv, EndsInv, WakeInv, Apply, Enabled, Standing;
    StepFrees(s, a, bound);
    if |s.sys.procs| > 0 {
      StepStands(s, a, bound, 0);
      forall q | 0 <= q < |s.sys.procs|
        ensures Standing(Apply(s, a, bound).world, Apply(s, a, bound).sys.procs[q])
      {
        StepStands(s, a, bound, q);
      }
    } else {
      NobodyStands(s, a, bound);
    }
    hide Freeing;
  }

  lemma NobodyStands(s: State, a: Action, bound: nat)
    requires Enabled(s, a, bound) && s.sys.procs == []
    ensures Apply(s, a, bound).sys.procs == []
  {
    hide PushCli, PopCli, PopCliPanics;
  }

  lemma RunStep(states: seq<State>, acts: seq<Action>, bound: nat, i: int)
    requires IsRun(states, acts, bound) && 0 <= i < |acts|
    ensures |states| == |acts| + 1 && Enabled(states[i], acts[i], bound) &&
      states[i + 1] == Apply(states[i], acts[i], bound)
    ensures LockInv(states[i].sys, bound) && CallsInv(states[i])
    ensures forall p :: 0 <= p < |states[i].sys.procs| ==> Standing(states[i].world, states[i].sys.procs[p])
  {
    RunInv(states, acts, bound, i);
    assert IsStep(states[i], acts[i], bound, states[i + 1]);
    hide LockInv, Standing, Apply, Enabled;
  }

  // ----- What a write stores

  /** Both logs only grow. */
  ghost predicate LogsGrow(w: World, v: World) {
    w.written <= v.written && w.delivered <= v.delivered
  }

  /** The bytes that the steps from i to j added to the written bytes, those of p's own steps only. */
  ghost function Stored(states: seq<State>, acts: seq<Action>, p: int, i: int, j: int): seq<char>
    requires 0 <= i <= j < |states| && j <= |acts|
    decreases j
  {
    if i == j then []
    else
      Stored(states, acts, p, i, j - 1) + if Own(states[j - 1], acts[j - 1], p) then
        Added(states[j - 1].world.written, states[j].world.written) else []
  }

  /** And those that they took to the delivered bytes. */
  ghost function Fetched(states: seq<State>, acts: seq<Action>, p: int, i: int, j: int): seq<char>
    requires 0 <= i <= j < |states| && j <= |acts|
    decreases j
  {
    if i == j then []
    else
      Fetched(states, acts, p, i, j - 1) + if Own(states[j - 1], acts[j - 1], p) then
        Added(states[j - 1].world.delivered, states[j].world.delivered) else []
  }

  function Added(before: seq<char>, after: seq<char>): seq<char> {
    if |before| <= |after| then after[|before|..] else []
  }

  /** p makes the call op at this step. */
  predicate Enters(s: State, a: Action, p: int, op: Op) {
    a.Call? && a.op == op && Running(s.sys, a.c) && s.sys.cpus[a.c].cur == p
  }

  /** And is in it still, after each of the steps from i to j. */
  ghost predicate InCall(states: seq<State>, p: int, i: int, j: int) {
    forall h :: 0 <= i < h <= j < |states| ==> Has(states[h], p) && states[h].sys.procs[p].op != NoOp
  }

  /** A write's own step stores the next byte of its buffer, or none. */
  lemma WriteBodyStores(s: State, c: nat, p: nat, bound: nat)
    requires LockInv(s.sys, bound) && Enabled(s, Continue(c), bound) && p == s.sys.cpus[c].cur
    requires s.sys.procs[p].pc == OpBody && s.sys.procs[p].op.Write? && Standing(s.world, s.sys.procs[p])
    ensures var x, t := s.sys.procs[p].op, Apply(s, Continue(c), bound);
      && |t.sys.procs| == |s.sys.procs|
      && var y := t.sys.procs[p].op;
      && y.Write? && y.buf == x.buf && x.i <= y.i <= |x.buf|
      && t.world.written == s.world.written + x.buf[x.i..y.i] && t.world.delivered == s.world.delivered
  {
    LockInvAt(s.sys, c, p, bound);
    hide LockInv, CpuInv, ProcInv, NoneWaiting, Full, Store;
  }

  lemma ReadBodyFetches(s: State, c: nat, p: nat, bound: nat)
    requires LockInv(s.sys, bound) && Enabled(s, Continue(c), bound) && p == s.sys.cpus[c].cur
    requires s.sys.procs[p].pc == OpBody && s.sys.procs[p].op.Read?
    ensures var x, t := s.sys.procs[p].op, Apply(s, Continue(c), bound);
      && |t.sys.procs| == |s.sys.procs|
      && var y := t.sys.procs[p].op;
      && y.Read? && y.n == x.n && x.got <= y.got
      && t.world.delivered == s.world.delivered + y.got[|x.got|..] && t.world.written == s.world.written
  {
    LockInvAt(s.sys, c, p, bound);
    hide LockInv, CpuInv, ProcInv, NoneWaiting, Empty, Fetch;
  }

  /** A process in a call: only its own steps move the call on, and only its return ends it. */
  lemma CallMoves(s: State, a: Action, bound: nat, p: nat)
    requires LockInv(s.sys, bound) && Enabled(s, a, bound) && p < |s.sys.procs| && s.sys.procs[p].op != NoOp
    requires forall q :: 0 <= q < |s.sys.procs| ==> Standing(s.world, s.sys.procs[q])
    ensures var x, t := s.sys.procs[p], Apply(s, a, bound);
      && |t.sys.procs| == |s.sys.procs|
      && (!Own(s, a, p) ==> t.sys.procs[p].op == x.op)
      && (Own(s, a, p) && x.pc != OpBody ==>
        t.world.written == s.world.written && t.world.delivered == s.world.delivered)
      && (Own(s, a, p) && x.pc == OpRelease ==> t.sys.procs[p].op == NoOp)
      && (Own(s, a, p) && x.pc != OpBody && x.pc != OpRelease ==>
        t.sys.procs[p].op == x.op || t.sys.procs[p].op == Signalled(x.op))
  {
    assert ProcInv(s.sys, p, bound);
    PlaceOf(s.sys, p, bound);
    StepStands(s, a, bound, p);
    if a.Continue? && Cur(s.sys, a.c).pc == OpBody {
      BodyFor(s, a.c, s.sys.cpus[a.c].cur, bound);
    } else if Own(s, a, p) && s.sys.procs[p].pc == OpRelease {
      ReleaseMoves(s.sys, a.c, p, User);
      hide LockInv, ProcInv, Standing, OpAt, ReleasePipe;
    } else {
      assert a.Call? ==> Cur(s.sys, a.c).pc == User;
      QuietFor(s, a, p, bound);
    }
    hide LockInv, ProcInv, Standing, Apply, Enabled, Follows;
  }

  lemma WriteStep(s: State, a: Action, bound: nat, p: nat)
    requires LockInv(s.sys, bound) && Enabled(s, a, bound) && p < |s.sys.procs| && s.sys.procs[p].op.Write?
    requires forall q :: 0 <= q < |s.sys.procs| ==> Standing(s.world, s.sys.procs[q])
    ensures var x, t := s.sys.procs[p].op, Apply(s, a, bound);
      && |t.sys.procs| == |s.sys.procs|
      && (if t.sys.procs[p].op == NoOp then
          Own(s, a, p) && s.sys.procs[p].pc == OpRelease && t.world.written == s.world.written
        else
          var y := t.sys.procs[p].op;
          && y.Write? && y.buf == x.buf && 0 <= x.i <= y.i <= |x.buf|
          && if Own(s, a, p) then t.world.written == s.world.written + x.buf[x.i..y.i] else y.i == x.i)
  {
    hide LockInv, Standing, Apply, Enabled;
    CallMoves(s, a, bound, p);
    WriteRange(s.world, s.sys.procs[p]);
    var x := s.sys.procs[p].op;
    if Own(s, a, p) && s.sys.procs[p].pc == OpBody {
      WriteBodyStores(s, a.c, p, bound);
    } else if Own(s, a, p) && s.sys.procs[p].pc != OpRelease {
      assert x.buf[x.i..x.i] == [];
    }
  }

  lemma WriteRange(w: World, pr: Proc)
    requires Standing(w, pr) && pr.op.Write?
    ensures 0 <= pr.op.i <= |pr.op.buf|
  {
  }

  /** Over any run: while p is in a write, the bytes that its own steps have stored are the front of its buffer, as
      far as it has come. */
  lemma {:induction false} WriteStoresItsBuffer(states: seq<State>, acts: seq<Action>, bound: nat, i: int, j: int,
      p: nat, buf: seq<char>)
    requires IsRun(states, acts, bound) && 0 <= i < j < |states|
    requires Enters(states[i], acts[i], p, Write(buf, 0, 0)) && InCall(states, p, i, j)
    ensures Has(states[j], p) && states[j].sys.procs[p].op.Write? && states[j].sys.procs[p].op.buf == buf
    ensures 0 <= states[j].sys.procs[p].op.i <= |buf|
    ensures Stored(states, acts, p, i, j) == buf[..states[j].sys.procs[p].op.i]
    decreases j
  {
    hide LockInv, Standing, Apply, Enabled, CallsInv, IsRun, InCall, Added, Stored;
    RunShape(states, acts, bound);
    RunStep(states, acts, bound, j - 1);
    StillInCall(states, p, i, j);
    StoredUnfolds(states, acts, p, i, j);
    if j == i + 1 {
      CallStarts(states[i], acts[i].c, acts[i].op, bound);
    } else {
      WriteStoresItsBuffer(states, acts, bound, i, j - 1, p, buf);
      WriteStep(states[j - 1], acts[j - 1], bound, p);
      var x, y := states[j - 1].sys.procs[p].op, states[j].sys.procs[p].op;
      StoresOn(states[j - 1].world.written, states[j].world.written, Own(states[j - 1], acts[j - 1], p), buf, x.i, y.i);
    }
  }

  lemma RunShape(states: seq<State>, acts: seq<Action>, bound: nat)
    requires IsRun(states, acts, bound)
    ensures |states| == |acts| + 1
  {
  }

  lemma StillInCall(states: seq<State>, p: nat, i: int, j: int)
    requires 0 <= i < j < |states| && InCall(states, p, i, j)
    ensures Has(states[j], p) && states[j].sys.procs[p].op != NoOp && InCall(states, p, i, j - 1)
  {
  }

  lemma StoredUnfolds(states: seq<State>, acts: seq<Action>, p: int, i: int, j: int)
    requires 0 <= i < j < |states| && j <= |acts|
    ensures Stored(states, acts, p, i, j) ==
      Stored(states, acts, p, i, j - 1) + if Own(states[j - 1], acts[j - 1], p) then
        Added(states[j - 1].world.written, states[j].world.written) else []
    ensures Stored(states, acts, p, i, i) == []
  {
  }

  lemma FetchedUnfolds(states: seq<State>, acts: seq<Action>, p: int, i: int, j: int)
    requires 0 <= i < j < |states| && j <= |acts|
    ensures Fetched(states, acts, p, i, j) ==
      Fetched(states, acts, p, i, j - 1) + if Own(states[j - 1], acts[j - 1], p) then
        Added(states[j - 1].world.delivered, states[j].world.delivered) else []
    ensures Fetched(states, acts, p, i, i) == []
  {
  }

  /** The front of buf, and what one step adds to it. */
  lemma StoresOn(before: seq<char>, after: seq<char>, own: bool, buf: seq<char>, i: int, k: int)
    requires 0 <= i <= k <= |buf| && if own then after == before + buf[i..k] else k == i
    ensures buf[..i] + (if own then Added(before, after) else []) == buf[..k]
  {
  }

  lemma CallStarts(s: State, c: nat, op: Op, bound: nat)
    requires Enabled(s, Call(c, op), bound)
    ensures var p, t := s.sys.cpus[c].cur, Apply(s, Call(c, op), bound);
      && Running(s.sys, c) && |t.sys.procs| == |s.sys.procs| && t.sys.procs[p].op == op
      && t.world.written == s.world.written && t.world.delivered == s.world.delivered && t.world.pipe == s.world.pipe
  {
  }

  /** How a write returns: with all of its buffer stored, or else with the pipe full and its read end closed or the
      caller killed, the front of the buffer stored. */
  lemma WriteReturns(states: seq<State>, acts: seq<Action>, bound: nat, i: int, j: int, p: nat, buf: seq<char>)
    requires IsRun(states, acts, bound) && 0 <= i < j < |acts|
    requires Enters(states[i], acts[i], p, Write(buf, 0, 0)) && InCall(states, p, i, j)
    requires Has(states[j + 1], p) && states[j + 1].sys.procs[p].op == NoOp
    ensures var k, s := |Stored(states, acts, p, i, j + 1)|, states[j];
      && Has(s, p) && k <= |buf| && Stored(states, acts, p, i, j + 1) == buf[..k]
      && (k < |buf| ==> Full(s.world.pipe) && (!s.world.pipe.readopen || s.sys.procs[p].killed))
  {
    hide LockInv, Apply, Enabled, CallsInv, Full;
    WriteStoresItsBuffer(states, acts, bound, i, j, p, buf);
    RunStep(states, acts, bound, j);
    assert Standing(states[j].world, states[j].sys.procs[p]);
    WriteStep(states[j], acts[j], bound, p);
  }

  // ----- What a read takes

  lemma ReadStep(s: State, a: Action, bound: nat, p: nat)
    requires LockInv(s.sys, bound) && Enabled(s, a, bound) && p < |s.sys.procs| && s.sys.procs[p].op.Read?
    requires forall q :: 0 <= q < |s.sys.procs| ==> Standing(s.world, s.sys.procs[q])
    ensures var x, t := s.sys.procs[p].op, Apply(s, a, bound);
      && |t.sys.procs| == |s.sys.procs|
      && (if t.sys.procs[p].op == NoOp then
          Own(s, a, p) && s.sys.procs[p].pc == OpRelease && t.world.delivered == s.world.delivered
        else
          var y := t.sys.procs[p].op;
          && y.Read? && y.n == x.n && x.got <= y.got
          && if Own(s, a, p) then t.world.delivered == s.world.delivered + y.got[|x.got|..] else y.got == x.got)
  {
    hide LockInv, Standing, Apply, Enabled;
    CallMoves(s, a, bound, p);
    if Own(s, a, p) && s.sys.procs[p].pc == OpBody {
      ReadBodyFetches(s, a.c, p, bound);
    }
  }

  /** Over any run: what a read has got is what its own steps have taken out of the pipe, in order. */
  lemma {:induction false} ReadGetsWhatItTakes(states: seq<State>, acts: seq<Action>, bound: nat, i: int, j: int,
      p: nat, n: int)
    requires IsRun(states, acts, bound) && 0 <= i < j < |states|
    requires Enters(states[i], acts[i], p, Read(n, [], false)) && InCall(states, p, i, j)
    ensures Has(states[j], p) && states[j].sys.procs[p].op.Read? && states[j].sys.procs[p].op.n == n
    ensures Fetched(states, acts, p, i, j) == states[j].sys.procs[p].op.got
    decreases j
  {
    hide LockInv, Standing, Apply, Enabled, CallsInv, IsRun, InCall, Added, Fetched;
    RunShape(states, acts, bound);
    RunStep(states, acts, bound, j - 1);
    StillInCall(states, p, i, j);
    FetchedUnfolds(states, acts, p, i, j);
    if j == i + 1 {
      CallStarts(states[i], acts[i].c, acts[i].op, bound);
    } else {
      ReadGetsWhatItTakes(states, acts, bound, i, j - 1, p, n);
      ReadStep(states[j - 1], acts[j - 1], bound, p);
      var x, y := states[j - 1].sys.procs[p].op, states[j].sys.procs[p].op;
      StoresOn(states[j - 1].world.delivered, states[j].world.delivered, Own(states[j - 1], acts[j - 1], p), y.got,
        |x.got|, |y.got|);
      assert y.got[..|x.got|] == x.got && y.got[..|y.got|] == y.got;
    }
  }

  /** How a read returns. It has got at most n bytes, and fewer only if the pipe has no more; none, of a read for
      some, only if the write end is closed; or it returns -1, having taken nothing, from an empty pipe, and only if
      killed. */
  lemma ReadReturns(states: seq<State>, acts: seq<Action>, bound: nat, i: int, j: int, p: nat, n: int)
    requires IsRun(states, acts, bound) && 0 <= i < j < |acts|
    requires Enters(states[i], acts[i], p, Read(n, [], false)) && InCall(states, p, i, j)
    requires Has(states[j + 1], p) && states[j + 1].sys.procs[p].op == NoOp
    ensures Has(states[j], p)
    ensures var x, w := states[j].sys.procs[p], states[j].world;
      && x.op.Read? && Fetched(states, acts, p, i, j + 1) == x.op.got && (n > 0 ==> |x.op.got| <= n)
      && (n <= 0 ==> x.op.got == [])
      && if x.op.copying then
          (|x.op.got| < n ==> Empty(w.pipe)) && (x.op.got == [] && n > 0 ==> !w.pipe.writeopen)
        else x.op.got == [] && Empty(w.pipe) && w.pipe.writeopen && x.killed
  {
    hide LockInv, Apply, Enabled, CallsInv, Empty;
    ReadGetsWhatItTakes(states, acts, bound, i, j, p, n);
    RunStep(states, acts, bound, j);
    assert Standing(states[j].world, states[j].sys.procs[p]);
    ReadStep(states[j], acts[j], bound, p);
    NotCopying(states[j].sys, p, bound);
  }

  lemma NotCopying(y: Sys, p: nat, bound: nat)
    requires LockInv(y, bound) && p < |y.procs| && y.procs[p].op.Read?
    ensures !y.procs[p].op.copying ==> y.procs[p].op.got == []
  {
    assert ProcInv(y, p, bound);
    PlaceOf(y, p, bound);
    hide LockInv, ProcInv;
  }

  // ----- What a close leaves

  /** In every state of every run: once both ends have been given up and no close is under way, the page is free; and
      it is free only then. */
  lemma PageFreedIff(states: seq<State>, acts: seq<Action>, bound: nat, i: int)
    requires IsRun(states, acts, bound) && 0 <= i < |states|
    requires forall p :: 0 <= p < |states[i].sys.procs| ==> !states[i].sys.procs[p].op.Close?
    ensures states[i].world.freed <==> states[i].world.readerGone && states[i].world.writerGone
    ensures states[i].world.writerGone <==> !states[i].world.pipe.writeopen
    ensures states[i].world.readerGone <==> !states[i].world.pipe.readopen
  {
    RunInv(states, acts, bound, i);
    hide LockInv, FifoInv, WakeInv, Standing, Init;
  }

  // ----- One writer

  /** What p has still to store. */
  function Rest(s: State, p: int): seq<char>
    requires Has(s, p)
  {
    var op := s.sys.procs[p].op;
    if op.Write? && 0 <= op.i <= |op.buf| then op.buf[op.i..] else []
  }

  /** The buffer that a step hands to pipewrite. */
  function Handed(a: Action): seq<char> {
    if a.Call? && a.op.Write? then a.op.buf else []
  }

  /** All the buffers that the steps before j have handed to pipewrite, in the order of the calls. */
  function Sent(acts: seq<Action>, j: int): seq<char>
    requires 0 <= j <= |acts|
    decreases j
  {
    if j == 0 then [] else Sent(acts, j - 1) + Handed(acts[j - 1])
  }

  ghost predicate OnlyWriter(s: State, p: int) {
    forall q :: 0 <= q < |s.sys.procs| && q != p ==> !s.sys.procs[q].op.Write?
  }

  lemma CloseBodyStill(s: State, c: nat, p: nat, bound: nat)
    requires LockInv(s.sys, bound) && Enabled(s, Continue(c), bound) && p == s.sys.cpus[c].cur
    requires s.sys.procs[p].pc == OpBody && !s.sys.procs[p].op.Write? && !s.sys.procs[p].op.Read?
    ensures var t := Apply(s, Continue(c), bound);
      |t.sys.procs| == |s.sys.procs| && !t.sys.procs[p].op.Write? && t.world.written == s.world.written
  {
    LockInvAt(s.sys, c, p, bound);
    PlaceOf(s.sys, p, bound);
    hide LockInv, CpuInv, ProcInv, NoneWaiting;
  }

  /** Who writes is decided at the call. */
  lemma WritersStay(s: State, a: Action, bound: nat, q: nat)
    requires LockInv(s.sys, bound) && Enabled(s, a, bound) && q < |s.sys.procs| && !s.sys.procs[q].op.Write?
    requires forall p :: 0 <= p < |s.sys.procs| ==> Standing(s.world, s.sys.procs[p])
    requires !(a.Call? && a.op.Write? && Running(s.sys, a.c) && s.sys.cpus[a.c].cur == q)
    ensures |Apply(s, a, bound).sys.procs| == |s.sys.procs| && !Apply(s, a, bound).sys.procs[q].op.Write?
  {
    if a.Continue? && Cur(s.sys, a.c).pc == OpBody {
      var p := s.sys.cpus[a.c].cur;
      BodyFor(s, a.c, p, bound);
      if p == q {
        if s.sys.procs[q].op.Read? {
          ReadBodyFetches(s, a.c, q, bound);
        } else {
          CloseBodyStill(s, a.c, q, bound);
        }
      }
    } else if a.Call? && s.sys.cpus[a.c].cur == q {
      CallStarts(s, a.c, a.op, bound);
    } else if Own(s, a, q) && s.sys.procs[q].pc == OpRelease {
      ReleaseMoves(s.sys, a.c, q, User);
      hide LockInv, Standing, ReleasePipe;
    } else {
      QuietFor(s, a, q, bound);
    }
    hide LockInv, Standing, Apply, Enabled, Follows;
  }

  /** A step of the one writer's machine: what it has to store and what has been written make up what it was handed. */
  lemma OneWriterStep(s: State, a: Action, bound: nat, p: nat)
    requires LockInv(s.sys, bound) && Enabled(s, a, bound) && p < |s.sys.procs| && OnlyWriter(s, p)
    requires forall q :: 0 <= q < |s.sys.procs| ==> Standing(s.world, s.sys.procs[q])
    requires a.Call? && a.op.Write? ==> Running(s.sys, a.c) && s.sys.cpus[a.c].cur == p
    requires s.world.pipe.readopen && !s.sys.procs[p].killed
    ensures var t := Apply(s, a, bound);
      && Has(t, p) && OnlyWriter(t, p) && |t.sys.procs| == |s.sys.procs|
      && t.world.written + Rest(t, p) == s.world.written + Rest(s, p) + Handed(a)
  {
    var t := Apply(s, a, bound);
    StepStands(s, a, bound, p);
    forall q | 0 <= q < |s.sys.procs| && q != p
      ensures !t.sys.procs[q].op.Write?
    {
      WritersStay(s, a, bound, q);
    }
    if s.sys.procs[p].op.Write? {
      OneWriterWrites(s, a, bound, p);
    } else {
      if !(a.Call? && a.op.Write?) {
        WritersStay(s, a, bound, p);
      } else {
        CallStarts(s, a.c, a.op, bound);
        assert Rest(t, p) == a.op.buf;
      }
      WrittenStays(s, a, bound);
    }
    hide LockInv, Standing, Apply, Enabled;
  }

  lemma WrittenStays(s: State, a: Action, bound: nat)
    requires LockInv(s.sys, bound) && Enabled(s, a, bound) && |s.sys.procs| > 0
    requires forall q :: 0 <= q < |s.sys.procs| ==> !s.sys.procs[q].op.Write?
    ensures Apply(s, a, bound).world.written == s.world.written
  {
    if a.Continue? && Cur(s.sys, a.c).pc == OpBody {
      var q := s.sys.cpus[a.c].cur;
      if s.sys.procs[q].op.Read? {
        ReadBodyFetches(s, a.c, q, bound);
      } else {
        CloseBodyStill(s, a.c, q, bound);
      }
    } else if a.Call? {
      CallStarts(s, a.c, a.op, bound);
    } else if a.Continue? && Cur(s.sys, a.c).pc == OpRelease {
      hide LockInv, ReleasePipe;
    } else {
      QuietFor(s, a, 0, bound);
    }
    hide LockInv, Apply, Enabled, Follows;
  }

  lemma OneWriterWrites(s: State, a: Action, bound: nat, p: nat)
    requires LockInv(s.sys, bound) && Enabled(s, a, bound) && p < |s.sys.procs| && s.sys.procs[p].op.Write?
    requires OnlyWriter(s, p) && forall q :: 0 <= q < |s.sys.procs| ==> Standing(s.world, s.sys.procs[q])
    requires a.Call? && a.op.Write? ==> s.sys.cpus[a.c].cur == p
    requires s.world.pipe.readopen && !s.sys.procs[p].killed
    ensures var t := Apply(s, a, bound);
      |t.sys.procs| == |s.sys.procs| && t.world.written + Rest(t, p) == s.world.written + Rest(s, p) + Handed(a)
  {
    hide LockInv, Standing, Apply, Enabled, OnlyWriter;
    var t, x := Apply(s, a, bound), s.sys.procs[p].op;
    WriteStep(s, a, bound, p);
    WriteRange(s.world, s.sys.procs[p]);
    ReturnsWhole(s, p, bound);
    UserIsNoOp(s, a, bound, p);
    if t.sys.procs[p].op == NoOp {
      assert Rest(s, p) == [];
    } else if Own(s, a, p) {
      var y := t.sys.procs[p].op;
      assert x.buf[x.i..y.i] + y.buf[y.i..] == x.buf[x.i..];
    } else {
      OthersWriteNothing(s, a, bound, p);
    }
  }

  lemma ReturnsWhole(s: State, p: nat, bound: nat)
    requires p < |s.sys.procs| && s.sys.procs[p].op.Write? && Standing(s.world, s.sys.procs[p])
    requires s.world.pipe.readopen && !s.sys.procs[p].killed
    ensures s.sys.procs[p].pc == OpRelease ==> s.sys.procs[p].op.i == |s.sys.procs[p].op.buf|
  {
  }

  /** A process in a call makes no other. */
  lemma UserIsNoOp(s: State, a: Action, bound: nat, p: nat)
    requires LockInv(s.sys, bound) && Enabled(s, a, bound) && p < |s.sys.procs| && s.sys.procs[p].op != NoOp
    ensures a.Call? ==> s.sys.cpus[a.c].cur != p
  {
    assert ProcInv(s.sys, p, bound);
    PlaceOf(s.sys, p, bound);
    hide LockInv, ProcInv;
  }

  lemma OthersWriteNothing(s: State, a: Action, bound: nat, p: nat)
    requires LockInv(s.sys, bound) && Enabled(s, a, bound) && p < |s.sys.procs| && OnlyWriter(s, p) && !Own(s, a, p)
    requires s.sys.procs[p].op != NoOp
    ensures Apply(s, a, bound).world.written == s.world.written
  {
    if a.Continue? && Cur(s.sys, a.c).pc == OpBody {
      var q := s.sys.cpus[a.c].cur;
      if s.sys.procs[q].op.Read? {
        ReadBodyFetches(s, a.c, q, bound);
      } else {
        CloseBodyStill(s, a.c, q, bound);
      }
    } else {
      UserIsNoOp(s, a, bound, p);
      QuietFor(s, a, p, bound);
    }
    hide LockInv, Apply, Enabled, Follows;
  }

  /** One writer whose writes do not fail: what is delivered is the front of what it was given, call after call, and
      all of it has been stored whenever the writer is not in a call. */
  lemma {:induction false} OneWriter(states: seq<State>, acts: seq<Action>, bound: nat, p: nat, j: int)
    requires IsRun(states, acts, bound) && 0 <= j < |states|
    requires forall h :: 0 <= h < j && acts[h].Call? && acts[h].op.Write? ==>
      Running(states[h].sys, acts[h].c) && states[h].sys.cpus[acts[h].c].cur == p
    requires forall h :: 0 <= h <= j ==>
      Has(states[h], p) && states[h].world.pipe.readopen && !states[h].sys.procs[p].killed
    ensures OnlyWriter(states[j], p) && states[j].world.written + Rest(states[j], p) == Sent(acts, j)
    ensures states[j].world.delivered <= states[j].world.written <= Sent(acts, j)
    decreases j
  {
    hide LockInv, Standing, Apply, Enabled, CallsInv, WakeInv, EndsInv;
    RunInv(states, acts, bound, j);
    assert BytesKept(states[j].world);
    if j == 0 {
      StartsEmpty(states[0], p);
    } else {
      OneWriter(states, acts, bound, p, j - 1);
      RunStep(states, acts, bound, j - 1);
      OneWriterStep(states[j - 1], acts[j - 1], bound, p);
    }
    hide IsRun, OnlyWriter;
  }

  lemma StartsEmpty(s: State, p: nat)
    requires Init(s) && Has(s, p)
    ensures OnlyWriter(s, p) && s.world.written == [] && Rest(s, p) == []
  {
  }

  // ----- kill

  /** kill's scan marks the victim and makes it runnable if it sleeps; it changes nobody else. */
  lemma KillDoes(s: State, c: nat, bound: nat, q: nat)
    requires Enabled(s, Continue(c), bound) && Cur(s.sys, c).pc.KillScan? && q < |s.sys.procs|
    requires s.sys.cpus[c].cur != q
    ensures var x, t := s.sys.procs[q], Apply(s, Continue(c), bound);
      && |t.sys.procs| == |s.sys.procs| && t.world == s.world
      && if q == Cur(s.sys, c).pc.victim then
          && t.sys.procs[q].killed && t.sys.procs[q].state == (if x.state == SLEEPING then RUNNABLE else x.state)
          && t.sys.procs[q].op == x.op && t.sys.procs[q].pc == x.pc && t.sys.procs[q].chan == x.chan
        else t.sys.procs[q] == x
  {
  }

  /** wakeup's scan makes exactly the sleepers on the call's channel runnable: the readers' for a write and for the
      close of the write end, the writers' for the others. */
  lemma WakeupDoes(s: State, c: nat, bound: nat, q: nat)
    requires Enabled(s, Continue(c), bound) && Cur(s.sys, c).pc.WakeScan? && q < |s.sys.procs|
    requires s.sys.cpus[c].cur != q && Cur(s.sys, c).op != NoOp
    ensures var x, op, t := s.sys.procs[q], Cur(s.sys, c).op, Apply(s, Continue(c), bound);
      var chan := if op.Write? || (op.Close? && op.writable) then NreadChan else NwriteChan;
      && |t.sys.procs| == |s.sys.procs|
      && t.sys.procs[q] == if x.state == SLEEPING && x.chan == chan then
          Proc(RUNNABLE, x.chan, x.killed, x.pc, x.saved, x.op, x.intena, x.on) else x
  {
  }
}
