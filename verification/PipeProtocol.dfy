/** Processes, CPUs, the scheduler, sleep/wakeup and the three pipe calls as one machine of micro-steps (spinlock.c,
    proc.c, pipe.c). Every acquire, release, table scan, state change and byte copy is a step of its own, and the steps
    of different CPUs interleave freely. */
module PipeProtocol {
  import opened PipeRing

  /** A spin lock remembers the CPU that holds it. */
  datatype Lock = Free | HeldBy(cpu: int)

  datatype ProcState = SLEEPING | RUNNABLE | RUNNING

  /** Sleep channels: the addresses &p->nread and &p->nwrite, or none. */
  datatype Chan = NoChan | NreadChan | NwriteChan

  /** The call a process is in, with its local variables. unsignalled counts the
      bytes stored since the last wakeup of the readers; it is a proof variable. */
  datatype Op =
    | NoOp
    | Write(buf: seq<char>, i: int, unsignalled: int)
    | Read(n: int, got: seq<char>, copying: bool)
    | Close(writable: bool, closed: bool, last: bool)

  datatype Pc =
    | User
    | ForkRet
    | OpAcquire | OpBody | OpRelease
    | WakeAcquire(full: bool) | WakeScan(full: bool) | WakeRelease(full: bool)
    | SleepAcquire | SleepRelease | SleepSet | SleepSched | SleepWoken | SleepPtRelease | SleepReacquire
    | KillAcquire(victim: int) | KillScan(victim: int) | KillRelease
    | YieldAcquire | YieldSet | YieldSched | YieldBack

  /** One process. on is the CPU it runs on, or -1; saved is where a timer
      interrupt found it; intena is sched's local copy of cpu->intena. */
  datatype Proc = Proc(state: ProcState, chan: Chan, killed: bool, pc: Pc, saved: Pc, op: Op, intena: bool, on: int)

  datatype SchedPc = SchedAcquire | SchedLoop

  /** One CPU: its cli depth, whether interrupts were on before the first cli,
      the interrupt flag, the current process or -1, and the scheduler's position. */
  datatype Cpu = Cpu(ncli: int, intena: bool, ifl: bool, cur: int, sched: SchedPc)

  /** What the locks and the scheduler work on. */
  datatype Sys = Sys(procs: seq<Proc>, cpus: seq<Cpu>, pipeLock: Lock, ptLock: Lock, panicked: bool)

  /** The pipe, which of its ends file.c has begun to close, and whether its page is
      freed. written and delivered record every byte stored and fetched. abandoned says
      that a writer has left a full pipe without waking a waiting reader, and no
      wakeup of the readers has happened since. The last three are no kernel state. */
  datatype World = World(pipe: Pipe, readerGone: bool, writerGone: bool, freed: bool,
                         written: seq<char>, delivered: seq<char>, abandoned: bool)

  datatype State = State(sys: Sys, world: World)

  /** What the environment may choose: which CPU moves, which runnable process its
      scheduler picks, which call a user process makes, when the timer fires. */
  datatype Action =
    | SchedTake(c: nat) | SchedPick(c: nat, p: nat) | SchedDrop(c: nat)
    | Call(c: nat, op: Op) | CallKill(c: nat, victim: int) | Timer(c: nat)
    | Continue(c: nat)

  // ----- spinlock.c

  /** pushcli: interrupts off, nesting counted. */
  function PushCli(cpu: Cpu): Cpu {
    Cpu(cpu.ncli + 1, if cpu.ncli == 0 then cpu.ifl else cpu.intena, false, cpu.cur, cpu.sched)
  }

  /** The two panics of popcli. */
  predicate PopCliPanics(cpu: Cpu) {
    cpu.ifl || cpu.ncli - 1 < 0
  }

  function PopCli(cpu: Cpu): Cpu {
    Cpu(cpu.ncli - 1, cpu.intena, cpu.ncli - 1 == 0 && cpu.intena, cpu.cur, cpu.sched)
  }

  predicate InRange(y: Sys, c: int, p: int) {
    0 <= c < |y.cpus| && 0 <= p < |y.procs|
  }

  function At(pr: Proc, pc: Pc): Proc {
    pr.(pc := pc)
  }

  /** acquire(&p->lock) by process p on CPU c, going on at next. */
  function AcquirePipe(y: Sys, c: nat, p: nat, next: Pc): Sys
    requires InRange(y, c, p)
  {
    if y.pipeLock == HeldBy(c) then y.(panicked := true)
    else Sys(y.procs[p := At(y.procs[p], next)], y.cpus[c := PushCli(y.cpus[c])], HeldBy(c), y.ptLock, y.panicked)
  }

  function AcquirePt(y: Sys, c: nat, p: nat, next: Pc): Sys
    requires InRange(y, c, p)
  {
    if y.ptLock == HeldBy(c) then y.(panicked := true)
    else Sys(y.procs[p := At(y.procs[p], next)], y.cpus[c := PushCli(y.cpus[c])], y.pipeLock, HeldBy(c), y.panicked)
  }

  function ReleasePipe(y: Sys, c: nat, p: nat, next: Pc): Sys
    requires InRange(y, c, p)
  {
    if y.pipeLock != HeldBy(c) || PopCliPanics(y.cpus[c]) then y.(panicked := true)
    else Sys(y.procs[p := At(y.procs[p], next)], y.cpus[c := PopCli(y.cpus[c])], Free, y.ptLock, y.panicked)
  }

  function ReleasePt(y: Sys, c: nat, p: nat, next: Pc): Sys
    requires InRange(y, c, p)
  {
    if y.ptLock != HeldBy(c) || PopCliPanics(y.cpus[c]) then y.(panicked := true)
    else Sys(y.procs[p := At(y.procs[p], next)], y.cpus[c := PopCli(y.cpus[c])], y.pipeLock, Free, y.panicked)
  }

  // ----- proc.c

  function SetProc(y: Sys, p: nat, pr: Proc): Sys
    requires p < |y.procs|
  {
    y.(procs := y.procs[p := pr])
  }

  /** wakeup1's effect on one table entry. */
  function Woken(pr: Proc, chan: Chan): Proc {
    if pr.state == SLEEPING && pr.chan == chan then pr.(state := RUNNABLE) else pr
  }

  /** wakeup1: the scan of the whole table, under ptable.lock. */
  function Wakeup1(procs: seq<Proc>, chan: Chan): (r: seq<Proc>)
    ensures |r| == |procs|
    ensures forall p :: 0 <= p < |procs| ==> r[p] == Woken(procs[p], chan)
  {
    seq(|procs|, p requires 0 <= p < |procs| => Woken(procs[p], chan))
  }

  /** sched: check what must hold, then swtch to this CPU's scheduler. */
  function Sched(y: Sys, c: nat, p: nat, back: Pc): Sys
    requires InRange(y, c, p)
  {
    if y.ptLock != HeldBy(c) || y.cpus[c].ncli != 1 || y.procs[p].state == RUNNING ||
      y.cpus[c].ifl then y.(panicked := true)
    else
      var pr, k := y.procs[p], y.cpus[c];
      Sys(y.procs[p := Proc(pr.state, pr.chan, pr.killed, back, pr.saved, pr.op, k.intena, -1)],
          y.cpus[c := Cpu(k.ncli, k.intena, k.ifl, -1, SchedLoop)], y.pipeLock, y.ptLock, y.panicked)
  }

  /** The scheduler runs p: RUNNING, then swtch into p, which restores its intena unless it is new. */
  function Dispatch(y: Sys, c: nat, p: nat): Sys
    requires InRange(y, c, p)
  {
    var pr, k := y.procs[p], y.cpus[c];
    Sys(y.procs[p := Proc(RUNNING, pr.chan, pr.killed, pr.pc, pr.saved, pr.op, pr.intena, c)],
        y.cpus[c := Cpu(k.ncli, if pr.pc == ForkRet then k.intena else pr.intena, k.ifl, p, k.sched)],
        y.pipeLock, y.ptLock, y.panicked)
  }

  /** The scheduler between processes: sti and acquire, or release and start over. */
  function EnterScheduler(y: Sys, c: nat): Sys
    requires c < |y.cpus|
  {
    var k := y.cpus[c].(ifl := true);
    if y.ptLock == HeldBy(c) then y.(panicked := true)
    else Sys(y.procs, y.cpus[c := PushCli(k).(sched := SchedLoop)], y.pipeLock, HeldBy(c), y.panicked)
  }

  function LeaveScheduler(y: Sys, c: nat): Sys
    requires c < |y.cpus|
  {
    if y.ptLock != HeldBy(c) || PopCliPanics(y.cpus[c]) then y.(panicked := true)
    else Sys(y.procs, y.cpus[c := PopCli(y.cpus[c]).(sched := SchedAcquire)], y.pipeLock, Free, y.panicked)
  }

  /** kill: mark the victim and make it runnable if it sleeps. */
  function Killed(procs: seq<Proc>, victim: int): (r: seq<Proc>)
    ensures |r| == |procs|
  {
    if 0 <= victim < |procs| then
      var v := procs[victim];
      procs[victim := v.(killed := true, state := if v.state == SLEEPING then RUNNABLE else v.state)]
    else procs
  }

  /** The timer interrupts p: interrupts go off and yield begins; yield's return turns them on again. */
  function Interrupt(y: Sys, c: nat, p: nat): Sys
    requires InRange(y, c, p)
  {
    var pr := y.procs[p];
    Sys(y.procs[p := pr.(saved := pr.pc, pc := YieldAcquire)], y.cpus[c := y.cpus[c].(ifl := false)], y.pipeLock,
      y.ptLock, y.panicked)
  }

  function EndInterrupt(y: Sys, c: nat, p: nat): Sys
    requires InRange(y, c, p)
  {
    if y.ptLock != HeldBy(c) || PopCliPanics(y.cpus[c]) then y.(panicked := true)
    else
      Sys(y.procs[p := At(y.procs[p], y.procs[p].saved)], y.cpus[c := PopCli(y.cpus[c]).(ifl := true)], y.pipeLock,
        Free, y.panicked)
  }

  // ----- pipe.c

  /** The channel an operation wakes when it is done or must wait. */
  function WakeChan(op: Op): Chan {
    match op
    case NoOp => NoChan
    case Write(_, _, _) => NreadChan
    case Read(_, _, _) => NwriteChan
    case Close(writable, _, _) => if writable then NreadChan else NwriteChan
  }

  function SleepChan(op: Op): Chan {
    match op
    case Write(_, _, _) => NwriteChan
    case Read(_, _, _) => NreadChan
    case _ => NoChan
  }

  /** A process is asleep on chan, or has already given up the pipe lock on its way to sleep there. */
  predicate Waiting(pr: Proc, chan: Chan) {
    (pr.state == SLEEPING && pr.chan == chan) || (pr.pc == SleepSet && SleepChan(pr.op) == chan)
  }

  predicate NoneWaiting(procs: seq<Proc>, chan: Chan) {
    forall p :: 0 <= p < |procs| ==> !Waiting(procs[p], chan)
  }

  /** What one step of a call's body leaves: its locals, where it goes on, and the pipe. */
  datatype Outcome = Outcome(op: Op, pc: Pc, world: World)

  /** One pass of pipewrite's loops: leave, ask for room, store one byte, or finish. */
  function WriteBody(w: World, op: Op, killed: bool, readerWaits: bool): Outcome
    requires op.Write? && 0 <= op.i && |w.pipe.data| > 0
  {
    if op.i >= |op.buf| then Outcome(op, WakeAcquire(false), w)
    else if Full(w.pipe) then
      if !w.pipe.readopen || killed then Outcome(op, OpRelease, w.(abandoned := w.abandoned || readerWaits))
      else Outcome(op, WakeAcquire(true), w)
    else
      Outcome(Write(op.buf, op.i + 1, op.unsignalled + 1), OpBody,
              w.(pipe := Store(w.pipe, op.buf[op.i]), written := w.written + [op.buf[op.i]]))
  }

  /** One pass of piperead's loops: leave, sleep, start copying, copy one byte, or finish. */
  function ReadBody(w: World, op: Op, killed: bool): Outcome
    requires op.Read? && |w.pipe.data| > 0
  {
    if !op.copying then
      if Empty(w.pipe) && w.pipe.writeopen then Outcome(op, if killed then OpRelease else SleepAcquire, w)
      else Outcome(Read(op.n, op.got, true), OpBody, w)
    else if |op.got| < op.n && !Empty(w.pipe) then
      var (b, q) := Fetch(w.pipe);
      Outcome(Read(op.n, op.got + [b], true), OpBody, w.(pipe := q, delivered := w.delivered + [b]))
    else Outcome(op, WakeAcquire(false), w)
  }

  /** pipeclose: drop one end and wake the other side; the second closer will free the page. */
  function CloseBody(w: World, op: Op): Outcome
    requires op.Close?
  {
    if !op.closed then
      Outcome(Close(op.writable, true, op.last), WakeAcquire(false),
              w.(pipe := if op.writable then w.pipe.(writeopen := false) else w.pipe.(readopen := false)))
    else
      Outcome(Close(op.writable, true, !w.pipe.readopen && !w.pipe.writeopen), OpRelease, w)
  }

  function Body(w: World, pr: Proc, readerWaits: bool): Outcome
    requires |w.pipe.data| > 0
  {
    match pr.op
    case Write(_, i, _) => if i < 0 then Outcome(pr.op, pr.pc, w) else WriteBody(w, pr.op, pr.killed, readerWaits)
    case Read(_, _, _) => ReadBody(w, pr.op, pr.killed)
    case Close(_, _, _) => CloseBody(w, pr.op)
    case NoOp => Outcome(pr.op, pr.pc, w)
  }

  /** After a scan for the readers nothing is owed to them. */
  function Signalled(op: Op): Op {
    if op.Write? then Write(op.buf, op.i, 0) else op
  }

  function AfterWake(op: Op, full: bool): Pc {
    if op.Write? && full then SleepAcquire
    else if op.Close? then OpBody
    else OpRelease
  }

  function BodyStep(s: State, p: nat): State
    requires p < |s.sys.procs| && |s.world.pipe.data| > 0
  {
    var pr := s.sys.procs[p];
    var o := Body(s.world, pr, !NoneWaiting(s.sys.procs, NreadChan));
    State(SetProc(s.sys, p, pr.(op := o.op, pc := o.pc)), o.world)
  }

  /** wakeup1 on the operation's channel, inside wakeup. */
  function ScanStep(s: State, p: nat, full: bool): State
    requires p < |s.sys.procs|
  {
    var pr := s.sys.procs[p];
    var chan := WakeChan(pr.op);
    var y := s.sys.(procs := Wakeup1(s.sys.procs, chan));
    State(SetProc(y, p, pr.(op := Signalled(pr.op), pc := WakeRelease(full))),
          s.world.(abandoned := s.world.abandoned && chan != NreadChan))
  }

  function KillStep(s: State, p: nat, victim: int): State
    requires p < |s.sys.procs|
  {
    var procs := Killed(s.sys.procs, victim);
    s.(sys := SetProc(s.sys.(procs := procs), p, At(procs[p], KillRelease)))
  }

  /** Leave the call; the last closer frees the page after its release. */
  function ReturnStep(s: State, c: nat, p: nat): State
    requires InRange(s.sys, c, p)
  {
    var y := ReleasePipe(s.sys, c, p, User);
    var op := s.sys.procs[p].op;
    State(SetProc(y, p, y.procs[p].(op := NoOp)), s.world.(freed := s.world.freed || (op.Close? && op.last)))
  }

  /** The next step of the process p running on CPU c. */
  function Advance(s: State, c: nat, p: nat): State
    requires InRange(s.sys, c, p) && |s.world.pipe.data| > 0
  {
    var pr := s.sys.procs[p];
    match pr.pc
    case User => s
    case ForkRet => s.(sys := ReleasePt(s.sys, c, p, User))
    case OpAcquire => s.(sys := AcquirePipe(s.sys, c, p, OpBody))
    case OpBody => BodyStep(s, p)
    case OpRelease => ReturnStep(s, c, p)
    case WakeAcquire(full) => s.(sys := AcquirePt(s.sys, c, p, WakeScan(full)))
    case WakeScan(full) => ScanStep(s, p, full)
    case WakeRelease(full) => s.(sys := ReleasePt(s.sys, c, p, AfterWake(pr.op, full)))
    case SleepAcquire => s.(sys := AcquirePt(s.sys, c, p, SleepRelease))
    case SleepRelease => s.(sys := ReleasePipe(s.sys, c, p, SleepSet))
    case SleepSet => s.(sys := SetProc(s.sys, p, pr.(chan := SleepChan(pr.op), state := SLEEPING, pc := SleepSched)))
    case SleepSched => s.(sys := Sched(s.sys, c, p, SleepWoken))
    case SleepWoken => s.(sys := SetProc(s.sys, p, pr.(chan := NoChan, pc := SleepPtRelease)))
    case SleepPtRelease => s.(sys := ReleasePt(s.sys, c, p, SleepReacquire))
    case SleepReacquire => s.(sys := AcquirePipe(s.sys, c, p, OpBody))
    case KillAcquire(v) => s.(sys := AcquirePt(s.sys, c, p, KillScan(v)))
    case KillScan(v) => KillStep(s, p, v)
    case KillRelease => s.(sys := ReleasePt(s.sys, c, p, User))
    case YieldAcquire => s.(sys := AcquirePt(s.sys, c, p, YieldSet))
    case YieldSet => s.(sys := SetProc(s.sys, p, pr.(state := RUNNABLE, pc := YieldSched)))
    case YieldSched => s.(sys := Sched(s.sys, c, p, YieldBack))
    case YieldBack => s.(sys := EndInterrupt(s.sys, c, p))
  }

  predicate WantsPipe(pc: Pc) {
    pc == OpAcquire || pc == SleepReacquire
  }

  predicate WantsPt(pc: Pc) {
    pc.WakeAcquire? || pc == SleepAcquire || pc.KillAcquire? || pc == YieldAcquire
  }

  /** Control points, yield's own apart, at which a process holds neither lock. */
  predicate Unlocked(pc: Pc) {
    pc == User || pc == OpAcquire || pc == SleepReacquire || pc.KillAcquire?
  }

  predicate Running(y: Sys, c: int) {
    0 <= c < |y.cpus| && 0 <= y.cpus[c].cur < |y.procs|
  }

  function Cur(y: Sys, c: int): Proc
    requires Running(y, c)
  {
    y.procs[y.cpus[c].cur]
  }

  predicate Idle(y: Sys, c: int, at: SchedPc) {
    0 <= c < |y.cpus| && y.cpus[c].cur < 0 && y.cpus[c].sched == at
  }

  predicate NoneWriting(procs: seq<Proc>) {
    forall p :: 0 <= p < |procs| ==> !procs[p].op.Write?
  }

  predicate NoneReading(procs: seq<Proc>) {
    forall p :: 0 <= p < |procs| ==> !procs[p].op.Read?
  }

  /** The calls user code may make, with file.c's reference count as the guard: an
      end is closed once, and only when no call on that end is in progress. */
  predicate MayCall(s: State, pr: Proc, op: Op, bound: nat) {
    match op
    case NoOp => false
    case Write(buf, i, u) => !pr.killed && i == 0 && u == 0 && |buf| <= bound && !s.world.writerGone
    case Read(_, got, copying) => !pr.killed && got == [] && !copying && !s.world.readerGone
    case Close(writable, closed, last) =>
      && !closed && !last
      && (if writable then !s.world.writerGone && NoneWriting(s.sys.procs)
        else !s.world.readerGone && NoneReading(s.sys.procs))
  }

  function CallStep(s: State, p: nat, op: Op): State
    requires p < |s.sys.procs|
  {
    State(SetProc(s.sys, p, s.sys.procs[p].(op := op, pc := OpAcquire)),
          s.world.(writerGone := s.world.writerGone || (op.Close? && op.writable),
                   readerGone := s.world.readerGone || (op.Close? && !op.writable)))
  }

  /** When an action can happen; a lock that another CPU holds makes acquire spin, which is no step. */
  predicate Enabled(s: State, a: Action, bound: nat) {
    var y := s.sys;
    && |s.world.pipe.data| > 0
    && !y.panicked
    && match a
      case SchedTake(c) => Idle(y, c, SchedAcquire) && (y.ptLock == Free || y.ptLock == HeldBy(c))
      case SchedPick(c, p) => Idle(y, c, SchedLoop) && p < |y.procs| && y.procs[p].state == RUNNABLE
      case SchedDrop(c) => Idle(y, c, SchedLoop)
      case Call(c, op) => Running(y, c) && Cur(y, c).pc == User && MayCall(s, Cur(y, c), op, bound)
      case CallKill(c, _) => Running(y, c) && Cur(y, c).pc == User && !Cur(y, c).killed
      case Timer(c) => Running(y, c) && y.cpus[c].ifl && Unlocked(Cur(y, c).pc)
      case Continue(c) =>
        && Running(y, c) && Cur(y, c).pc != User
        && (WantsPipe(Cur(y, c).pc) ==> y.pipeLock == Free || y.pipeLock == HeldBy(c))
        && (WantsPt(Cur(y, c).pc) ==> y.ptLock == Free || y.ptLock == HeldBy(c))
  }

  function Apply(s: State, a: Action, bound: nat): State
    requires Enabled(s, a, bound)
  {
    match a
    case SchedTake(c) => s.(sys := EnterScheduler(s.sys, c))
    case SchedPick(c, p) => s.(sys := Dispatch(s.sys, c, p))
    case SchedDrop(c) => s.(sys := LeaveScheduler(s.sys, c))
    case Call(c, op) => CallStep(s, s.sys.cpus[c].cur, op)
    case CallKill(c, v) => s.(sys := SetProc(s.sys, s.sys.cpus[c].cur, At(Cur(s.sys, c), KillAcquire(v))))
    case Timer(c) => s.(sys := Interrupt(s.sys, c, s.sys.cpus[c].cur))
    case Continue(c) => Advance(s, c, s.sys.cpus[c].cur)
  }

  /** Boot: every process is new and runnable, every CPU is about to enter its scheduler, the pipe is fresh. */
  ghost predicate Init(s: State) {
    && |s.sys.cpus| > 0
    && (forall c :: 0 <= c < |s.sys.cpus| ==> s.sys.cpus[c] == Cpu(0, true, true, -1, SchedAcquire))
    && (forall p :: 0 <= p < |s.sys.procs| ==>
      s.sys.procs[p] == Proc(RUNNABLE, NoChan, false, ForkRet, User, NoOp, true, -1))
    && s.sys.pipeLock == Free && s.sys.ptLock == Free && !s.sys.panicked
    && SizeOk(|s.world.pipe.data|) &&
      s.world == World(Pipe(s.world.pipe.data, 0, 0, true, true), false, false, false, [], [], false)
  }

  /** s reaches t by the actions acts, with every write at most bound bytes long. */
  ghost predicate Steps(s: State, acts: seq<Action>, bound: nat, t: State)
    decreases |acts|
  {
    if acts == [] then s == t
    else Enabled(s, acts[0], bound) && Steps(Apply(s, acts[0], bound), acts[1..], bound, t)
  }

  ghost predicate Reachable(bound: nat, t: State) {
    exists s, acts :: Init(s) && Steps(s, acts, bound, t)
  }
}
