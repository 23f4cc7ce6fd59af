/** What the bytes and the open ends of a pipe keep over every micro-step.
    The bytes: what has been written is what has been delivered followed by what the ring
    holds, and what a reader has copied so far is the end of what was delivered.
    The ends: an end is open as long as a process may still use it, which is what makes
    the last pipeclose free the page after everybody else has left. */
module PipeProtocolWakeups {
  import opened PipeRing
  import opened PipeProtocol
  import opened PipeProtocolLocks

  // ----- Which steps touch the pipe

  /** A step that leaves the pipe and every call's locals alone. */
  ghost predicate Quiet(s: State, t: State) {
    && t.world == s.world
    && |t.sys.procs| == |s.sys.procs|
    && (forall p :: 0 <= p < |s.sys.procs| ==> t.sys.procs[p].op == s.sys.procs[p].op)
  }

  predicate Touches(s: State, a: Action) {
    a.Call? || (a.Continue? && Running(s.sys, a.c) && var pc := Cur(s.sys, a.c).pc;
      pc == OpBody || pc.WakeScan? || pc == OpRelease)
  }

  lemma OtherStepsAreQuiet(s: State, a: Action, bound: nat)
    requires Enabled(s, a, bound) && !Touches(s, a)
    ensures Quiet(s, Apply(s, a, bound))
  {
    hide BodyStep, ScanStep, ReturnStep, CallStep, PushCli, PopCli, PopCliPanics;
  }

  // ----- Bytes

  ghost predicate SuffixOf(got: seq<char>, all: seq<char>) {
    |got| <= |all| && all[|all| - |got|..] == got
  }

  /** Every byte stored and not yet delivered is in the ring, in order, and what a
      read has copied so far is the latest stretch of delivered bytes. */
  ghost predicate FifoInv(s: State) {
    && BytesKept(s.world)
    && (forall p :: 0 <= p < |s.sys.procs| && s.sys.procs[p].op.Read? ==>
      SuffixOf(s.sys.procs[p].op.got, s.world.delivered))
  }

  /** While p is in a body no other process is part-way through a copy, or has closed its end and not left. */
  lemma OthersAreOutside(y: Sys, c: nat, p: nat, q: nat, bound: nat)
    requires LockInv(y, bound) && Running(y, c) && y.cpus[c].cur == p && HoldsPipe(y.procs[p].pc)
    requires q < |y.procs| && q != p
    ensures y.procs[q].op.Read? ==> y.procs[q].op.got == []
    ensures y.procs[q].op.Close? ==> !y.procs[q].op.closed
  {
    assert CpuInv(y, c) by { hide OpInv; }
    assert ProcInv(y, p, bound) && ProcInv(y, q, bound) by { hide OpInv; }
    SectionsAreLocked(y, p, bound);
    SectionsAreLocked(y, q, bound);
    hide LockInv, CpuInv;
  }

  /** Contents depends on the ring alone. */
  lemma SameContents(p: Pipe, q: Pipe)
    requires |p.data| > 0 && q == p.(readopen := q.readopen, writeopen := q.writeopen)
    ensures Contents(q) == Contents(p)
  {
  }

  ghost predicate BytesKept(w: World) {
    Valid(w.pipe) && w.written == w.delivered + Contents(w.pipe)
  }

  lemma WriteKeepsBytes(w: World, op: Op, killed: bool, waits: bool)
    requires BytesKept(w) && op.Write? && 0 <= op.i
    ensures BytesKept(WriteBody(w, op, killed, waits).world) &&
      WriteBody(w, op, killed, waits).world.delivered == w.delivered
  {
    if op.i < |op.buf| && !Full(w.pipe) {
      StoreAppends(w.pipe, op.buf[op.i]);
      assert w.delivered + Contents(w.pipe) + [op.buf[op.i]] == w.delivered + (Contents(w.pipe) + [op.buf[op.i]]);
    }
    hide Valid, Contents, Full, Store;
  }

  lemma ReadKeepsBytes(w: World, op: Op, killed: bool)
    requires BytesKept(w) && op.Read? && SuffixOf(op.got, w.delivered)
    ensures var o := ReadBody(w, op, killed);
      BytesKept(o.world) && SuffixOf(o.op.got, o.world.delivered) && (o.world.delivered != w.delivered ==> op.copying)
  {
    if op.copying && |op.got| < op.n && !Empty(w.pipe) {
      FetchTakesOldest(w.pipe);
      var (b, q) := Fetch(w.pipe);
      assert w.delivered + ([b] + Contents(q)) == w.delivered + [b] + Contents(q);
      assert SuffixOf(op.got + [b], w.delivered + [b]);
    }
    hide Valid, Contents, Empty, Fetch, SuffixOf;
  }

  lemma BodyKeepsFifo(s: State, c: nat, p: nat, bound: nat)
    requires LockInv(s.sys, bound) && Running(s.sys, c) && s.sys.cpus[c].cur == p && s.sys.procs[p].pc == OpBody
    requires FifoInv(s)
    ensures FifoInv(BodyStep(s, p))
  {
    var w, pr := s.world, s.sys.procs[p];
    var waits := !NoneWaiting(s.sys.procs, NreadChan);
    LockInvAt(s.sys, c, p, bound);
    forall q | 0 <= q < |s.sys.procs| && q != p && s.sys.procs[q].op.Read?
      ensures s.sys.procs[q].op.got == []
    {
      OthersAreOutside(s.sys, c, p, q, bound);
    }
    hide LockInv, ProcInv, CpuInv, Valid, Contents, NoneWaiting, WriteBody, ReadBody, CloseBody;
    if pr.op.Write? {
      WriteKeepsBytes(w, pr.op, pr.killed, waits);
      WriteLeavesEnds(w, pr.op, pr.killed, waits);
    } else if pr.op.Read? {
      ReadKeepsBytes(w, pr.op, pr.killed);
    } else {
      CloseKeepsRing(w, pr.op);
    }
  }

  lemma CloseKeepsRing(w: World, op: Op)
    requires BytesKept(w) && op.Close?
    ensures BytesKept(CloseBody(w, op).world) && CloseBody(w, op).world.delivered == w.delivered &&
      CloseBody(w, op).op.Close?
  {
    SameContents(w.pipe, CloseBody(w, op).world.pipe);
  }

  lemma InitFifo(s: State)
    requires Init(s)
    ensures FifoInv(s)
  {
    CountMeaning(s.world.pipe);
    assert Contents(s.world.pipe) == [];
  }

  lemma StepKeepsFifo(s: State, a: Action, bound: nat)
    requires LockInv(s.sys, bound) && Enabled(s, a, bound) && FifoInv(s)
    ensures FifoInv(Apply(s, a, bound))
  {
    hide LockInv, Valid, Contents, Count, BodyStep;
    if !Touches(s, a) {
      OtherStepsAreQuiet(s, a, bound);
    } else if a.Continue? && Cur(s.sys, a.c).pc == OpBody {
      BodyKeepsFifo(s, a.c, s.sys.cpus[a.c].cur, bound);
    }
  }

  // ----- Ends

  predicate EndOpen(w: World, writable: bool) {
    if writable then w.pipe.writeopen else w.pipe.readopen
  }

  predicate EndGone(w: World, writable: bool) {
    if writable then w.writerGone else w.readerGone
  }

  /** Calls in progress have their end open; each end has one closer; nobody is in a call on a freed pipe. */
  predicate EndFits(w: World, op: Op) {
    match op
    case NoOp => true
    case Write(_, _, _) => !w.writerGone && !w.freed
    case Read(_, _, _) => !w.readerGone && !w.freed
    case Close(writable, closed, _) => EndGone(w, writable) && (!closed ==> EndOpen(w, writable)) && !w.freed
  }

  ghost predicate EndsInv(s: State) {
    && (!s.world.writerGone ==> s.world.pipe.writeopen) && (!s.world.readerGone ==> s.world.pipe.readopen)
    && (s.world.freed ==> s.world.readerGone && s.world.writerGone)
    && (forall p :: 0 <= p < |s.sys.procs| ==> EndFits(s.world, s.sys.procs[p].op))
    && (forall p, q :: 0 <= p < q < |s.sys.procs| && s.sys.procs[p].op.Close? && s.sys.procs[q].op.Close? ==>
          s.sys.procs[p].op.writable != s.sys.procs[q].op.writable)
    && (forall p, q ::
      0 <= p < |s.sys.procs| && 0 <= q < |s.sys.procs| && p != q && s.sys.procs[p].op.Close? &&
      s.sys.procs[p].op.last ==>
          s.sys.procs[q].op.NoOp?)
    && (forall p :: 0 <= p < |s.sys.procs| && s.sys.procs[p].op.Close? && s.sys.procs[p].op.last ==>
      s.world.readerGone && s.world.writerGone)
  }

  /** A write's or read's body leaves the ends as they are. */
  predicate EndsUntouched(w: World, op: Op, o: Outcome) {
    && o.world.readerGone == w.readerGone && o.world.writerGone == w.writerGone && o.world.freed == w.freed
    && o.world.pipe.readopen == w.pipe.readopen && o.world.pipe.writeopen == w.pipe.writeopen
    && o.op.Write? == op.Write? && o.op.Read? == op.Read? && !o.op.Close?
  }

  lemma WriteLeavesEnds(w: World, op: Op, killed: bool, waits: bool)
    requires op.Write? && 0 <= op.i && |w.pipe.data| > 0
    ensures EndsUntouched(w, op, WriteBody(w, op, killed, waits))
  {
    hide Full;
  }

  lemma ReadLeavesEnds(w: World, op: Op, killed: bool)
    requires op.Read? && |w.pipe.data| > 0
    ensures EndsUntouched(w, op, ReadBody(w, op, killed))
  {
    hide Empty;
  }

  lemma ChangedOpKeepsEnds(s: State, t: State, p: nat)
    requires EndsInv(s) && p < |s.sys.procs| && |t.sys.procs| == |s.sys.procs|
    requires forall q :: 0 <= q < |s.sys.procs| && q != p ==> t.sys.procs[q].op == s.sys.procs[q].op
    requires EndsUntouched(s.world, s.sys.procs[p].op, Outcome(t.sys.procs[p].op, OpBody, t.world))
    requires s.sys.procs[p].op.Write? || s.sys.procs[p].op.Read?
    ensures EndsInv(t)
  {
    assert EndFits(s.world, s.sys.procs[p].op);
  }

  lemma CloseKeepsEnds(s: State, c: nat, p: nat, bound: nat)
    requires LockInv(s.sys, bound) && Running(s.sys, c) && s.sys.cpus[c].cur == p && s.sys.procs[p].pc == OpBody &&
      |s.world.pipe.data| > 0
    requires EndsInv(s) && s.sys.procs[p].op.Close?
    ensures EndsInv(BodyStep(s, p))
  {
    var op := s.sys.procs[p].op;
    LockInvAt(s.sys, c, p, bound);
    assert !op.last;
    forall q | 0 <= q < |s.sys.procs| && q != p
      ensures s.sys.procs[q].op.Close? ==> !s.sys.procs[q].op.closed && !s.sys.procs[q].op.last
    {
      OthersAreOutside(s.sys, c, p, q, bound);
      LockInvAt(s.sys, c, q, bound);
    }
    assert EndFits(s.world, op);
    hide LockInv, ProcInv, CpuInv, NoneWaiting;
    var t := BodyStep(s, p);
    assert t.sys.procs[p].op == CloseBody(s.world, op).op && t.world == CloseBody(s.world, op).world;
    assert forall q :: 0 <= q < |s.sys.procs| && q != p ==> t.sys.procs[q].op == s.sys.procs[q].op;
    hide BodyStep;
    forall q | 0 <= q < |s.sys.procs| && q != p
      ensures EndFits(t.world, t.sys.procs[q].op)
      ensures t.sys.procs[p].op.last ==> t.sys.procs[q].op.NoOp?
    {
      assert EndFits(s.world, s.sys.procs[q].op);
    }
  }

  lemma BodyKeepsEnds(s: State, c: nat, p: nat, bound: nat)
    requires LockInv(s.sys, bound) && Running(s.sys, c) && s.sys.cpus[c].cur == p && s.sys.procs[p].pc == OpBody &&
      |s.world.pipe.data| > 0
    requires EndsInv(s)
    ensures EndsInv(BodyStep(s, p))
  {
    var pr := s.sys.procs[p];
    LockInvAt(s.sys, c, p, bound);
    var waits := !NoneWaiting(s.sys.procs, NreadChan);
    if pr.op.Close? {
      CloseKeepsEnds(s, c, p, bound);
    } else {
      hide LockInv, CpuInv, NoneWaiting, HoldsPipe, WriteBody, ReadBody, EndsInv, EndsUntouched;
      if pr.op.Write? {
        WriteLeavesEnds(s.world, pr.op, pr.killed, waits);
        assert EndsUntouched(s.world, pr.op, WriteBody(s.world, pr.op, pr.killed, waits));
      } else {
        ReadLeavesEnds(s.world, pr.op, pr.killed);
      }
      ChangedOpKeepsEnds(s, BodyStep(s, p), p);
    }
  }

  lemma CallKeepsEnds(s: State, c: nat, op: Op, bound: nat)
    requires LockInv(s.sys, bound) && Enabled(s, Call(c, op), bound) && EndsInv(s)
    ensures EndsInv(CallStep(s, s.sys.cpus[c].cur, op))
  {
    var p := s.sys.cpus[c].cur;
    LockInvAt(s.sys, c, p, bound);
    hide LockInv, CpuInv, ProcInv;
    var t := CallStep(s, p, op);
    forall q | 0 <= q < |s.sys.procs|
      ensures EndFits(t.world, t.sys.procs[q].op)
      ensures q != p && op.Close? && s.sys.procs[q].op.Close? ==> s.sys.procs[q].op.writable != op.writable
    {
      assert EndFits(s.world, s.sys.procs[q].op);
    }
  }

  lemma ReturnKeepsEnds(s: State, c: nat, p: nat)
    requires InRange(s.sys, c, p) && EndsInv(s)
    ensures EndsInv(ReturnStep(s, c, p))
  {
    hide PopCli, PopCliPanics;
    var t := ReturnStep(s, c, p);
    assert forall q :: 0 <= q < |s.sys.procs| && q != p ==> t.sys.procs[q].op == s.sys.procs[q].op;
    forall q | 0 <= q < |s.sys.procs|
      ensures EndFits(t.world, t.sys.procs[q].op)
    {
      assert EndFits(s.world, s.sys.procs[q].op);
    }
  }

  lemma ScanKeepsEnds(s: State, p: nat, full: bool)
    requires p < |s.sys.procs| && EndsInv(s)
    ensures EndsInv(ScanStep(s, p, full))
  {
    var t := ScanStep(s, p, full);
    forall q | 0 <= q < |s.sys.procs|
      ensures EndFits(t.world, t.sys.procs[q].op)
    {
      assert EndFits(s.world, s.sys.procs[q].op);
    }
  }

  lemma StepKeepsEnds(s: State, a: Action, bound: nat)
    requires LockInv(s.sys, bound) && Enabled(s, a, bound) && EndsInv(s)
    ensures EndsInv(Apply(s, a, bound))
  {
    hide LockInv, BodyStep, ReturnStep, ScanStep, CallStep;
    if !Touches(s, a) {
      OtherStepsAreQuiet(s, a, bound);
      hide Apply, Enabled;
    } else if a.Call? {
      CallKeepsEnds(s, a.c, a.op, bound);
    } else if Cur(s.sys, a.c).pc == OpBody {
      BodyKeepsEnds(s, a.c, s.sys.cpus[a.c].cur, bound);
    } else if Cur(s.sys, a.c).pc == OpRelease {
      ReturnKeepsEnds(s, a.c, s.sys.cpus[a.c].cur);
    } else {
      ScanKeepsEnds(s, s.sys.cpus[a.c].cur, Cur(s.sys, a.c).pc.full);
    }
  }
}
