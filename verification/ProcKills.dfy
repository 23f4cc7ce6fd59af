/** What kill does to table entries that are not processes yet (proc.c), and when a child is born killed. */
module ProcKills {
  // allocproc never clears killed, so a mark that a free entry gets stays with it until wait resets the entry.

  import opened ProcTable
  import opened ProcRuns

  /** No process yet: unused, or being built by fork. */
  predicate IsFree(x: Proc) {
    x.state == UNUSED || x.state == EMBRYO
  }

  /** The step is a kill that finds entry x. */
  predicate Strikes(s: State, a: Action, x: int) {
    a.Kill? && FirstPid(s.t, a.pid, 0) == x
  }

  /** The step is a wait that reaps entry x, which is where killed is cleared. */
  predicate Resets(s: State, a: Action, x: int) {
    && a.WaitPass? && 0 <= a.p < |s.t|
    && var r := WaitSpec(s.t, a.p);
    r.Reaped? && r.i == x
  }

  /** Kill finds x while it is free. */
  predicate Marks(s: State, a: Action, x: int) {
    Strikes(s, a, x) && 0 <= x < |s.t| && IsFree(s.t[x])
  }

  /** What one step does to the mark of one entry. Nothing becomes free but by wait. */
  lemma MarkStep(s: State, a: Action, x: int)
    requires Inv(s) && Enabled(s, a) && 0 <= x < |s.t|
    ensures |Next(s, a).t| == |s.t|
    ensures Next(s, a).t[x].killed <==> !Resets(s, a, x) && (Strikes(s, a, x) || s.t[x].killed)
    ensures IsFree(Next(s, a).t[x]) && !Resets(s, a, x) ==> IsFree(s.t[x])
  {
    hide LogsOk, PidsApart, NoZombie, FirstUnused, FirstPid;
    match a
    case ForkFail(p) =>
      assert PlaceOk(s, p) && SlotOk(s, s.t[p].place.np);
    case WaitPass(p) =>
      if WaitSpec(s.t, p).Reaped? {
        assert ZombieChild(s.t, p, WaitSpec(s.t, p).i);
      }
    case _ =>
  }

  // ----- Over runs

  /** Since boot or since x was last reset, some kill has found x free. */
  ghost predicate MarkedSince(states: seq<State>, acts: seq<Action>, i: int, x: int)
    requires 0 <= i <= |acts| < |states|
  {
    exists j :: 0 <= j < i && Marks(states[j], acts[j], x) && NotReset(states, acts, j + 1, i, x)
  }

  ghost predicate NotReset(states: seq<State>, acts: seq<Action>, j: int, i: int, x: int)
    requires 0 <= i <= |acts| < |states| && 0 <= j
  {
    forall h :: j <= h < i ==> !Resets(states[h], acts[h], x)
  }

  lemma RunShape(states: seq<State>, acts: seq<Action>, n: int)
    requires IsRun(states, acts, n)
    ensures |states| == |acts| + 1
  {
  }

  lemma RunStep(states: seq<State>, acts: seq<Action>, n: int, i: int)
    requires IsRun(states, acts, n) && 0 <= i < |acts|
    ensures Inv(states[i]) && Enabled(states[i], acts[i]) && states[i + 1] == Next(states[i], acts[i])
    ensures |states[i].t| == n
  {
    hide Inv, Initial, Next;
    RunInv(states, acts, n, i);
    assert IsStep(states[i], acts[i], states[i + 1]);
    RunSize(states, acts, n, i);
  }

  lemma {:induction false} RunSize(states: seq<State>, acts: seq<Action>, n: int, i: int)
    requires IsRun(states, acts, n) && 0 <= i < |states|
    ensures |states[i].t| == n
    decreases i
  {
    hide Inv, Next;
    if i > 0 {
      RunSize(states, acts, n, i - 1);
      RunInv(states, acts, n, i - 1);
      assert IsStep(states[i - 1], acts[i - 1], states[i - 1 + 1]);
      if n > 0 {
        MarkStep(states[i - 1], acts[i - 1], 0);
      }
    }
  }

  /** A mark stays until the entry is reset. */
  lemma {:induction false} MarkStays(states: seq<State>, acts: seq<Action>, n: int, j: int, i: int, x: int)
    requires IsRun(states, acts, n) && 0 <= j < i < |states| && 0 <= x < n
    requires Marks(states[j], acts[j], x) && NotReset(states, acts, j + 1, i, x)
    ensures |states[i].t| == n && states[i].t[x].killed
    decreases i
  {
    hide Inv, Enabled, Next, IsRun, Resets, FirstPid;
    RunShape(states, acts, n);
    RunStep(states, acts, n, i - 1);
    MarkStep(states[i - 1], acts[i - 1], x);
    if j + 1 < i {
      MarkStays(states, acts, n, j, i - 1, x);
    } else {
      StruckNotReset(states[j], acts[j], x);
    }
  }

  lemma StruckNotReset(s: State, a: Action, x: int)
    requires Strikes(s, a, x)
    ensures !Resets(s, a, x)
  {
  }

  /** In every run and table, a free entry is marked if and only if, since its last reset, a kill has found it free. */
  lemma FreeMarkedIff(states: seq<State>, acts: seq<Action>, n: int, i: int, x: int)
    requires IsRun(states, acts, n) && 0 <= i < |states| && 0 <= x < n
    ensures |states[i].t| == n
    ensures IsFree(states[i].t[x]) ==> (states[i].t[x].killed <==> MarkedSince(states, acts, i, x))
  {
    hide Inv, Enabled, Next, Resets, Strikes, FirstPid;
    RunSize(states, acts, n, i);
    if j :| 0 <= j < i && Marks(states[j], acts[j], x) && NotReset(states, acts, j + 1, i, x) {
      hide IsRun;
      MarkStays(states, acts, n, j, i, x);
    }
    if IsFree(states[i].t[x]) && states[i].t[x].killed {
      LastMark(states, acts, n, i, x);
    }
  }

  /** The kill that marked a free entry. */
  lemma {:induction false} LastMark(states: seq<State>, acts: seq<Action>, n: int, i: int, x: int)
    requires IsRun(states, acts, n) && 0 <= i < |states| && 0 <= x < n == |states[i].t|
    requires IsFree(states[i].t[x]) && states[i].t[x].killed
    ensures MarkedSince(states, acts, i, x)
    decreases i
  {
    hide Inv, Enabled, Next, Resets, Strikes, FirstPid;
    assert 0 < i;
    RunStep(states, acts, n, i - 1);
    MarkStep(states[i - 1], acts[i - 1], x);
    if Strikes(states[i - 1], acts[i - 1], x) {
      assert Marks(states[i - 1], acts[i - 1], x) && NotReset(states, acts, i - 1 + 1, i, x);
    } else {
      LastMark(states, acts, n, i - 1, x);
      var j :| 0 <= j < i - 1 && Marks(states[j], acts[j], x) && NotReset(states, acts, j + 1, i - 1, x);
      assert NotReset(states, acts, j + 1, i, x);
    }
  }

  /** A child leaves fork killed if and only if some kill found its entry, unused or in the making, since boot or
      since wait last reset that entry. */
  lemma BornKilledIff(states: seq<State>, acts: seq<Action>, n: int, i: int)
    requires IsRun(states, acts, n) && 0 <= i < |acts| && acts[i].ForkDone?
    ensures 0 <= acts[i].p < |states[i].t| == n && states[i].t[acts[i].p].place.ForkLinked?
    ensures var x := states[i].t[acts[i].p].place.np;
      && 0 <= x < n == |states[i + 1].t| && states[i + 1].t[x].state == RUNNABLE
      && (states[i + 1].t[x].killed <==> MarkedSince(states, acts, i, x))
  {
    RunStep(states, acts, n, i);
    var s := states[i];
    var x := s.t[acts[i].p].place.np;
    assert PlaceOk(s, acts[i].p) && SlotOk(s, x) && SlotOk(s, acts[i].p);
    FreeMarkedIff(states, acts, n, i, x);
    hide IsRun, MarkedSince, Inv;
  }

  /** The guard that kill does not have: the entry it finds, if any, is a process. */
  predicate GuardedKill(s: State, a: Action) {
    a.Kill? ==>
      var x := FirstPid(s.t, a.pid, 0);
      x == -1 || !IsFree(s.t[x])
  }

  /** With the guard, no free entry is ever marked and no child is born killed. */
  lemma GuardedKillsMarkNothing(states: seq<State>, acts: seq<Action>, n: int, i: int, x: int)
    requires IsRun(states, acts, n) && 0 <= i < |states| && 0 <= x < n
    requires forall j :: 0 <= j < i ==> GuardedKill(states[j], acts[j])
    ensures |states[i].t| == n && (IsFree(states[i].t[x]) ==> !states[i].t[x].killed)
    ensures i < |acts| && acts[i].ForkDone? ==>
      && 0 <= acts[i].p < n && states[i].t[acts[i].p].place.ForkLinked? && |states[i + 1].t| == n
      && (states[i].t[acts[i].p].place.np == x ==> !states[i + 1].t[x].killed)
  {
    hide Inv, Enabled, Next, IsRun;
    RunShape(states, acts, n);
    assert !MarkedSince(states, acts, i, x) by {
      forall j | 0 <= j < i
        ensures !Marks(states[j], acts[j], x)
      {
        assert GuardedKill(states[j], acts[j]);
      }
    }
    FreeMarkedIff(states, acts, n, i, x);
    if i < |acts| && acts[i].ForkDone? {
      BornKilledIff(states, acts, n, i);
    }
  }

  // ----- Without the guard

  /** Which pid to name so that kill finds entry x: its own, unless that is 0 and an entry before x has it too. */
  lemma FoundByPid(s: State, x: int)
    requires Inv(s) && 0 <= x < |s.t|
    requires s.t[x].pid != 0 || forall k :: 0 <= k < x ==> s.t[k].pid != 0
    ensures FirstPid(s.t, s.t[x].pid, 0) == x
  {
    hide SlotOk, PlaceOk, LogsOk, Slots;
  }

  /** A running process can mark a free entry with one kill if and only if there is one: a pid of 0, one that a
      failed fork has left behind, or that of a child in the making. */
  lemma SomeKillMarksIff(s: State, p: int)
    requires Inv(s) && !s.panicked && InUser(s, p)
    ensures (exists pid, x :: Enabled(s, Kill(p, pid)) && Marks(s, Kill(p, pid), x)) <==>
      exists x :: 0 <= x < |s.t| && IsFree(s.t[x])
  {
    hide SlotOk, PlaceOk, LogsOk, PidsApart, Slots;
    if x :| 0 <= x < |s.t| && IsFree(s.t[x]) {
      var y := if s.t[x].state == EMBRYO then x else FirstUnused(s.t);
      PidBounds(s);
      FoundByPid(s, y);
      assert Marks(s, Kill(p, s.t[y].pid), y);
    }
  }

  /** Four steps from any state that satisfies the invariant. */
  lemma KillThenFork(s: State, p: int, x: int) returns (s1: State, s2: State, s3: State, s4: State)
    requires Inv(s) && !s.panicked && InUser(s, p) && x == FirstUnused(s.t) != -1
    ensures IsStep(s, Kill(p, s.t[x].pid), s1) && IsStep(s1, ForkAlloc(p), s2) && IsStep(s2, ForkLink(p), s3)
    ensures IsStep(s3, ForkDone(p), s4) && |s4.t| == |s.t|
    ensures s4.t[x].state == RUNNABLE && s4.t[x].killed && s4.t[x].parent == p
  {
    hide SlotOk, PlaceOk, LogsOk, PidsApart;
    PidBounds(s);
    FoundByPid(s, x);
    s1 := Next(s, Kill(p, s.t[x].pid));
    SameUnused(s.t, s1.t);
    s2 := Next(s1, ForkAlloc(p));
    StepKeepsInv(s, Kill(p, s.t[x].pid));
    StepKeepsInv(s1, ForkAlloc(p));
    s3 := Next(s2, ForkLink(p));
    StepKeepsInv(s2, ForkLink(p));
    s4 := Next(s3, ForkDone(p));
  }

  /** From every state of every run with an unused entry and a process in user code: four steps to a child born
      killed. */
  lemma ChildBornKilled(states: seq<State>, acts: seq<Action>, n: int, p: int) returns (more: seq<State>, x: int)
    requires IsRun(states, acts, n)
    requires var s := states[|acts|];
      !s.panicked && InUser(s, p) && exists k :: 0 <= k < |s.t| && s.t[k].state == UNUSED
    ensures x == FirstUnused(states[|acts|].t) && 0 <= x < |states[|acts|].t| && states <= more
    ensures IsRun(more, acts + [Kill(p, states[|acts|].t[x].pid), ForkAlloc(p), ForkLink(p), ForkDone(p)], n)
    ensures var t := more[|acts| + 4].t;
      |t| == |states[|acts|].t| && t[x].state == RUNNABLE && t[x].killed && t[x].parent == p
  {
    hide Inv, InUser, IsStep, FirstUnused, Initial;
    var s := states[|acts|];
    RunInvLast(states, acts, n);
    x := FirstUnused(s.t);
    var s1, s2, s3, s4 := KillThenFork(s, p, x);
    more := states + [s1, s2, s3, s4];
  }

  lemma RunInvLast(states: seq<State>, acts: seq<Action>, n: int)
    requires IsRun(states, acts, n)
    ensures |states| == |acts| + 1 && Inv(states[|acts|])
  {
    RunInv(states, acts, n, |acts|);
  }

  lemma SameUnused(t0: Table, t1: Table)
    requires |t1| == |t0| && forall k :: 0 <= k < |t0| ==> (t1[k].state == UNUSED <==> t0[k].state == UNUSED)
    ensures FirstUnused(t1) == FirstUnused(t0)
  {
    hide FirstUnused;
  }

  /** A child in the making is killed, and then the fork ends one way or the other. */
  lemma KillInFork(s: State, p: int, f: int, x: int) returns (s1: State, linked: State, born: State, failed: State)
    requires Inv(s) && !s.panicked && InUser(s, p) && IsRunning(s, f) && s.t[f].place == InFork(x)
    ensures 0 <= x < |s.t|
    ensures IsStep(s, Kill(p, s.t[x].pid), s1) && IsStep(s1, ForkLink(f), linked) && IsStep(linked, ForkDone(f), born)
    ensures IsStep(s1, ForkFail(f), failed) && |born.t| == |failed.t| == |s.t|
    ensures born.t[x].state == RUNNABLE && born.t[x].killed && born.t[x].parent == f
    ensures failed.t[x].state == UNUSED && failed.t[x].killed
  {
    hide LogsOk, PidsApart, NoZombie;
    assert PlaceOk(s, f) && SlotOk(s, x) && SlotOk(s, f);
    FoundByPid(s, x);
    s1 := Next(s, Kill(p, s.t[x].pid));
    failed := Next(s1, ForkFail(f));
    linked := Next(s1, ForkLink(f));
    born := Next(linked, ForkDone(f));
  }

  /** And while process f builds a child at x, another process kills the child's pid: whether f's fork then succeeds
      or fails for want of memory, the mark stays. */
  lemma EmbryoMarked(states: seq<State>, acts: seq<Action>, n: int, p: int, f: int, x: int)
      returns (born: seq<State>, failed: seq<State>)
    requires IsRun(states, acts, n)
    requires var s := states[|acts|]; !s.panicked && InUser(s, p) && IsRunning(s, f) && s.t[f].place == InFork(x)
    ensures 0 <= x < |states[|acts|].t|
    ensures IsRun(born, acts + [Kill(p, states[|acts|].t[x].pid), ForkLink(f), ForkDone(f)], n)
    ensures var t := born[|acts| + 3].t;
      |t| == |states[|acts|].t| && t[x].state == RUNNABLE && t[x].killed && t[x].parent == f
    ensures IsRun(failed, acts + [Kill(p, states[|acts|].t[x].pid), ForkFail(f)], n)
    ensures var t := failed[|acts| + 2].t; |t| == |states[|acts|].t| && t[x].state == UNUSED && t[x].killed
  {
    hide Inv, InUser, IsRunning, IsStep, Initial;
    RunInvLast(states, acts, n);
    var s1, linked, last, unused := KillInFork(states[|acts|], p, f, x);
    born := states + [s1, linked, last];
    failed := states + [s1, unused];
  }

  // ----- The same from any process that is awake, wherever in the kernel it is

  predicate Awake(x: Proc) {
    x.state == RUNNABLE || x.state == RUNNING
  }

  /** Whoever is awake inside wait has a reason to leave it; whoever sleeps there sleeps on itself. */
  ghost predicate WaitOk(s: State, p: int)
    requires 0 <= p < |s.t|
  {
    var x := s.t[p];
    && (x.place == InWait && Awake(x) ==> x.killed || !NoZombie(s.t, p))
    && (x.place == InWait && x.state == SLEEPING ==> x.chan == OfProc(p))
  }

  lemma ZombieStays(t0: Table, t1: Table, p: int)
    requires !NoZombie(t0, p) && forall k :: ZombieChild(t0, p, k) ==> ZombieChild(t1, p, k)
    ensures !NoZombie(t1, p)
  {
  }

  /** Nobody has stopped being a zombie, changed parents, or entered or left wait. */
  lemma SameWaits(s: State, t: State, q: int)
    requires 0 <= q < |s.t| == |t.t| && WaitOk(s, q)
    requires t.t[q].place == InWait ==> s.t[q].place == InWait && t.t[q].chan == s.t[q].chan
    requires t.t[q].place == InWait && t.t[q].state == SLEEPING ==> s.t[q].state == SLEEPING
    requires t.t[q].place == InWait && Awake(t.t[q]) && !t.t[q].killed ==> Awake(s.t[q]) && !s.t[q].killed
    requires forall k :: 0 <= k < |s.t| && s.t[k].state == ZOMBIE ==>
      t.t[k].state == ZOMBIE && t.t[k].parent == s.t[k].parent
    ensures WaitOk(t, q)
  {
    if !NoZombie(s.t, q) {
      ZombieStays(s.t, t.t, q);
    }
    hide NoZombie;
  }

  /** exit wakes in wait whom it gives a zombie, and nobody else. */
  lemma ExitKeepsWaitOk(s: State, p: int, q: int)
    requires Inv(s) && Enabled(s, Exit(p)) && p != s.init && 0 <= q < |s.t| && WaitOk(s, q)
    ensures WaitOk(Next(s, Exit(p)), q)
  {
    hide LogsOk, PidsApart;
    var t := Next(s, Exit(p));
    assert SlotOk(s, p) && t.t[p].state == ZOMBIE && t.t[p].parent == s.t[p].parent;
    if t.t[q].place == InWait && Awake(t.t[q]) {
      if k :| ZombieChild(s.t, q, k) {
        assert ZombieChild(t.t, q, k);
      } else if s.t[q].state == SLEEPING {
        if q == s.t[p].parent {
          assert ZombieChild(t.t, q, p);
        } else {
          assert q == s.init;
          var k :| ZombieChild(s.t, p, k);
          assert ZombieChild(t.t, q, k);
        }
      }
    }
  }

  lemma WaitKeepsWaitOk(s: State, p: int, q: int)
    requires Inv(s) && Enabled(s, WaitPass(p)) && 0 <= q < |s.t| && WaitOk(s, q)
    ensures |Next(s, WaitPass(p)).t| == |s.t| && WaitOk(Next(s, WaitPass(p)), q)
  {
    var t := Next(s, WaitPass(p));
    hide Inv;
    if WaitSpec(s.t, p).Reaped? {
      assert ZombieChild(s.t, p, WaitSpec(s.t, p).i);
    }
    if q != p {
      if k :| ZombieChild(s.t, q, k) {
        assert ZombieChild(t.t, q, k);
      }
    }
  }

  lemma StepKeepsWaitOk(s: State, a: Action, q: int)
    requires Inv(s) && Enabled(s, a) && 0 <= q < |s.t| && WaitOk(s, q)
    ensures |Next(s, a).t| == |s.t| && WaitOk(Next(s, a), q)
  {
    hide LogsOk, PidsApart, FirstUnused, FirstPid, Exited;
    var t := Next(s, a);
    match a
    case Exit(p) =>
      if p != s.init {
        ExitKeepsWaitOk(s, p, q);
      }
    case WaitPass(p) =>
      WaitKeepsWaitOk(s, p, q);
    case Wakeup(p, k) =>
      hide Inv, NoZombie;
      assert t.t[q].state == RUNNABLE && s.t[q].state == SLEEPING ==> s.t[q].chan == Other(k);
      if t.t[q].place != InWait || t.t[q].state == s.t[q].state {
        SameWaits(s, t, q);
      }
    case Pick(p) => SameWaits(s, t, q);
    case Yield(p) => SameWaits(s, t, q);
    case Kill(p, pid) => SameWaits(s, t, q);
    case SleepOn(p, k) => SameWaits(s, t, q);
    case ForkAlloc(p) => SameWaits(s, t, q);
    case _ =>
      assert PlaceOk(s, a.p) && SlotOk(s, s.t[a.p].place.np) && SlotOk(s, a.p);
      hide Inv, NoZombie;
      SameWaits(s, t, q);
  }

  lemma {:induction false} RunWaitOk(states: seq<State>, acts: seq<Action>, n: int, i: int, q: int)
    requires IsRun(states, acts, n) && 0 <= i < |states| && 0 <= q < n
    ensures |states[i].t| == n && WaitOk(states[i], q)
    decreases i
  {
    hide Inv, Next, WaitOk, Enabled;
    if i == 0 {
      FirstWaitOk(states[0], n, q);
    } else {
      RunWaitOk(states, acts, n, i - 1, q);
      RunStep(states, acts, n, i - 1);
      StepKeepsWaitOk(states[i - 1], acts[i - 1], q);
    }
  }

  lemma FirstWaitOk(s: State, n: int, q: int)
    requires Initial(s, n) && 0 <= q < n
    ensures WaitOk(s, q)
  {
  }

  /** A process that wait has put to sleep and that is awake again never goes back to sleep there. */
  lemma WaitReturns(states: seq<State>, acts: seq<Action>, n: int, p: int)
    requires IsRun(states, acts, n)
    requires var s := states[|acts|]; !s.panicked && IsRunning(s, p) && s.t[p].place == InWait
    ensures Slots(states[|acts|]) && InUser(Next(states[|acts|], WaitPass(p)), p)
  {
    RunSize(states, acts, n, |acts|);
    RunWaitOk(states, acts, n, |acts|, p);
    RunInvLast(states, acts, n);
    var s := states[|acts|];
    hide Inv, IsRun;
    if WaitSpec(s.t, p).Reaped? {
      assert ZombieChild(s.t, p, WaitSpec(s.t, p).i);
    }
  }

  ghost predicate HasUnused(s: State) {
    exists k :: 0 <= k < |s.t| && s.t[k].state == UNUSED
  }

  /** An awake process gets back to user code in at most three steps of its own, using up no further entry. */
  lemma BackToUser(states: seq<State>, acts: seq<Action>, n: int, p: int) returns (more: seq<State>, macts: seq<Action>)
    requires IsRun(states, acts, n)
    requires var s := states[|acts|]; !s.panicked && 0 <= p < |s.t| && Awake(s.t[p]) && HasUnused(s)
    ensures IsRun(more, macts, n) && acts <= macts && states <= more
    ensures var s := more[|macts|]; !s.panicked && InUser(s, p) && HasUnused(s)
    decreases if states[|acts|].t[p].state == RUNNABLE then 1 else 0,
      if states[|acts|].t[p].place.InFork? then 2 else if states[|acts|].t[p].place == User then 0 else 1
  {
    var s := states[|acts|];
    if InUser(s, p) {
      return states, acts;
    }
    RunInvLast(states, acts, n);
    var a := OwnStep(s, p);
    if s.t[p].place == InWait && s.t[p].state == RUNNING {
      WaitReturns(states, acts, n, p);
    }
    OwnStepLeads(s, p);
    StepKeepsInv(s, a);
    hide Inv, Next, Enabled, Initial, InUser, HasUnused;
    assert IsStep(s, a, Next(s, a));
    more, macts := BackToUser(states + [Next(s, a)], acts + [a], n, p);
  }

  function OwnStep(s: State, p: int): Action
    requires 0 <= p < |s.t|
  {
    if s.t[p].state == RUNNABLE then Pick(p)
    else match s.t[p].place
      case InFork(_) => ForkLink(p)
      case ForkLinked(_) => ForkDone(p)
      case _ => WaitPass(p)
  }

  lemma OwnStepLeads(s: State, p: int)
    requires Inv(s) && !s.panicked && 0 <= p < |s.t| && Awake(s.t[p]) && !InUser(s, p) && HasUnused(s)
    requires s.t[p].state == RUNNING && s.t[p].place == InWait ==> InUser(Next(s, WaitPass(p)), p)
    ensures Enabled(s, OwnStep(s, p)) && !Next(s, OwnStep(s, p)).panicked && |Next(s, OwnStep(s, p)).t| == |s.t|
    ensures HasUnused(Next(s, OwnStep(s, p)))
    ensures var y := Next(s, OwnStep(s, p)).t[p];
      if s.t[p].state == RUNNABLE then y.state == RUNNING && y.place == s.t[p].place
      else y.state == RUNNING && y.place == (if s.t[p].place.InFork? then ForkLinked(s.t[p].place.np) else User)
  {
    hide LogsOk, PidsApart;
    assert PlaceOk(s, p) && SlotOk(s, p);
    if s.t[p].place.InFork? || s.t[p].place.ForkLinked? {
      assert SlotOk(s, s.t[p].place.np);
    }
    var k :| 0 <= k < |s.t| && s.t[k].state == UNUSED;
    assert Next(s, OwnStep(s, p)).t[k].state == UNUSED;
  }

  /** From every state of every run with an unused entry and a process that is awake, one kill leads to a child born
      killed. */
  lemma AnyRunCanBearKilled(states: seq<State>, acts: seq<Action>, n: int, p: int)
      returns (more: seq<State>, macts: seq<Action>, x: int)
    requires IsRun(states, acts, n)
    requires var s := states[|acts|]; !s.panicked && 0 <= p < |s.t| && Awake(s.t[p]) && HasUnused(s)
    ensures IsRun(more, macts, n) && acts <= macts && states <= more
    ensures var t := more[|macts|].t; 0 <= x < |t| && t[x].state == RUNNABLE && t[x].killed && t[x].parent == p
    ensures macts[|macts| - 1] == ForkDone(p)
  {
    hide IsRun, Enabled;
    var ss, aa := BackToUser(states, acts, n, p);
    more, x := ChildBornKilled(ss, aa, n, p);
    RunShape(ss, aa, n);
    macts := aa + [Kill(p, ss[|aa|].t[x].pid), ForkAlloc(p), ForkLink(p), ForkDone(p)];
  }
}
