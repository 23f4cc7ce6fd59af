/** Who sleeps, and what wakes them (proc.c): kill, wakeup and exit, over every run. */
module ProcSleeps {
  import opened ProcTable
  import opened ProcRuns
  import opened ProcKills

  // ----- kill

  /** kill marks the first entry with the pid, wakes it if it sleeps, and changes no other. */
  lemma KillDoes(s: State, p: int, pid: int, x: int)
    requires Slots(s) && Enabled(s, Kill(p, pid)) && 0 <= x < |s.t|
    ensures |Next(s, Kill(p, pid)).t| == |s.t|
    ensures var y, z := s.t[x], Next(s, Kill(p, pid)).t[x];
      if FirstWith(s.t, pid, x) then
        && z.killed && z.state == (if y.state == SLEEPING then RUNNABLE else y.state)
        && z.pid == y.pid && z.parent == y.parent && z.chan == y.chan && z.place == y.place
      else z == y
    ensures Next(s, Kill(p, pid)) == s.(t := Next(s, Kill(p, pid)).t)
  {
    hide FirstPid;
  }

  /** wakeup makes exactly the sleepers on its address runnable, and changes nothing else. */
  lemma WakeupDoes(s: State, p: int, k: int, x: int)
    requires Slots(s) && Enabled(s, Wakeup(p, k)) && 0 <= x < |s.t|
    ensures |Next(s, Wakeup(p, k)).t| == |s.t|
    ensures var y := s.t[x];
      Next(s, Wakeup(p, k)).t[x] ==
        if y.state == SLEEPING && y.chan == Other(k) then
          Proc(RUNNABLE, y.pid, y.parent, y.chan, y.killed, y.place)
        else y
    ensures Next(s, Wakeup(p, k)) == s.(t := Next(s, Wakeup(p, k)).t)
  {
  }

  /** Every entry after exit: the caller is a zombie, its children are init's, and its parent is woken if it sleeps
      in wait, as is init if one of the children is a zombie. */
  lemma ExitDoes(s: State, p: int, x: int)
    requires Slots(s) && Enabled(s, Exit(p)) && p != s.init && 0 <= x < |s.t|
    ensures |Next(s, Exit(p)).t| == |s.t|
    ensures var y := s.t[x];
      Next(s, Exit(p)).t[x] == Proc(
        if x == p then ZOMBIE else if y.state == SLEEPING && ExitWakes(s, p, y.chan) then RUNNABLE else y.state,
        y.pid, if y.parent == p then s.init else y.parent, y.chan, y.killed, y.place)
  {
  }

  ghost predicate ExitWakes(s: State, p: int, chan: Chan)
    requires 0 <= p < |s.t|
  {
    chan == OfProc(s.t[p].parent) || (chan == OfProc(s.init) && exists k :: ZombieChild(s.t, p, k))
  }

  // ----- Sleeping and waking

  /** The step wakes x: a wakeup on its address, a kill that finds it, or an exit that it waits for. */
  ghost predicate Rouses(s: State, a: Action, x: int)
    requires 0 <= x < |s.t|
  {
    match a
    case Wakeup(_, k) => s.t[x].chan == Other(k)
    case Kill(_, pid) => FirstWith(s.t, pid, x)
    case Exit(p) => 0 <= p < |s.t| && p != s.init && ExitWakes(s, p, s.t[x].chan)
    case _ => false
  }

  /** A sleeper sleeps on, on the same address, until a step wakes it; then it is runnable. */
  lemma SleepStep(s: State, a: Action, x: int)
    requires Inv(s) && Enabled(s, a) && 0 <= x < |s.t| && s.t[x].state == SLEEPING
    ensures |Next(s, a).t| == |s.t|
    ensures var y, z := s.t[x], Next(s, a).t[x];
      && z.state == (if Rouses(s, a, x) then RUNNABLE else SLEEPING)
      && z.chan == y.chan && z.pid == y.pid && z.place == y.place
  {
    hide LogsOk, PidsApart, NoZombie, FirstUnused, FirstPid, Exited;
    match a
    case Kill(p, pid) => KillDoes(s, p, pid, x);
    case Wakeup(p, k) => WakeupDoes(s, p, k, x);
    case Exit(p) =>
      if p != s.init {
        ExitDoes(s, p, x);
      }
    case ForkFail(p) =>
      assert PlaceOk(s, p) && SlotOk(s, s.t[p].place.np);
    case ForkLink(p) =>
      assert PlaceOk(s, p) && SlotOk(s, s.t[p].place.np);
    case ForkDone(p) =>
      assert PlaceOk(s, p) && SlotOk(s, s.t[p].place.np);
    case WaitPass(p) =>
      if WaitSpec(s.t, p).Reaped? {
        assert ZombieChild(s.t, p, WaitSpec(s.t, p).i);
      }
    case _ =>
  }

  ghost predicate Undisturbed(states: seq<State>, acts: seq<Action>, i: int, j: int, x: int)
    requires 0 <= i <= j <= |acts| < |states|
  {
    forall h :: i <= h < j ==> 0 <= x < |states[h].t| && !Rouses(states[h], acts[h], x)
  }

  /** Over any run: who is asleep at i is asleep at j, on the same address, if no step in between wakes it. */
  lemma {:induction false} SleepsOn(states: seq<State>, acts: seq<Action>, n: int, i: int, j: int, x: int)
    requires IsRun(states, acts, n) && 0 <= i <= j < |states| && 0 <= x < n == |states[i].t|
    requires states[i].t[x].state == SLEEPING && Undisturbed(states, acts, i, j, x)
    ensures |states[j].t| == n && states[j].t[x].state == SLEEPING && states[j].t[x].chan == states[i].t[x].chan
    ensures states[j].t[x].place == states[i].t[x].place && states[j].t[x].pid == states[i].t[x].pid
    decreases j
  {
    hide Inv, Enabled, Next, Rouses;
    if i < j {
      SleepsOn(states, acts, n, i, j - 1, x);
      RunStep(states, acts, n, j - 1);
      SleepStep(states[j - 1], acts[j - 1], x);
    }
  }

  /** And the first step that wakes it makes it runnable. */
  lemma WakesUp(states: seq<State>, acts: seq<Action>, n: int, i: int, j: int, x: int)
    requires IsRun(states, acts, n) && 0 <= i <= j < |acts| && 0 <= x < n == |states[i].t|
    requires states[i].t[x].state == SLEEPING && Undisturbed(states, acts, i, j, x)
    requires |states[j].t| == n && Rouses(states[j], acts[j], x)
    ensures |states[j + 1].t| == n && states[j + 1].t[x].state == RUNNABLE
  {
    hide Inv, Enabled, Next, Rouses, IsRun;
    RunShape(states, acts, n);
    SleepsOn(states, acts, n, i, j, x);
    RunStep(states, acts, n, j);
    SleepStep(states[j], acts[j], x);
  }

  /** sleep on an address: asleep there, and nobody else is affected. */
  lemma SleepDoes(s: State, p: int, k: int, x: int)
    requires Slots(s) && Enabled(s, SleepOn(p, k)) && 0 <= x < |s.t|
    ensures var t := Next(s, SleepOn(p, k));
      && |t.t| == |s.t| && t == s.(t := t.t)
      && if x == p then t.t[x].state == SLEEPING && t.t[x].chan == Other(k) && t.t[x].pid == s.t[x].pid &&
        t.t[x].place == s.t[x].place else t.t[x] == s.t[x]
  {
  }

  // ----- A killed process leaves wait

  /** kill finds x asleep in wait: x runs again, and its next pass takes it out of wait. */
  lemma KilledWaiterLeaves(states: seq<State>, acts: seq<Action>, n: int, p: int, x: int) returns (more: seq<State>)
    requires IsRun(states, acts, n)
    requires var s := states[|acts|];
      && !s.panicked && InUser(s, p) && 0 <= x < |s.t|
      && s.t[x].state == SLEEPING && s.t[x].place == InWait
    ensures IsRun(more, acts + [Kill(p, states[|acts|].t[x].pid), Pick(x), WaitPass(x)], n)
    ensures states <= more && InUser(more[|acts| + 3], x)
  {
    var s := states[|acts|];
    RunInvLast(states, acts, n);
    var s1, s2 := KillThenPick(s, p, x);
    var run, done := states + [s1, s2], acts + [Kill(p, s.t[x].pid), Pick(x)];
    hide Inv, Next, Enabled, Initial;
    assert forall i :: 0 <= i < |acts| ==> IsStep(states[i], acts[i], states[i + 1]);
    assert IsRun(run, done, n);
    WaitReturns(run, done, n, x);
    RunInvLast(run, done, n);
    var s3 := Next(s2, WaitPass(x));
    more := run + [s3];
    assert IsStep(s2, WaitPass(x), s3) by { WaitNext(s2, x); }
    assert done + [WaitPass(x)] == acts + [Kill(p, s.t[x].pid), Pick(x), WaitPass(x)];
    forall i | 0 <= i < |done + [WaitPass(x)]|
      ensures IsStep(more[i], (done + [WaitPass(x)])[i], more[i + 1])
    {
      if i < |done| {
        assert IsStep(run[i], done[i], run[i + 1]);
      }
    }
  }

  lemma WaitNext(s: State, x: int)
    requires Slots(s) && !s.panicked && IsRunning(s, x) && s.t[x].place == InWait
    ensures Enabled(s, WaitPass(x))
  {
  }

  lemma KillThenPick(s: State, p: int, x: int) returns (s1: State, s2: State)
    requires Inv(s) && !s.panicked && InUser(s, p) && 0 <= x < |s.t|
    requires s.t[x].state == SLEEPING && s.t[x].place == InWait
    ensures IsStep(s, Kill(p, s.t[x].pid), s1) && IsStep(s1, Pick(x), s2)
    ensures Slots(s2) && !s2.panicked && IsRunning(s2, x) && s2.t[x].place == InWait
  {
    hide LogsOk, PidsApart, NoZombie, PlaceOk;
    assert SlotOk(s, x);
    FoundByPid(s, x);
    s1 := Next(s, Kill(p, s.t[x].pid));
    s2 := Next(s1, Pick(x));
  }

  // ----- fork

  /** p builds a child with this pid at x. */
  ghost predicate Building(s: State, p: int, x: int, pid: int) {
    && 0 <= p < |s.t| && 0 <= x < |s.t| && p != x
    && s.t[x].state == EMBRYO && s.t[x].pid == pid
    && (s.t[p].place == InFork(x) || (s.t[p].place == ForkLinked(x) && s.t[x].parent == p))
  }

  /** Two processes in fork build at different entries, none of which is a process. */
  lemma BuildersApart(s: State, p: int, x: int, q: int)
    requires Inv(s) && 0 <= p < |s.t| && 0 <= q < |s.t|
    requires s.t[p].place == InFork(x) || s.t[p].place == ForkLinked(x)
    requires s.t[q].place.InFork? || s.t[q].place.ForkLinked?
    ensures 0 <= x < |s.t| && 0 <= s.t[q].place.np < |s.t| && s.t[x].state == s.t[s.t[q].place.np].state == EMBRYO
    ensures Live(s.t[p]) && Live(s.t[q]) && (p != q ==> s.t[q].place.np != x)
    ensures Slots(s) && s.t[x].parent == if s.t[p].place.InFork? then -1 else p
  {
    hide LogsOk, PidsApart, NoZombie;
    assert PlaceOk(s, p) && PlaceOk(s, q) && SlotOk(s, x) && SlotOk(s, s.t[q].place.np);
  }

  /** No other process, and no step of p but the last of fork, disturbs the child in the making. */
  lemma BuildStep(s: State, a: Action, p: int, x: int, pid: int)
    requires Inv(s) && Enabled(s, a) && Building(s, p, x, pid) && a != ForkDone(p) && a != ForkFail(p)
    ensures Building(Next(s, a), p, x, pid)
  {
    hide LogsOk, PidsApart, NoZombie, FirstUnused, FirstPid, Exited, SlotOk, PlaceOk;
    match a
    case ForkFail(q) => BuildersApart(s, p, x, q);
    case ForkLink(q) => BuildersApart(s, p, x, q);
    case ForkDone(q) => BuildersApart(s, p, x, q);
    case _ =>
      BuildersApart(s, p, x, p);
      hide Inv;
      assert (a.Exit? || a.WaitPass?) ==> 0 <= a.p < |s.t| && a.p != p;
      if a.Exit? || a.WaitPass? {
        BuildPasses(s, a, p, x, pid);
      }
  }

  lemma BuildPasses(s: State, a: Action, p: int, x: int, pid: int)
    requires Slots(s) && Enabled(s, a) && Building(s, p, x, pid) && (a.Exit? || a.WaitPass?) && s.t[x].parent != a.p
    ensures Building(Next(s, a), p, x, pid)
  {
    hide FirstUnused, FirstPid, Exited;
    if a.Exit? {
      if a.p != s.init {
        ExitDoes(s, a.p, x);
        ExitDoes(s, a.p, p);
      }
    } else if WaitSpec(s.t, a.p).Reaped? {
      assert ZombieChild(s.t, a.p, WaitSpec(s.t, a.p).i);
    }
  }

  lemma {:induction false} BuildsOn(states: seq<State>, acts: seq<Action>, n: int, i: int, j: int, p: int)
    requires IsRun(states, acts, n) && 0 <= i < j < |states| && acts[i] == ForkAlloc(p)
    requires FirstUnused(states[i].t) != -1
    requires forall h :: i < h < j ==> acts[h] != ForkDone(p) && acts[h] != ForkFail(p)
    ensures Building(states[j], p, FirstUnused(states[i].t), states[i].nextpid)
    decreases j
  {
    hide Inv, Enabled, Next, Building, FirstUnused;
    RunStep(states, acts, n, j - 1);
    if j == i + 1 {
      BuildStarts(states[i], p);
    } else {
      BuildsOn(states, acts, n, i, j - 1, p);
      BuildStep(states[j - 1], acts[j - 1], p, FirstUnused(states[i].t), states[i].nextpid);
    }
  }

  lemma BuildStarts(s: State, p: int)
    requires Slots(s) && Enabled(s, ForkAlloc(p)) && FirstUnused(s.t) != -1
    ensures Building(Next(s, ForkAlloc(p)), p, FirstUnused(s.t), s.nextpid)
    ensures Next(s, ForkAlloc(p)).nextpid == s.nextpid + 1
  {
    hide FirstUnused;
  }

  /** fork, from taking the first unused entry to its end, whatever other processes do in between: the child is there,
      runnable, with the pid that was next and the caller for parent, and the caller is back in user code. */
  lemma ForkMakesChild(states: seq<State>, acts: seq<Action>, n: int, i: int, j: int, p: int)
    requires IsRun(states, acts, n) && 0 <= i < j < |acts| && acts[i] == ForkAlloc(p) && acts[j] == ForkDone(p)
    requires FirstUnused(states[i].t) != -1
    requires forall h :: i < h < j ==> acts[h] != ForkDone(p) && acts[h] != ForkFail(p)
    ensures var t, x := states[j + 1].t, FirstUnused(states[i].t);
      && 0 <= p < |t| && 0 <= x < |t|
      && t[x].state == RUNNABLE && t[x].pid == states[i].nextpid && t[x].parent == p && t[x].place == User
      && t[p].state == RUNNING && t[p].place == User
  {
    BuildsOn(states, acts, n, i, j, p);
    RunStep(states, acts, n, j);
    hide Inv, IsRun, FirstUnused;
  }
}
