/** Process-table safety over every interleaving of fork, exit, wait, kill, sleep, wakeup and the scheduler (proc.c). */
module ProcRuns {
  // A step is one critical section under ptable.lock, or one of fork's stores outside it.

  import opened ProcTable

  /** exited and reaped record, in order, the pids that have exited and that wait has returned.
      forker says for each slot which process is building a child there. */
  datatype State = State(t: Table, nextpid: int, init: int, panicked: bool, forker: seq<int>, exited: seq<int>,
      reaped: seq<int>)

  datatype Action =
    | Pick(p: int) | Yield(p: int)
    | ForkAlloc(p: int) | ForkFail(p: int) | ForkLink(p: int) | ForkDone(p: int)
    | Exit(p: int) | WaitPass(p: int)
    | Kill(p: int, pid: int)
    | SleepOn(p: int, k: int) | Wakeup(p: int, k: int)

  ghost predicate Initial(s: State, n: int) {
    && 0 < n && |s.t| == |s.forker| == n && s.nextpid == 2 && s.init == 0 && !s.panicked && s.exited == s.reaped == []
    && s.t[0] == Proc(RUNNABLE, 1, -1, NoChan, false, User)
    && forall k :: 0 <= k < n ==> s.forker[k] == -1 && (k > 0 ==> s.t[k] == Proc(UNUSED, 0, -1, NoChan, false, User))
  }

  predicate IsRunning(s: State, p: int) {
    0 <= p < |s.t| && s.t[p].state == RUNNING
  }

  predicate InUser(s: State, p: int) {
    IsRunning(s, p) && s.t[p].place == User
  }

  predicate Slots(s: State) {
    && |s.forker| == |s.t|
    && forall p :: 0 <= p < |s.t| && (s.t[p].place.InFork? || s.t[p].place.ForkLinked?) ==> 0 <= s.t[p].place.np < |s.t|
  }

  predicate Enabled(s: State, a: Action) {
    && !s.panicked
    && match a
       case Pick(p) => 0 <= p < |s.t| && s.t[p].state == RUNNABLE
       case Yield(p) => IsRunning(s, p)
       case ForkAlloc(p) => InUser(s, p)
       case ForkFail(p) => IsRunning(s, p) && s.t[p].place.InFork?
       case ForkLink(p) => IsRunning(s, p) && s.t[p].place.InFork?
       case ForkDone(p) => IsRunning(s, p) && s.t[p].place.ForkLinked?
       case Exit(p) => InUser(s, p)
       case WaitPass(p) => IsRunning(s, p) && (s.t[p].place == User || s.t[p].place == InWait)
       case Kill(p, pid) => InUser(s, p)
       case SleepOn(p, k) => InUser(s, p)
       case Wakeup(p, k) => InUser(s, p)
  }

  ghost function Next(s: State, a: Action): State
    requires Slots(s) && Enabled(s, a)
  {
    match a
    case Pick(p) => s.(t := s.t[p := s.t[p].(state := RUNNING)])
    case Yield(p) => s.(t := s.t[p := s.t[p].(state := RUNNABLE)])
    case ForkAlloc(p) => AfterAlloc(s, p, FirstUnused(s.t))
    case ForkFail(p) =>
      var i := s.t[p].place.np;
      s.(t := s.t[i := s.t[i].(state := UNUSED)][p := s.t[p].(place := User)], forker := s.forker[i := -1])
    case ForkLink(p) =>
      var i := s.t[p].place.np;
      s.(t := s.t[i := s.t[i].(parent := p)][p := s.t[p].(place := ForkLinked(i))])
    case ForkDone(p) =>
      var i := s.t[p].place.np;
      s.(t := s.t[i := s.t[i].(state := RUNNABLE, place := User)][p := s.t[p].(place := User)],
        forker := s.forker[i := -1])
    case Exit(p) => if p == s.init then s.(panicked := true)
      else s.(t := Exited(s.t, p, s.init), exited := s.exited + [s.t[p].pid])
    case WaitPass(p) => AfterWait(s, p, WaitSpec(s.t, p))
    case Kill(p, pid) =>
      var i := FirstPid(s.t, pid, 0);
      if i == -1 then s else s.(t := s.t[i := Struck(s.t[i])])
    case SleepOn(p, k) => s.(t := s.t[p := s.t[p].(state := SLEEPING, chan := Other(k))])
    case Wakeup(p, k) => s.(t := Wakeup1(s.t, Other(k)))
  }

  function AfterAlloc(s: State, p: int, i: int): State
    requires 0 <= p < |s.t| == |s.forker| && i == FirstUnused(s.t)
  {
    if i == -1 then s
    else s.(t := s.t[i := Embryo(s.t[i], s.nextpid)][p := s.t[p].(place := InFork(i))],
            nextpid := s.nextpid + 1, forker := s.forker[i := p])
  }

  function AfterWait(s: State, p: int, r: WaitResult): State
    requires 0 <= p < |s.t| && r == WaitSpec(s.t, p)
  {
    var awake := s.t[p].(place := User, chan := NoChan);
    match r
    case Reaped(i, pid) => s.(t := s.t[p := awake][i := Reset(s.t[p := awake][i])], reaped := s.reaped + [pid])
    case Nothing => s.(t := s.t[p := awake])
    case Sleeps => s.(t := s.t[p := s.t[p].(state := SLEEPING, chan := OfProc(p), place := InWait)])
  }

  // ----- The invariant

  predicate Live(x: Proc) {
    x.state == RUNNABLE || x.state == RUNNING || x.state == SLEEPING
  }

  ghost predicate SlotOk(s: State, q: int)
    requires 0 <= q < |s.t| == |s.forker| && 0 <= s.init < |s.t|
  {
    var x, f := s.t[q], s.forker[q];
    && x.pid < s.nextpid && (x.state != UNUSED ==> x.pid > 0) && x.pid >= 0
    && (x.state == EMBRYO <==> f != -1)
    && (x.state == UNUSED ==> x.parent == -1)
    && (x.state == EMBRYO ==>
      0 <= f < |s.t| && Live(s.t[f]) && s.t[f].place == (if x.parent == -1 then InFork(q) else ForkLinked(q)))
    && (x.state == EMBRYO ==> x.parent == -1 || x.parent == f)
    && ((Live(x) || x.state == ZOMBIE) && q != s.init ==> 0 <= x.parent < |s.t| && x.parent != q && Live(s.t[x.parent]))
    && (q == s.init ==> Live(x) && x.parent == -1)
  }

  ghost predicate NoZombie(t: Table, p: int) {
    forall k :: !ZombieChild(t, p, k)
  }

  ghost predicate PlaceOk(s: State, p: int)
    requires 0 <= p < |s.t| == |s.forker|
  {
    var x := s.t[p];
    && (x.place.InFork? || x.place.ForkLinked? ==> Live(x) && 0 <= x.place.np < |s.t| && s.forker[x.place.np] == p)
    && (x.state == SLEEPING && x.chan.OfProc? ==> x.chan == OfProc(p) && x.place == InWait && NoZombie(s.t, p))
  }

  ghost predicate PidsApart(t: Table) {
    forall i, j :: 0 <= i < j < |t| && t[i].pid != 0 ==> t[i].pid != t[j].pid
  }

  ghost predicate Once(l: seq<int>) {
    forall i, j :: 0 <= i < j < |l| ==> l[i] != l[j]
  }

  /** Who has exited is a zombie or has been reaped, and not both. */
  ghost predicate LogsOk(t: Table, nextpid: int, exited: seq<int>, reaped: seq<int>) {
    && Once(exited) && Once(reaped)
    && (forall pid :: pid in exited ==> 0 < pid < nextpid)
    && (forall pid :: pid in reaped ==> pid in exited)
    && (forall q :: 0 <= q < |t| ==> t[q].pid !in reaped)
    && (forall q :: 0 <= q < |t| ==> (t[q].pid in exited <==> t[q].state == ZOMBIE))
    && (forall pid :: pid in exited && pid !in reaped ==> Present(t, pid))
  }

  ghost predicate Present(t: Table, pid: int) {
    exists q :: 0 <= q < |t| && t[q].pid == pid
  }

  ghost predicate Inv(s: State) {
    && Slots(s) && 0 <= s.init < |s.t| && 0 < s.nextpid
    && (forall q :: 0 <= q < |s.t| ==> SlotOk(s, q))
    && (forall p :: 0 <= p < |s.t| ==> PlaceOk(s, p))
    && PidsApart(s.t)
    && LogsOk(s.t, s.nextpid, s.exited, s.reaped)
  }

  lemma InitialInv(s: State, n: int)
    requires Initial(s, n)
    ensures Inv(s)
  {
  }

  // ----- Steps

  /** Tables with the same pids and zombies have the same logs. */
  lemma LogsKept(t0: Table, t1: Table, nextpid: int, exited: seq<int>, reaped: seq<int>)
    requires LogsOk(t0, nextpid, exited, reaped) && PidsApart(t0) && |t1| == |t0|
    requires forall q :: 0 <= q < |t0| ==> t1[q].pid == t0[q].pid && (t1[q].state == ZOMBIE <==> t0[q].state == ZOMBIE)
    ensures LogsOk(t1, nextpid, exited, reaped) && PidsApart(t1)
  {
    forall pid | Present(t0, pid)
      ensures Present(t1, pid)
    {
      var q :| 0 <= q < |t0| && t0[q].pid == pid;
      assert t1[q].pid == pid;
    }
  }

  lemma NoZombieKept(t0: Table, t1: Table, p: int)
    requires NoZombie(t0, p) && |t1| == |t0|
    requires forall k :: 0 <= k < |t0| && t1[k].parent == p && t1[k].state == ZOMBIE ==>
      t0[k].parent == p && t0[k].state == ZOMBIE
    ensures NoZombie(t1, p)
  {
    assert forall k :: ZombieChild(t1, p, k) ==> ZombieChild(t0, p, k);
  }

  /** Only between running, runnable and asleep has anything changed, and nobody has gone to sleep. */
  ghost predicate Similar(x: Proc, y: Proc) {
    && y.pid == x.pid && y.parent == x.parent && y.place == x.place
    && (Live(x) <==> Live(y)) && (!Live(x) ==> y.state == x.state)
    && (y.state == SLEEPING ==> x.state == SLEEPING && y.chan == x.chan)
  }

  lemma SimilarKeeps(s: State, t: State)
    requires Inv(s) && t == s.(t := t.t) && |t.t| == |s.t| && forall q :: 0 <= q < |s.t| ==> Similar(s.t[q], t.t[q])
    ensures Inv(t)
  {
    LogsKept(s.t, t.t, s.nextpid, s.exited, s.reaped);
    forall q | 0 <= q < |t.t|
      ensures SlotOk(t, q) && PlaceOk(t, q)
    {
      assert SlotOk(s, q) && PlaceOk(s, q);
      if NoZombie(s.t, q) {
        NoZombieKept(s.t, t.t, q);
      }
      hide NoZombie;
    }
    hide LogsOk, PidsApart;
  }

  lemma KeepSimilar(s: State, a: Action)
    requires Inv(s) && Enabled(s, a) && (a.Pick? || a.Yield? || a.Kill? || a.Wakeup?)
    ensures Inv(Next(s, a))
  {
    var t := Next(s, a);
    hide Inv;
    if t != s {
      SimilarKeeps(s, t);
    }
  }

  /** p alone changes: it goes to sleep on an address that is no process, or is back from wait. */
  lemma OneKeeps(s: State, t: State, p: int, y: Proc)
    requires Inv(s) && IsRunning(s, p) && (s.t[p].place == User || s.t[p].place == InWait) && t == s.(t := s.t[p := y])
    requires Live(y) && y.pid == s.t[p].pid && y.parent == s.t[p].parent && (y.place == User || y.place == InWait)
    requires y.state == SLEEPING && y.chan.OfProc? ==> y.chan == OfProc(p) && y.place == InWait && NoZombie(s.t, p)
    ensures Inv(t)
  {
    LogsKept(s.t, t.t, s.nextpid, s.exited, s.reaped);
    forall q | 0 <= q < |t.t|
      ensures SlotOk(t, q) && PlaceOk(t, q)
    {
      assert SlotOk(s, q) && PlaceOk(s, q);
      if NoZombie(s.t, q) {
        NoZombieKept(s.t, t.t, q);
      }
      hide NoZombie;
    }
    hide LogsOk, PidsApart;
  }

  lemma KeepSleepOn(s: State, p: int, k: int)
    requires Inv(s) && Enabled(s, SleepOn(p, k))
    ensures Inv(Next(s, SleepOn(p, k)))
  {
    hide SlotOk, PlaceOk, LogsOk, PidsApart;
    OneKeeps(s, Next(s, SleepOn(p, k)), p, s.t[p].(state := SLEEPING, chan := Other(k)));
  }

  lemma KeepWaitOut(s: State, p: int)
    requires Inv(s) && Enabled(s, WaitPass(p)) && !WaitSpec(s.t, p).Reaped?
    ensures Inv(Next(s, WaitPass(p)))
  {
    var t := Next(s, WaitPass(p));
    assert NoZombie(s.t, p);
    hide Inv;
    OneKeeps(s, t, p, t.t[p]);
  }

  /** A zombie child of p leaves the table. It has no children: they went to init when it exited. */
  lemma KeepReap(s: State, p: int)
    requires Inv(s) && Enabled(s, WaitPass(p)) && WaitSpec(s.t, p).Reaped?
    ensures Inv(Next(s, WaitPass(p)))
  {
    var y := s.t[p].(place := User, chan := NoChan);
    var s1 := s.(t := s.t[p := y]);
    OneKeeps(s, s1, p, y);
    var i := FirstZombie(s.t, p);
    assert ZombieChild(s.t, p, i);
    hide Inv;
    ReapKeeps(s1, i);
  }

  lemma ReapKeeps(s: State, i: int)
    requires Inv(s) && 0 <= i < |s.t| && s.t[i].state == ZOMBIE
    ensures Inv(s.(t := s.t[i := Reset(s.t[i])], reaped := s.reaped + [s.t[i].pid]))
  {
    var t := s.(t := s.t[i := Reset(s.t[i])], reaped := s.reaped + [s.t[i].pid]);
    assert SlotOk(s, i) && PlaceOk(s, i);
    forall q | 0 <= q < |t.t|
      ensures SlotOk(t, q) && PlaceOk(t, q)
    {
      assert SlotOk(s, q) && PlaceOk(s, q);
      if NoZombie(s.t, q) {
        NoZombieKept(s.t, t.t, q);
      }
      hide NoZombie, LogsOk, PidsApart;
    }
    ReapLogs(s.t, s.nextpid, s.exited, s.reaped, i);
  }

  lemma ReapLogs(t0: Table, nextpid: int, exited: seq<int>, reaped: seq<int>, i: int)
    requires LogsOk(t0, nextpid, exited, reaped) && PidsApart(t0) && 0 <= i < |t0| && t0[i].state == ZOMBIE &&
      t0[i].pid > 0
    ensures LogsOk(t0[i := Reset(t0[i])], nextpid, exited, reaped + [t0[i].pid]) && PidsApart(t0[i := Reset(t0[i])])
  {
    var t1 := t0[i := Reset(t0[i])];
    forall q | 0 <= q < |t1|
      ensures t1[q].pid !in reaped + [t0[i].pid]
    {
    }
    forall pid | Present(t0, pid) && pid != t0[i].pid
      ensures Present(t1, pid)
    {
      var q :| 0 <= q < |t0| && t0[q].pid == pid;
      assert t1[q].pid == pid;
    }
  }

  /** A fresh pid, and a slot that was nobody's child. */
  lemma KeepAlloc(s: State, p: int)
    requires Inv(s) && Enabled(s, ForkAlloc(p))
    ensures Inv(Next(s, ForkAlloc(p)))
  {
    hide SlotOk, PlaceOk, LogsOk, PidsApart;
    var i := FirstUnused(s.t);
    if i != -1 {
      var t := Next(s, ForkAlloc(p));
      PidBounds(s);
      AllocLogs(s.t, t.t, s.nextpid, s.exited, s.reaped, i);
      AllocSlots(s, p, i);
      AllocPlaces(s, p, i);
    }
  }

  lemma PidBounds(s: State)
    requires Inv(s)
    ensures forall q :: 0 <= q < |s.t| ==> s.t[q].pid < s.nextpid && (s.t[q].state != UNUSED ==> 0 < s.t[q].pid)
  {
    hide PlaceOk, LogsOk, PidsApart;
    forall q | 0 <= q < |s.t|
      ensures s.t[q].pid < s.nextpid && (s.t[q].state != UNUSED ==> 0 < s.t[q].pid)
    {
      assert SlotOk(s, q);
    }
  }

  lemma AllocSlots(s: State, p: int, i: int)
    requires Inv(s) && Enabled(s, ForkAlloc(p)) && i == FirstUnused(s.t) != -1
    ensures forall q :: 0 <= q < |s.t| ==> SlotOk(AfterAlloc(s, p, i), q)
  {
    hide LogsOk, PidsApart, NoZombie, FirstUnused;
    var t := AfterAlloc(s, p, i);
    assert SlotOk(s, i) && SlotOk(s, p) && PlaceOk(s, p);
    forall q | 0 <= q < |t.t|
      ensures SlotOk(t, q)
    {
      assert SlotOk(s, q);
    }
  }

  lemma AllocPlaces(s: State, p: int, i: int)
    requires Inv(s) && Enabled(s, ForkAlloc(p)) && i == FirstUnused(s.t) != -1
    ensures forall q :: 0 <= q < |s.t| ==> PlaceOk(AfterAlloc(s, p, i), q)
  {
    hide LogsOk, PidsApart, NoZombie, FirstUnused;
    var t := AfterAlloc(s, p, i);
    assert SlotOk(s, i) && PlaceOk(s, i) && PlaceOk(s, p);
    forall q | 0 <= q < |t.t|
      ensures PlaceOk(t, q)
    {
      assert PlaceOk(s, q);
      if NoZombie(s.t, q) {
        NoZombieKept(s.t, t.t, q);
      }
    }
  }

  lemma AllocLogs(t0: Table, t1: Table, nextpid: int, exited: seq<int>, reaped: seq<int>, i: int)
    requires LogsOk(t0, nextpid, exited, reaped) && PidsApart(t0) && |t1| == |t0| && 0 <= i < |t0| && 0 < nextpid
    requires t0[i].state != ZOMBIE && t1[i].state != ZOMBIE && t1[i].pid == nextpid && forall q :: 0 <= q < |t0| ==>
      t0[q].pid < nextpid
    requires forall q :: 0 <= q < |t0| && q != i ==> t1[q].pid == t0[q].pid && t1[q].state == t0[q].state
    ensures LogsOk(t1, nextpid + 1, exited, reaped) && PidsApart(t1)
  {
    forall pid | Present(t0, pid) && pid in exited
      ensures Present(t1, pid)
    {
      var q :| 0 <= q < |t0| && t0[q].pid == pid;
      assert t1[q].pid == pid;
    }
  }

  lemma FailSlots(s: State, p: int)
    requires Inv(s) && Enabled(s, ForkFail(p))
    ensures Slots(Next(s, ForkFail(p))) && forall q :: 0 <= q < |s.t| ==> SlotOk(Next(s, ForkFail(p)), q)
  {
    hide LogsOk, PidsApart, NoZombie;
    var t, i := Next(s, ForkFail(p)), s.t[p].place.np;
    assert PlaceOk(s, p) && SlotOk(s, i) && SlotOk(s, p);
    forall q | 0 <= q < |t.t|
      ensures SlotOk(t, q)
    {
      assert SlotOk(s, q);
    }
  }

  lemma KeepFail(s: State, p: int)
    requires Inv(s) && Enabled(s, ForkFail(p))
    ensures Inv(Next(s, ForkFail(p)))
  {
    hide LogsOk, PidsApart, NoZombie;
    FailSlots(s, p);
    var t, i := Next(s, ForkFail(p)), s.t[p].place.np;
    assert PlaceOk(s, p) && PlaceOk(s, i) && SlotOk(s, i);
    LogsKept(s.t, t.t, s.nextpid, s.exited, s.reaped);
    forall q | 0 <= q < |t.t|
      ensures PlaceOk(t, q)
    {
      assert PlaceOk(s, q);
      if NoZombie(s.t, q) {
        NoZombieKept(s.t, t.t, q);
      }
    }
  }

  lemma LinkSlots(s: State, p: int)
    requires Inv(s) && Enabled(s, ForkLink(p))
    ensures Slots(Next(s, ForkLink(p))) && forall q :: 0 <= q < |s.t| ==> SlotOk(Next(s, ForkLink(p)), q)
  {
    hide LogsOk, PidsApart, NoZombie;
    var t, i := Next(s, ForkLink(p)), s.t[p].place.np;
    assert PlaceOk(s, p) && SlotOk(s, i) && SlotOk(s, p);
    forall q | 0 <= q < |t.t|
      ensures SlotOk(t, q)
    {
      assert SlotOk(s, q);
    }
  }

  lemma KeepLink(s: State, p: int)
    requires Inv(s) && Enabled(s, ForkLink(p))
    ensures Inv(Next(s, ForkLink(p)))
  {
    hide LogsOk, PidsApart, NoZombie;
    LinkSlots(s, p);
    var t, i := Next(s, ForkLink(p)), s.t[p].place.np;
    assert PlaceOk(s, p) && PlaceOk(s, i) && SlotOk(s, i);
    LogsKept(s.t, t.t, s.nextpid, s.exited, s.reaped);
    forall q | 0 <= q < |t.t|
      ensures PlaceOk(t, q)
    {
      assert PlaceOk(s, q);
      if NoZombie(s.t, q) {
        NoZombieKept(s.t, t.t, q);
      }
    }
  }

  lemma DoneSlots(s: State, p: int)
    requires Inv(s) && Enabled(s, ForkDone(p))
    ensures Slots(Next(s, ForkDone(p))) && forall q :: 0 <= q < |s.t| ==> SlotOk(Next(s, ForkDone(p)), q)
  {
    hide LogsOk, PidsApart, NoZombie;
    var t, i := Next(s, ForkDone(p)), s.t[p].place.np;
    assert PlaceOk(s, p) && SlotOk(s, i) && SlotOk(s, p);
    forall q | 0 <= q < |t.t|
      ensures SlotOk(t, q)
    {
      assert SlotOk(s, q);
    }
  }

  lemma KeepDone(s: State, p: int)
    requires Inv(s) && Enabled(s, ForkDone(p))
    ensures Inv(Next(s, ForkDone(p)))
  {
    hide LogsOk, PidsApart, NoZombie;
    DoneSlots(s, p);
    var t, i := Next(s, ForkDone(p)), s.t[p].place.np;
    assert PlaceOk(s, p) && PlaceOk(s, i) && SlotOk(s, i);
    LogsKept(s.t, t.t, s.nextpid, s.exited, s.reaped);
    forall q | 0 <= q < |t.t|
      ensures PlaceOk(t, q)
    {
      assert PlaceOk(s, q);
      if NoZombie(s.t, q) {
        NoZombieKept(s.t, t.t, q);
      }
    }
  }

  // ----- exit

  /** One entry after exit. */
  lemma ExitedAt(t: Table, me: int, init: int, q: int)
    requires 0 <= me < |t| && 0 <= q < |t|
    ensures var x, y := t[q], Exited(t, me, init)[q];
      && y.pid == x.pid && y.place == x.place && y.chan == x.chan
      && y.parent == (if x.parent == me then init else x.parent)
      && (q == me ==> y.state == ZOMBIE)
      && (q != me ==> Live(x) == Live(y) && (!Live(x) ==> y.state == x.state))
      && (y.state == SLEEPING ==> x.state == SLEEPING && x.chan != OfProc(t[me].parent))
      && (y.state == SLEEPING && x.chan == OfProc(init) ==> NoZombie(t, me))
  {
  }

  lemma ExitSlot(s: State, p: int, q: int)
    requires Inv(s) && Enabled(s, Exit(p)) && p != s.init && 0 <= q < |s.t|
    ensures SlotOk(Next(s, Exit(p)), q)
  {
    hide LogsOk, PidsApart, NoZombie, Exited;
    assert SlotOk(s, q) && SlotOk(s, p) && SlotOk(s, s.init);
    ExitedAt(s.t, p, s.init, q);
    ExitedAt(s.t, p, s.init, s.init);
    if 0 <= s.t[q].parent < |s.t| {
      ExitedAt(s.t, p, s.init, s.t[q].parent);
    }
    if 0 <= s.forker[q] < |s.t| {
      ExitedAt(s.t, p, s.init, s.forker[q]);
    }
  }

  /** No process is left asleep in wait with a zombie: neither the parent, nor init, nor anybody else. */
  lemma ExitPlace(s: State, p: int, q: int)
    requires Inv(s) && Enabled(s, Exit(p)) && p != s.init && 0 <= q < |s.t|
    ensures PlaceOk(Next(s, Exit(p)), q)
  {
    hide LogsOk, PidsApart, Exited;
    var t := Next(s, Exit(p));
    assert PlaceOk(s, q) && SlotOk(s, p) && SlotOk(s, q);
    ExitedAt(s.t, p, s.init, q);
    if t.t[q].state == SLEEPING && t.t[q].chan.OfProc? {
      forall k | 0 <= k < |s.t| && t.t[k].parent == q
        ensures t.t[k].state != ZOMBIE
      {
        ExitedAt(s.t, p, s.init, k);
        assert !ZombieChild(s.t, q, k);
        assert q == s.init ==> !ZombieChild(s.t, p, k);
      }
    }
  }

  lemma KeepExit(s: State, p: int)
    requires Inv(s) && Enabled(s, Exit(p))
    ensures Inv(Next(s, Exit(p)))
  {
    hide SlotOk, PlaceOk, Exited, LogsOk, PidsApart;
    if p == s.init {
      SameButPanic(s);
    } else {
      var t := Next(s, Exit(p));
      PidBounds(s);
      forall q | 0 <= q < |s.t|
        ensures SlotOk(t, q) && PlaceOk(t, q)
        ensures t.t[q].pid == s.t[q].pid && t.t[q].place == s.t[q].place &&
          (t.t[q].state == ZOMBIE <==> s.t[q].state == ZOMBIE || q == p)
      {
        ExitSlot(s, p, q);
        ExitPlace(s, p, q);
        ExitedAt(s.t, p, s.init, q);
      }
      ExitLogs(s.t, t.t, s.nextpid, s.exited, s.reaped, p);
    }
  }

  lemma SameButPanic(s: State)
    requires Inv(s)
    ensures Inv(s.(panicked := true))
  {
    var t := s.(panicked := true);
    forall q | 0 <= q < |s.t|
      ensures SlotOk(t, q) && PlaceOk(t, q)
    {
      assert SlotOk(s, q) && PlaceOk(s, q);
    }
  }

  lemma ExitLogs(t0: Table, t1: Table, nextpid: int, exited: seq<int>, reaped: seq<int>, p: int)
    requires LogsOk(t0, nextpid, exited, reaped) && PidsApart(t0) && |t1| == |t0| && 0 <= p < |t0|
    requires t0[p].state != ZOMBIE && 0 < t0[p].pid < nextpid
    requires forall q :: 0 <= q < |t0| ==>
      t1[q].pid == t0[q].pid && (t1[q].state == ZOMBIE <==> t0[q].state == ZOMBIE || q == p)
    ensures LogsOk(t1, nextpid, exited + [t0[p].pid], reaped) && PidsApart(t1)
  {
    var exited' := exited + [t0[p].pid];
    forall pid | pid in exited' && pid !in reaped
      ensures Present(t1, pid)
    {
      if pid == t0[p].pid {
        assert t1[p].pid == pid;
      } else {
        assert Present(t0, pid);
        var q :| 0 <= q < |t0| && t0[q].pid == pid;
        assert t1[q].pid == pid;
      }
    }
  }

  // ----- Runs

  lemma StepKeepsInv(s: State, a: Action)
    requires Inv(s) && Enabled(s, a)
    ensures Inv(Next(s, a))
  {
    hide SlotOk, PlaceOk, LogsOk, PidsApart, Next;
    match a
    case Pick(p) => KeepSimilar(s, a);
    case Yield(p) => KeepSimilar(s, a);
    case ForkAlloc(p) => KeepAlloc(s, p);
    case ForkFail(p) => KeepFail(s, p);
    case ForkLink(p) => KeepLink(s, p);
    case ForkDone(p) => KeepDone(s, p);
    case Exit(p) => KeepExit(s, p);
    case WaitPass(p) =>
      if WaitSpec(s.t, p).Reaped? {
        KeepReap(s, p);
      } else {
        KeepWaitOut(s, p);
      }
    case Kill(p, pid) => KeepSimilar(s, a);
    case SleepOn(p, k) => KeepSleepOn(s, p, k);
    case Wakeup(p, k) => KeepSimilar(s, a);
  }

  ghost predicate IsStep(s: State, a: Action, t: State) {
    Slots(s) && Enabled(s, a) && t == Next(s, a)
  }

  /** A run from the state that userinit leaves. */
  ghost predicate IsRun(states: seq<State>, acts: seq<Action>, n: int) {
    && |states| == |acts| + 1 && Initial(states[0], n)
    && forall i :: 0 <= i < |acts| ==> IsStep(states[i], acts[i], states[i + 1])
  }

  lemma {:induction false} RunInv(states: seq<State>, acts: seq<Action>, n: int, i: int)
    requires IsRun(states, acts, n) && 0 <= i < |states|
    ensures Inv(states[i])
    decreases i
  {
    hide Inv, Initial, Next;
    if i == 0 {
      InitialInv(states[0], n);
    } else {
      RunInv(states, acts, n, i - 1);
      assert IsStep(states[i - 1], acts[i - 1], states[i - 1 + 1]);
      StepKeepsInv(states[i - 1], acts[i - 1]);
    }
  }

  /** Whatever runs, may run, sleeps or is a zombie has a parent that can still wait for it; only init has none, and
      init lives on. */
  lemma ParentsLive(states: seq<State>, acts: seq<Action>, n: int, i: int, q: int)
    requires IsRun(states, acts, n) && 0 <= i < |states| && 0 <= q < |states[i].t|
    requires var x := states[i].t[q]; Live(x) || x.state == ZOMBIE
    ensures var s := states[i];
      if q == s.init then Live(s.t[q]) else 0 <= s.t[q].parent < |s.t| && s.t[q].parent != q && Live(s.t[s.t[q].parent])
  {
    RunInv(states, acts, n, i);
    assert SlotOk(states[i], q);
  }

  /** A zombie's parent is never asleep in wait. */
  lemma NoZombieIsMissed(states: seq<State>, acts: seq<Action>, n: int, i: int, q: int)
    requires IsRun(states, acts, n) && 0 <= i < |states| && 0 <= q < |states[i].t| && states[i].t[q].state == ZOMBIE
    ensures var s := states[i];
      0 <= s.t[q].parent < |s.t| && !(s.t[s.t[q].parent].state == SLEEPING && s.t[s.t[q].parent].chan.OfProc?)
  {
    var s := states[i];
    RunInv(states, acts, n, i);
    assert SlotOk(s, q) && PlaceOk(s, s.t[q].parent);
    assert ZombieChild(s.t, s.t[q].parent, q);
  }

  /** No two processes have the same pid, and no pid is used again. */
  lemma PidsUnique(states: seq<State>, acts: seq<Action>, n: int, i: int, p: int, q: int)
    requires IsRun(states, acts, n) && 0 <= i < |states| && 0 <= p < |states[i].t| && 0 <= q < |states[i].t| && p != q
    requires states[i].t[p].state != UNUSED
    ensures states[i].t[p].pid != states[i].t[q].pid && states[i].t[p].pid !in states[i].reaped
  {
    RunInv(states, acts, n, i);
    PidBounds(states[i]);
    hide SlotOk, PlaceOk;
  }

  /** Every exit is reaped at most once, by a wait, and until then it is in the table as a zombie. */
  lemma ReapedOnce(states: seq<State>, acts: seq<Action>, n: int, i: int)
    requires IsRun(states, acts, n) && 0 <= i < |states|
    ensures var s := states[i];
      && Once(s.exited) && Once(s.reaped) && (forall pid :: pid in s.reaped ==> pid in s.exited)
      && forall pid :: pid in s.exited && pid !in s.reaped ==>
        exists q :: 0 <= q < |s.t| && s.t[q].pid == pid && s.t[q].state == ZOMBIE
  {
    var s := states[i];
    RunInv(states, acts, n, i);
    hide SlotOk, PlaceOk;
    forall pid | pid in s.exited && pid !in s.reaped
      ensures exists q :: 0 <= q < |s.t| && s.t[q].pid == pid && s.t[q].state == ZOMBIE
    {
      assert Present(s.t, pid);
      var q :| 0 <= q < |s.t| && s.t[q].pid == pid;
      assert s.t[q].state == ZOMBIE;
    }
  }

  /** wait gives up exactly when the caller has no child, or has been killed and no child is a zombie. */
  lemma WaitGivesUp(t: Table, me: int)
    requires 0 <= me < |t|
    ensures WaitSpec(t, me).Nothing? <==>
      (forall k :: 0 <= k < |t| ==> t[k].parent != me) ||
      (t[me].killed && forall k :: 0 <= k < |t| ==> !ZombieChild(t, me, k))
    ensures WaitSpec(t, me).Sleeps? ==> !t[me].killed && HasChild(t, me)
  {
    if FirstZombie(t, me) != -1 {
      assert ZombieChild(t, me, FirstZombie(t, me));
    }
  }

  /** kill does not look at the state: pid 0 marks a free slot, and the process that fork makes there is born killed. */
  lemma BornKilled(s: State) returns (states: seq<State>, acts: seq<Action>)
    requires Initial(s, 2)
    ensures IsRun(states, acts, 2) && states[0] == s
    ensures var t := states[|acts|].t; |t| == 2 && t[1].state == RUNNABLE && t[1].killed
  {
    var s0 := Next(s, Pick(0));
    assert FirstPid(s0.t, 0, 0) == FirstPid(s0.t, 0, 1) == 1;
    var s1 := Next(s0, Kill(0, 0));
    assert s1.t[0].state == RUNNING && s1.t[1].state == UNUSED && s1.t[1].killed;
    assert FirstUnused(s1.t) == 1;
    var s2 := Next(s1, ForkAlloc(0));
    var s3 := Next(s2, ForkLink(0));
    var s4 := Next(s3, ForkDone(0));
    states, acts := [s, s0, s1, s2, s3, s4], [Pick(0), Kill(0, 0), ForkAlloc(0), ForkLink(0), ForkDone(0)];
    assert IsStep(s, Pick(0), s0) && IsStep(s0, Kill(0, 0), s1) && IsStep(s1, ForkAlloc(0), s2) &&
      IsStep(s2, ForkLink(0), s3) && IsStep(s3, ForkDone(0), s4);
  }
}
