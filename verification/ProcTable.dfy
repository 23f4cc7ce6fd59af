/** The scans of the process table (proc.c): each runs with ptable.lock held, over the whole table. */
module ProcTable {

  datatype ProcState = UNUSED | EMBRYO | SLEEPING | RUNNABLE | RUNNING | ZOMBIE

  /** Sleep channels: the address of a process, which only wait sleeps on, or some other address. */
  datatype Chan = NoChan | OfProc(p: int) | Other(k: int)

  /** Where a process is between its steps: in user space or another system call, in fork with a slot for the child, or
      in wait. */
  datatype Place = User | InFork(np: int) | ForkLinked(np: int) | InWait

  /** A table entry. parent is the parent's slot, -1 for the null pointer. */
  datatype Proc = Proc(state: ProcState, pid: int, parent: int, chan: Chan, killed: bool, place: Place)

  type Table = seq<Proc>

  // ----- allocproc

  function FirstUnused(t: Table): (i: int)
    ensures i == -1 || (0 <= i < |t| && t[i].state == UNUSED)
    ensures i == -1 <==> forall k :: 0 <= k < |t| ==> t[k].state != UNUSED
    ensures i != -1 ==> forall k :: 0 <= k < i ==> t[k].state != UNUSED
  {
    FirstUnusedFrom(t, 0)
  }

  function FirstUnusedFrom(t: Table, j: int): (i: int)
    requires 0 <= j <= |t|
    ensures i == -1 || (j <= i < |t| && t[i].state == UNUSED)
    ensures i == -1 ==> forall k :: j <= k < |t| ==> t[k].state != UNUSED
    ensures i != -1 ==> forall k :: j <= k < i ==> t[k].state != UNUSED
    decreases |t| - j
  {
    if j == |t| then -1 else if t[j].state == UNUSED then j else FirstUnusedFrom(t, j + 1)
  }

  /** The entry that allocproc has found. */
  function Embryo(x: Proc, pid: int): Proc {
    x.(state := EMBRYO, pid := pid)
  }

  // ----- wakeup1

  function Wake(p: Proc, chan: Chan): Proc {
    if p.state == SLEEPING && p.chan == chan then p.(state := RUNNABLE) else p
  }

  function Wakeup1(t: Table, chan: Chan): (r: Table)
    ensures |r| == |t| && forall k :: 0 <= k < |t| ==> r[k] == Wake(t[k], chan)
  {
    seq(|t|, k requires 0 <= k < |t| => Wake(t[k], chan))
  }

  // ----- exit

  predicate ZombieChild(t: Table, me: int, k: int) {
    0 <= k < |t| && t[k].parent == me && t[k].state == ZOMBIE
  }

  /** The children of me are given to init. */
  function Adopted(t: Table, me: int, init: int): (r: Table)
    ensures |r| == |t| && forall k :: 0 <= k < |t| ==> r[k] == if t[k].parent == me then t[k].(parent := init) else t[k]
  {
    seq(|t|, k requires 0 <= k < |t| => if t[k].parent == me then t[k].(parent := init) else t[k])
  }

  /** The whole effect of exit on the table: the parent is woken, the children go to init, which is woken too
      if a child is a zombie already, and the caller becomes a zombie. */
  ghost function Exited(t: Table, me: int, init: int): (r: Table)
    requires 0 <= me < |t|
    ensures |r| == |t|
  {
    var t1 := Adopted(Wakeup1(t, OfProc(t[me].parent)), me, init);
    var t2 := if exists k :: ZombieChild(t, me, k) then Wakeup1(t1, OfProc(init)) else t1;
    t2[me := t2[me].(state := ZOMBIE)]
  }

  // ----- wait

  function FirstZombie(t: Table, me: int): (i: int)
    ensures i == -1 || ZombieChild(t, me, i)
    ensures i == -1 ==> forall k :: !ZombieChild(t, me, k)
    ensures i != -1 ==> forall k :: 0 <= k < i ==> !ZombieChild(t, me, k)
  {
    FirstZombieFrom(t, me, 0)
  }

  function FirstZombieFrom(t: Table, me: int, j: int): (i: int)
    requires 0 <= j <= |t|
    ensures i == -1 || (j <= i && ZombieChild(t, me, i))
    ensures i == -1 ==> forall k :: j <= k ==> !ZombieChild(t, me, k)
    ensures i != -1 ==> forall k :: j <= k < i ==> !ZombieChild(t, me, k)
    decreases |t| - j
  {
    if j == |t| then -1 else if ZombieChild(t, me, j) then j else FirstZombieFrom(t, me, j + 1)
  }

  predicate HasChild(t: Table, me: int) {
    exists k :: 0 <= k < |t| && t[k].parent == me
  }

  /** One pass of wait: a child reaped, nothing to wait for, or sleep. */
  datatype WaitResult = Reaped(i: int, pid: int) | Nothing | Sleeps

  function WaitSpec(t: Table, me: int): WaitResult
    requires 0 <= me < |t|
  {
    var i := FirstZombie(t, me);
    if i != -1 then Reaped(i, t[i].pid)
    else if !HasChild(t, me) || t[me].killed then Nothing
    else Sleeps
  }

  function Reset(p: Proc): Proc {
    Proc(UNUSED, 0, -1, p.chan, false, p.place)
  }

  // ----- kill

  function FirstPid(t: Table, pid: int, j: int): (i: int)
    requires 0 <= j <= |t|
    ensures i == -1 || (j <= i < |t| && t[i].pid == pid)
    ensures i == -1 ==> forall k :: j <= k < |t| ==> t[k].pid != pid
    ensures i != -1 ==> forall k :: j <= k < i ==> t[k].pid != pid
    decreases |t| - j
  {
    if j == |t| then -1 else if t[j].pid == pid then j else FirstPid(t, pid, j + 1)
  }

  /** The entry that kill's scan stops at. */
  predicate FirstWith(t: Table, pid: int, x: int) {
    0 <= x < |t| && t[x].pid == pid && forall k :: 0 <= k < x ==> t[k].pid != pid
  }

  function Struck(p: Proc): Proc {
    p.(killed := true, state := if p.state == SLEEPING then RUNNABLE else p.state)
  }

  // ----- The loops

  class PTable {
    const proc: array<Proc>
    var nextpid: int

    constructor (nproc: nat)
      ensures fresh(proc) && proc.Length == nproc && nextpid == 1
      ensures forall k :: 0 <= k < nproc ==> proc[k] == Proc(UNUSED, 0, -1, NoChan, false, User)
    {
      proc := new Proc[nproc](_ => Proc(UNUSED, 0, -1, NoChan, false, User));
      nextpid := 1;
    }

    /** allocproc's part under the lock: killed is left as it was. */
    method Alloc() returns (i: int)
      modifies proc, this
      ensures i == FirstUnused(old(proc[..]))
      ensures i == -1 ==> proc[..] == old(proc[..]) && nextpid == old(nextpid)
      ensures i != -1 ==>
        proc[..] == old(proc[..])[i := Embryo(old(proc[..])[i], old(nextpid))] &&
        nextpid == old(nextpid) + 1
    {
      var p := 0;
      while p < proc.Length
        invariant 0 <= p <= proc.Length && proc[..] == old(proc[..]) && nextpid == old(nextpid)
        invariant FirstUnused(proc[..]) == FirstUnusedFrom(proc[..], p)
      {
        if proc[p].state == UNUSED {
          proc[p] := proc[p].(state := EMBRYO, pid := nextpid);
          nextpid := nextpid + 1;
          return p;
        }
        p := p + 1;
      }
      i := -1;
    }

    method WakeAll(chan: Chan)
      modifies proc
      ensures proc[..] == Wakeup1(old(proc[..]), chan)
    {
      var p := 0;
      while p < proc.Length
        invariant 0 <= p <= proc.Length
        invariant forall k :: 0 <= k < p ==> proc[k] == Wake(old(proc[..])[k], chan)
        invariant forall k :: p <= k < proc.Length ==> proc[k] == old(proc[..])[k]
      {
        if proc[p].state == SLEEPING && proc[p].chan == chan {
          proc[p] := proc[p].(state := RUNNABLE);
        }
        p := p + 1;
      }
    }

    /** exit, from taking the lock to entering the scheduler. */
    method Exit(me: int, init: int)
      requires 0 <= me < proc.Length && me != init
      modifies proc
      ensures proc[..] == Exited(old(proc[..]), me, init)
    {
      hide Adopting, Exited, Wakeup1, Wake;
      ghost var t0 := proc[..];
      WakeAll(OfProc(proc[me].parent));
      ghost var t1 := proc[..];
      AdoptNone(t1, me, init);
      var p := 0;
      while p < proc.Length
        invariant 0 <= p <= proc.Length
        invariant Adopting(t1, proc[..], me, init, p)
      {
        ghost var t := proc[..];
        if proc[p].parent == me {
          proc[p] := proc[p].(parent := init);
          AdoptStep(t1, t, me, init, p);
          if proc[p].state == ZOMBIE {
            WakeAll(OfProc(init));
          }
        } else {
          AdoptStep(t1, t, me, init, p);
        }
        p := p + 1;
      }
      proc[me] := proc[me].(state := ZOMBIE);
      AdoptedAll(t0, t1, me, init);
    }

    /** One pass of wait's loop. */
    method Wait(me: int) returns (r: WaitResult)
      requires 0 <= me < proc.Length
      modifies proc
      ensures r == WaitSpec(old(proc[..]), me)
      ensures proc[..] == match r
        case Reaped(i, _) => old(proc[..])[i := Reset(old(proc[..])[i])]
        case Nothing => old(proc[..])
        case Sleeps => old(proc[..])[me := old(proc[..])[me].(chan := OfProc(me), state := SLEEPING)]
    {
      var havekids, p := false, 0;
      while p < proc.Length
        invariant 0 <= p <= proc.Length && proc[..] == old(proc[..])
        invariant FirstZombie(proc[..], me) == FirstZombieFrom(proc[..], me, p)
        invariant havekids <==> exists k :: 0 <= k < p && proc[..][k].parent == me
      {
        if proc[p].parent == me {
          havekids := true;
          if proc[p].state == ZOMBIE {
            var pid := proc[p].pid;
            proc[p] := proc[p].(state := UNUSED, pid := 0, parent := -1, killed := false);
            return Reaped(p, pid);
          }
        }
        p := p + 1;
      }
      if !havekids || proc[me].killed {
        return Nothing;
      }
      proc[me] := proc[me].(chan := OfProc(me), state := SLEEPING);
      r := Sleeps;
    }

    /** kill: the first entry with that pid, whatever its state, is marked, and runs again if it sleeps. */
    method Kill(pid: int) returns (found: bool)
      modifies proc
      ensures found <==> FirstPid(old(proc[..]), pid, 0) != -1
      ensures proc[..] == var i := FirstPid(old(proc[..]), pid, 0);
        if i == -1 then old(proc[..]) else old(proc[..])[i := Struck(old(proc[..])[i])]
      ensures found <==> exists x :: FirstWith(old(proc[..]), pid, x)
      ensures forall x :: 0 <= x < proc.Length ==>
        var y := old(proc[..])[x];
        proc[..][x] == if FirstWith(old(proc[..]), pid, x)
          then Proc(if y.state == SLEEPING then RUNNABLE else y.state, y.pid, y.parent, y.chan, true, y.place) else y
    {
      var p := 0;
      while p < proc.Length
        invariant 0 <= p <= proc.Length && proc[..] == old(proc[..])
        invariant FirstPid(proc[..], pid, 0) == FirstPid(proc[..], pid, p)
      {
        if proc[p].pid == pid {
          proc[p] := proc[p].(killed := true);
          if proc[p].state == SLEEPING {
            proc[p] := proc[p].(state := RUNNABLE);
          }
          assert FirstWith(old(proc[..]), pid, p);
          return true;
        }
        p := p + 1;
      }
      found := false;
    }
  }

  /** exit's loop after p entries, from table t1. */
  ghost predicate Adopting(t1: Table, t: Table, me: int, init: int, p: int) {
    && |t| == |t1| && 0 <= p <= |t|
    && forall k :: 0 <= k < |t| ==>
      t[k] == AdoptedOne(t1[k], me, init, k < p, exists j :: 0 <= j < p && ZombieChild(t1, me, j))
  }

  function AdoptedOne(x: Proc, me: int, init: int, seen: bool, woken: bool): Proc {
    var y := if seen && x.parent == me then x.(parent := init) else x;
    if woken then Wake(y, OfProc(init)) else y
  }

  lemma AdoptNone(t1: Table, me: int, init: int)
    ensures Adopting(t1, t1, me, init, 0)
  {
  }

  lemma AdoptStep(t1: Table, t: Table, me: int, init: int, p: int)
    requires Adopting(t1, t, me, init, p) && p < |t| && me != init
    ensures 0 <= p
    ensures t[p].parent == t1[p].parent && (t[p].state == ZOMBIE <==> t1[p].state == ZOMBIE)
    ensures t1[p].parent != me ==> Adopting(t1, t, me, init, p + 1)
    ensures t1[p].parent == me && t1[p].state != ZOMBIE ==> Adopting(t1, t[p := t[p].(parent := init)], me, init, p + 1)
    ensures t1[p].parent == me && t1[p].state == ZOMBIE ==>
      Adopting(t1, Wakeup1(t[p := t[p].(parent := init)], OfProc(init)), me, init, p + 1)
  {
    assert (exists j :: 0 <= j < p + 1 && ZombieChild(t1, me, j)) <==>
      ZombieChild(t1, me, p) || exists j :: 0 <= j < p && ZombieChild(t1, me, j);
  }

  lemma AdoptedAll(t0: Table, t1: Table, me: int, init: int)
    requires 0 <= me < |t0| && t1 == Wakeup1(t0, OfProc(t0[me].parent))
    ensures forall t: Table :: Adopting(t1, t, me, init, |t1|) ==>
      t[me := t[me].(state := ZOMBIE)] == Exited(t0, me, init)
  {
    assert forall k :: ZombieChild(t1, me, k) <==> ZombieChild(t0, me, k);
    forall t: Table | Adopting(t1, t, me, init, |t1|)
      ensures t[me := t[me].(state := ZOMBIE)] == Exited(t0, me, init)
    {
      var a := Adopted(t1, me, init);
      var b := if exists k :: ZombieChild(t0, me, k) then Wakeup1(a, OfProc(init)) else a;
      assert (exists k :: ZombieChild(t0, me, k)) <==> exists j :: 0 <= j < |t1| && ZombieChild(t1, me, j);
      assert t == b;
    }
  }
}
