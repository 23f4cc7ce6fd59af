/** What holds in every state of every run of the block cache. */
module BlockCacheRuns {
  import opened BufferList
  import opened BlockCache
  import opened BlockCacheSteps

  lemma StepKeepsInv(s: State, a: Action, disk0: map<Key, Block>)
    requires Inv(s, disk0) && Enabled(s, a)
    ensures Inv(Next(s, a), disk0)
  {
    hide Inv;
    match a
    case Bread(p, key) => KeepBread(s, p, key, disk0);
    case BgetPass(p) => KeepBget(s, p, disk0);
    case IderwStart(p) => KeepStart(s, p, disk0);
    case IderwResume(p) => KeepResume(s, p, disk0);
    case Modify(p, b, data) => KeepModify(s, p, b, data, disk0);
    case Bwrite(p, b) => KeepBwrite(s, p, b, disk0);
    case Brelse(p, b) => KeepBrelse(s, p, b, disk0);
    case Interrupt =>
      if s.queue != [] {
        KeepInterrupt(s, disk0);
      }
  }

  lemma KeepBget(s: State, p: int, disk0: map<Key, Block>)
    requires Inv(s, disk0) && Enabled(s, BgetPass(p))
    ensures Inv(Next(s, BgetPass(p)), disk0)
  {
    hide BufOk, OpOk, ByRelease, OneBufferEach, BgetSpec, Next, Written, Started;
    if BgetSpec(s.order, s.bufs, s.ops[p].key).Cached? {
      KeepCached(s, p, disk0);
    } else if BgetSpec(s.order, s.bufs, s.ops[p].key).Recycled? {
      KeepRecycled(s, p, disk0);
    } else {
      KeepSleep(s, p, disk0);
    }
  }

  /** A run: any number of processes and the disk, in any order. */
  ghost predicate IsRun(states: seq<State>, acts: seq<Action>, n: int, np: int, disk0: map<Key, Block>) {
    && |states| == |acts| + 1
    && Initial(states[0], n, np, disk0)
    && forall i :: 0 <= i < |acts| ==> IsStep(states[i], acts[i], states[i + 1])
  }

  ghost predicate IsStep(s: State, a: Action, t: State) {
    Shaped(s) && Enabled(s, a) && t == Next(s, a)
  }

  lemma {:induction false} RunInv(states: seq<State>, acts: seq<Action>, n: int, np: int, disk0: map<Key, Block>,
      i: int)
    requires IsRun(states, acts, n, np, disk0) && 0 <= i < |states|
    ensures Inv(states[i], disk0)
    decreases i
  {
    hide Inv, Initial, Next;
    if i == 0 {
      InitialInv(states[0], n, np, disk0);
    } else {
      RunInv(states, acts, n, np, disk0, i - 1);
      assert IsStep(states[i - 1], acts[i - 1], states[i - 1 + 1]);
      StepKeepsInv(states[i - 1], acts[i - 1], disk0);
    }
  }

  /** bread returns what the last completed bwrite of that sector wrote, or what was on the disk before any;
      and that is still in the buffer as long as its holder does not change it. */
  lemma ReadsAreCurrent(states: seq<State>, acts: seq<Action>, n: int, np: int, disk0: map<Key, Block>, i: int, p: int,
      b: int)
    requires IsRun(states, acts, n, np, disk0) && 0 <= i < |states| && Has(states[i], p, b) && !states[i].touched[b]
    ensures var x := states[i].bufs[b];
      x.key in Written(disk0, states[i].log) && x.valid && !x.dirty && x.data == Written(disk0, states[i].log)[x.key]
  {
    RunInv(states, acts, n, np, disk0, i);
    assert BufOk(states[i], b);
  }

  /** p is on its way to the sector key: in bget, or with a buffer of that sector that the disk is to fill. */
  ghost predicate Fetching(s: State, p: int, key: Key)
    requires Runs(s, p)
  {
    match s.ops[p]
    case Idle => false
    case Getting(k, _) => k == key
    case Starting(b, _) => Holds(s, p, b, key)
    case Waiting(b, _, _) => Holds(s, p, b, key)
    case Halted => true
  }

  ghost predicate Holds(s: State, p: int, b: int, key: Key) {
    && 0 <= b < |s.bufs| && |s.holder| == |s.touched| == |s.bufs|
    && s.holder[b] == p && s.bufs[b].key == key && !s.touched[b]
  }

  ghost predicate HoldsSome(s: State, p: int, key: Key) {
    exists b :: Holds(s, p, b, key)
  }

  lemma FetchStep(s: State, a: Action, p: int, key: Key, disk0: map<Key, Block>)
    requires Inv(s, disk0) && Enabled(s, a) && Runs(s, p) && Fetching(s, p, key)
    ensures Runs(Next(s, a), p)
    ensures if Next(s, a).ops[p] == Idle then HoldsSome(Next(s, a), p, key) else Fetching(Next(s, a), p, key)
  {
    hide BufOk, OpOk, ByRelease, OneBufferEach, Written, Started, OldestIdle, FindKey, MoveToFront;
    if s.ops[p].Getting? {
      if a == BgetPass(p) {
        FetchGets(s, p, key, disk0);
      }
    } else if s.ops[p].Starting? || s.ops[p].Waiting? {
      FetchHolds(s, a, p, s.ops[p].b, key, disk0);
    }
  }

  /** The pass of bget that gets the buffer. */
  lemma FetchGets(s: State, p: int, key: Key, disk0: map<Key, Block>)
    requires Inv(s, disk0) && Enabled(s, BgetPass(p)) && Fetching(s, p, key)
    ensures var t := Next(s, BgetPass(p));
      Runs(t, p) && if t.ops[p] == Idle then HoldsSome(t, p, key) else Fetching(t, p, key)
  {
    hide OpOk, ByRelease, OneBufferEach, Written, Started, OldestIdle, FindKey;
    var g := BgetSpec(s.order, s.bufs, key);
    if g.Cached? || g.Recycled? {
      assert BufOk(s, g.b);
      assert Holds(Next(s, BgetPass(p)), p, g.b, key);
    }
  }

  /** Who is inside iderw keeps its buffer, and nobody changes the buffer's sector. */
  lemma FetchHolds(s: State, a: Action, p: int, b: int, key: Key, disk0: map<Key, Block>)
    requires Inv(s, disk0) && Enabled(s, a) && Runs(s, p) && (s.ops[p].Starting? || s.ops[p].Waiting?) &&
      Holds(s, p, b, key)
    ensures Holds(Next(s, a), p, b, key)
  {
    hide OpOk, ByRelease, OneBufferEach, Written, Started, OldestIdle, FindKey, MoveToFront;
    assert BufOk(s, b);
    hide BufOk;
  }

  lemma {:induction false} FetchRuns(states: seq<State>, acts: seq<Action>, n: int, np: int, disk0: map<Key, Block>,
                                     i: int, j: int, p: int, key: Key)
    requires IsRun(states, acts, n, np, disk0) && 0 <= i < j < |states| && acts[i] == Bread(p, key)
    requires forall h :: i < h < j ==> Runs(states[h], p) && states[h].ops[p] != Idle
    ensures Runs(states[j], p)
    ensures if states[j].ops[p] == Idle then HoldsSome(states[j], p, key) else Fetching(states[j], p, key)
    decreases j
  {
    hide Inv, Initial, Next, Fetching, HoldsSome, Enabled, Written;
    RunInv(states, acts, n, np, disk0, j - 1);
    assert IsStep(states[j - 1], acts[j - 1], states[j - 1 + 1]);
    if j == i + 1 {
      FetchStarts(states[i], p, key);
    } else {
      FetchRuns(states, acts, n, np, disk0, i, j - 1, p, key);
      FetchStep(states[j - 1], acts[j - 1], p, key, disk0);
    }
  }

  lemma FetchStarts(s: State, p: int, key: Key)
    requires Shaped(s) && Enabled(s, Bread(p, key))
    ensures var t := Next(s, Bread(p, key)); Runs(t, p) && t.ops[p] != Idle && Fetching(t, p, key)
  {
  }

  /** When the bread of a sector returns, its caller holds a buffer of that sector, with the data of the last completed
      bwrite to it, or of the disk before any. */
  lemma BreadReturnsItsSector(states: seq<State>, acts: seq<Action>, n: int, np: int, disk0: map<Key, Block>,
                              i: int, j: int, p: int, key: Key) returns (b: int)
    requires IsRun(states, acts, n, np, disk0) && 0 <= i < j < |states| && acts[i] == Bread(p, key)
    requires forall h :: i < h < j ==> Runs(states[h], p) && states[h].ops[p] != Idle
    requires Runs(states[j], p) && states[j].ops[p] == Idle
    ensures Has(states[j], p, b) && states[j].bufs[b].key == key && states[j].bufs[b].valid
    ensures key in Written(disk0, states[j].log) && states[j].bufs[b].data == Written(disk0, states[j].log)[key]
  {
    hide Initial, Next, Fetching, Enabled, Written;
    FetchRuns(states, acts, n, np, disk0, i, j, p, key);
    RunInv(states, acts, n, np, disk0, j);
    b :| Holds(states[j], p, b, key);
    ReadsAreCurrent(states, acts, n, np, disk0, j, p, b);
  }

  /** A process that was told by bread that a buffer is its own is the only one, and no other buffer has its sector. */
  lemma OneHolderOneBuffer(states: seq<State>, acts: seq<Action>, n: int, np: int, disk0: map<Key, Block>, i: int,
      p: int, b: int, q: int, c: int)
    requires IsRun(states, acts, n, np, disk0) && 0 <= i < |states| && Has(states[i], p, b) && Has(states[i], q, c)
    requires states[i].bufs[b].key == states[i].bufs[c].key
    ensures b == c && p == q && states[i].bufs[b].busy
  {
    RunInv(states, acts, n, np, disk0, i);
    assert BufOk(states[i], b) && BufOk(states[i], c);
  }

  /** What recycling throws away is on the disk, and the buffer taken is the idle one released longest ago. */
  lemma RecyclingLosesNothing(states: seq<State>, acts: seq<Action>, n: int, np: int, disk0: map<Key, Block>, i: int,
      p: int, b: int)
    requires IsRun(states, acts, n, np, disk0) && 0 <= i < |states| && Shaped(states[i]) &&
      Enabled(states[i], BgetPass(p))
    requires BgetSpec(states[i].order, states[i].bufs, states[i].ops[p].key) == Recycled(b)
    ensures var x := states[i].bufs[b];
      !x.busy && !x.dirty && (x.valid ==> x.key in states[i].disk && x.data == states[i].disk[x.key])
    ensures |states[i].stamp| == |states[i].bufs| && forall c ::
      0 <= c < |states[i].bufs| && !states[i].bufs[c].busy ==> states[i].stamp[b] <= states[i].stamp[c]
  {
    var s := states[i];
    RunInv(states, acts, n, np, disk0, i);
    assert BufOk(s, b);
    var k := Position(s.order, |s.bufs|, b);
    OldestIsLast(s.order, IsBusy(s.bufs), k);
    forall c | 0 <= c < |s.bufs| && !s.bufs[c].busy
      ensures s.stamp[b] <= s.stamp[c]
    {
      var j := Position(s.order, |s.bufs|, c);
      assert s.order[j] == c && s.order[k] == b;
    }
  }

  /** No panic of iderw, bwrite or brelse is reached: a request is for a held buffer, and asks for something. */
  lemma RequestsAreProper(states: seq<State>, acts: seq<Action>, n: int, np: int, disk0: map<Key, Block>, i: int,
      p: int)
    requires IsRun(states, acts, n, np, disk0) && 0 <= i < |states| && 0 <= p < |states[i].ops|
    ensures var op := states[i].ops[p];
      op.Starting? ==>
        0 <= op.b < |states[i].bufs| && states[i].bufs[op.b].busy &&
        !(states[i].bufs[op.b].valid && !states[i].bufs[op.b].dirty)
    ensures forall b :: Has(states[i], p, b) ==> states[i].bufs[b].busy
  {
    var s := states[i];
    RunInv(states, acts, n, np, disk0, i);
    assert OpOk(s, p);
    if s.ops[p].Starting? {
      assert BufOk(s, s.ops[p].b);
    }
    forall b | Has(s, p, b)
      ensures s.bufs[b].busy
    {
      assert BufOk(s, b);
    }
  }

  /** Nobody sleeps for nothing: who sleeps in bget waits for a buffer that its holder must still release, and who
      sleeps in iderw waits for a request that is on the disk's queue. */
  lemma SleepersAreOwedAWakeup(states: seq<State>, acts: seq<Action>, n: int, np: int, disk0: map<Key, Block>, i: int,
      p: int)
    requires IsRun(states, acts, n, np, disk0) && 0 <= i < |states| && 0 <= p < |states[i].ops|
    ensures var op := states[i].ops[p];
      && (op.Getting? && op.on != -1 ==> 0 <= op.on < |states[i].bufs| && states[i].bufs[op.on].busy)
      && (op.Waiting? && op.asleep ==> op.b in states[i].queue)
  {
    var s := states[i];
    RunInv(states, acts, n, np, disk0, i);
    assert OpOk(s, p);
    if s.ops[p].Waiting? {
      assert BufOk(s, s.ops[p].b);
    }
  }

  /** bget panics for want of a buffer exactly if every buffer is held and none has the sector asked for. */
  lemma NoBuffersMeansAllHeld(order: seq<int>, bufs: seq<Buf>, key: Key)
    requires IsRing(order, |bufs|)
    ensures BgetSpec(order, bufs, key) == NoBuffers <==>
      forall b :: 0 <= b < |bufs| ==> bufs[b].busy && bufs[b].key != key
  {
    var f, c := FindKey(order, bufs, key), OldestIdle(order, IsBusy(bufs));
    forall b | 0 <= b < |bufs|
      ensures b in order
    {
    }
    if f == -1 && c == -1 {
      forall b | 0 <= b < |bufs|
        ensures bufs[b].busy && bufs[b].key != key
      {
        assert b in order && IsBusy(bufs)(b);
      }
    }
    hide FindKey, OldestIdle;
  }
}
