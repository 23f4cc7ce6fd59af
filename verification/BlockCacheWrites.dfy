/** What writers rely on (bio.c, ide.c): their data stays in its buffer, and bwrite puts it on disk. */
module BlockCacheWrites {
  import opened BufferList
  import opened BlockCache
  import opened BlockCacheSteps
  import opened BlockCacheRuns

  // ----- A held buffer

  /** p holds b, outside iderw. */
  ghost predicate Keeps(s: State, p: int, b: int) {
    && Runs(s, p) && 0 <= b < |s.bufs| && |s.holder| == |s.bufs| && s.holder[b] == p
    && !((s.ops[p].Starting? || s.ops[p].Waiting?) && s.ops[p].b == b)
  }

  /** What p does with b. */
  predicate Uses(a: Action, p: int, b: int) {
    (a.Modify? || a.Bwrite? || a.Brelse?) && a.p == p && a.b == b
  }

  lemma KeepsStep(s: State, a: Action, p: int, b: int, disk0: map<Key, Block>)
    requires Inv(s, disk0) && Enabled(s, a) && Keeps(s, p, b) && !Uses(a, p, b)
    ensures Keeps(Next(s, a), p, b) && Next(s, a).bufs[b].key == s.bufs[b].key
    ensures Next(s, a).bufs[b].data == s.bufs[b].data
  {
    hide ByRelease, OneBufferEach, Written, Started, OldestIdle, FindKey, MoveToFront, OpOk;
    assert BufOk(s, b);
    hide BufOk;
  }

  /** Nobody but p changes a buffer that p holds. */
  lemma {:induction false} HeldDataStays(states: seq<State>, acts: seq<Action>, n: int, np: int, disk0: map<Key, Block>,
      i: int, j: int, p: int, b: int)
    requires IsRun(states, acts, n, np, disk0) && 0 <= i <= j < |states| && Keeps(states[i], p, b)
    requires forall h :: i <= h < j ==> !Uses(acts[h], p, b)
    ensures Keeps(states[j], p, b) && states[j].bufs[b].key == states[i].bufs[b].key
    ensures states[j].bufs[b].data == states[i].bufs[b].data
    decreases j
  {
    hide Inv, Initial, Next, Enabled;
    if i < j {
      HeldDataStays(states, acts, n, np, disk0, i, j - 1, p, b);
      RunInv(states, acts, n, np, disk0, j - 1);
      assert IsStep(states[j - 1], acts[j - 1], states[j - 1 + 1]);
      KeepsStep(states[j - 1], acts[j - 1], p, b, disk0);
    }
  }

  /** What the holder stores is in its buffer, and nothing else changes. */
  lemma ModifyDoes(s: State, p: int, b: int, data: Block)
    requires Shaped(s) && Enabled(s, Modify(p, b, data))
    ensures var t := Next(s, Modify(p, b, data));
      && |t.bufs| == |s.bufs| && t.bufs[b].data == data
      && t.bufs[b].key == s.bufs[b].key && t.bufs[b].valid == s.bufs[b].valid
      && t.bufs[b].dirty == s.bufs[b].dirty && t.bufs[b].busy == s.bufs[b].busy
      && (forall c :: 0 <= c < |s.bufs| && c != b ==> t.bufs[c] == s.bufs[c])
      && t.disk == s.disk && t.log == s.log && t.holder == s.holder && t.ops == s.ops && Keeps(t, p, b)
  {
  }

  // ----- bwrite

  /** The completed bwrites of a sector, from the n-th of all on. */
  function WritesOf(log: seq<(Key, Block)>, n: int, key: Key): (r: seq<Block>)
    decreases |log|
  {
    if |log| <= n || log == [] then []
    else
      var last := log[|log| - 1];
      WritesOf(log[..|log| - 1], n, key) + if last.0 == key then [last.1] else []
  }

  /** p is inside the bwrite of data to key in b; n bwrites had been completed when it began. */
  ghost predicate Writes(s: State, p: int, b: int, key: Key, data: Block, n: int) {
    && Runs(s, p) && 0 <= b < |s.bufs| && |s.holder| == |s.bufs| && 0 <= n <= |s.log|
    && (s.ops[p].Starting? || s.ops[p].Waiting?) && s.ops[p].b == b && s.ops[p].snap == data
    && s.holder[b] == p && s.bufs[b].key == key && s.bufs[b].data == data
    && (if s.bufs[b].dirty then WritesOf(s.log, n, key) == [] else HasWritten(s, b, key, data, n))
  }

  /** The bwrite is done: once, with this data, which is in the buffer and on the disk. */
  ghost predicate HasWritten(s: State, b: int, key: Key, data: Block, n: int) {
    && 0 <= n <= |s.log| && WritesOf(s.log, n, key) == [data]
    && 0 <= b < |s.bufs| && s.bufs[b].key == key && s.bufs[b].data == data && s.bufs[b].valid && !s.bufs[b].dirty
    && key in s.disk && s.disk[key] == data
  }

  lemma WritesMore(log: seq<(Key, Block)>, n: int, key: Key, e: (Key, Block))
    requires 0 <= n <= |log|
    ensures WritesOf(log + [e], n, key) == WritesOf(log, n, key) + if e.0 == key then [e.1] else []
  {
    assert (log + [e])[..|log|] == log;
  }

  lemma WritesNone(log: seq<(Key, Block)>, key: Key)
    ensures WritesOf(log, |log|, key) == []
  {
  }

  lemma WriteStarts(s: State, p: int, b: int, disk0: map<Key, Block>)
    requires Inv(s, disk0) && Enabled(s, Bwrite(p, b))
    ensures 0 <= b < |s.bufs| && Writes(Next(s, Bwrite(p, b)), p, b, s.bufs[b].key, s.bufs[b].data, |s.log|)
  {
    WritesNone(s.log, s.bufs[b].key);
  }

  lemma WriteStep(s: State, a: Action, p: int, b: int, key: Key, data: Block, n: int, disk0: map<Key, Block>)
    requires Inv(s, disk0) && Enabled(s, a) && Writes(s, p, b, key, data, n)
    ensures if Next(s, a).ops[p] == Idle then Runs(Next(s, a), p) && HasWritten(Next(s, a), b, key, data, n)
      else Writes(Next(s, a), p, b, key, data, n)
  {
    hide ByRelease, Written, OldestIdle, FindKey, MoveToFront, OpOk, WritesOf;
    assert BufOk(s, b);
    if a == Interrupt && s.queue != [] {
      var c := s.queue[0];
      assert BufOk(s, c);
      WritesMore(s.log, n, key, (s.bufs[c].key, Snap(s, c)));
    }
  }

  lemma {:induction false} WriteRuns(states: seq<State>, acts: seq<Action>, n: int, np: int, disk0: map<Key, Block>,
      i: int, j: int, p: int, b: int)
    requires IsRun(states, acts, n, np, disk0) && 0 <= i < j < |states| && acts[i] == Bwrite(p, b)
    requires forall h :: i < h < j ==> Runs(states[h], p) && states[h].ops[p] != Idle
    ensures 0 <= b < |states[i].bufs| && Runs(states[j], p)
    ensures var key, data, m := states[i].bufs[b].key, states[i].bufs[b].data, |states[i].log|;
      if states[j].ops[p] == Idle then HasWritten(states[j], b, key, data, m)
      else Writes(states[j], p, b, key, data, m)
    decreases j
  {
    hide Inv, Initial, Next, Writes, HasWritten, Enabled, Written;
    RunInv(states, acts, n, np, disk0, j - 1);
    assert IsStep(states[j - 1], acts[j - 1], states[j - 1 + 1]);
    if j == i + 1 {
      WriteStarts(states[i], p, b, disk0);
      WritesIsBusy(states[j], p, b, states[i].bufs[b].key, states[i].bufs[b].data, |states[i].log|);
    } else {
      WriteRuns(states, acts, n, np, disk0, i, j - 1, p, b);
      WriteStep(states[j - 1], acts[j - 1], p, b, states[i].bufs[b].key, states[i].bufs[b].data, |states[i].log|,
        disk0);
      WritesRuns(states[j], p, b, states[i].bufs[b].key, states[i].bufs[b].data, |states[i].log|);
    }
  }

  lemma WritesIsBusy(s: State, p: int, b: int, key: Key, data: Block, n: int)
    requires Writes(s, p, b, key, data, n)
    ensures Runs(s, p) && s.ops[p] != Idle
  {
  }

  lemma WritesRuns(s: State, p: int, b: int, key: Key, data: Block, n: int)
    ensures Writes(s, p, b, key, data, n) ==> Runs(s, p)
  {
  }

  /** When bwrite returns, whatever ran in between, there has been exactly one completed write of the sector since it
      was called, of the data that the buffer held then; that data is on the disk, and still in the buffer. */
  lemma BwriteWritesItsData(states: seq<State>, acts: seq<Action>, n: int, np: int, disk0: map<Key, Block>,
      i: int, j: int, p: int, b: int)
    requires IsRun(states, acts, n, np, disk0) && 0 <= i < j < |states| && acts[i] == Bwrite(p, b)
    requires forall h :: i < h < j ==> Runs(states[h], p) && states[h].ops[p] != Idle
    requires Runs(states[j], p) && states[j].ops[p] == Idle
    ensures 0 <= b < |states[i].bufs| == |states[j].bufs|
    ensures var key, data := states[i].bufs[b].key, states[i].bufs[b].data;
      && WritesOf(states[j].log, |states[i].log|, key) == [data]
      && key in states[j].disk && states[j].disk[key] == data
      && states[j].bufs[b].key == key && states[j].bufs[b].data == data
      && states[j].bufs[b].valid && !states[j].bufs[b].dirty
  {
    hide Initial, Next, Enabled, Written, Inv, IsRun, WritesOf;
    WriteRuns(states, acts, n, np, disk0, i, j, p, b);
    SameBuffers(states, acts, n, np, disk0, i);
    SameBuffers(states, acts, n, np, disk0, j);
  }

  lemma {:induction false} SameBuffers(states: seq<State>, acts: seq<Action>, n: int, np: int, disk0: map<Key, Block>,
      i: int)
    requires IsRun(states, acts, n, np, disk0) && 0 <= i < |states|
    ensures |states[i].bufs| == n && |states[i].ops| == np
    decreases i
  {
    hide Next, Shaped, Enabled;
    if i > 0 {
      SameBuffers(states, acts, n, np, disk0, i - 1);
      assert IsStep(states[i - 1], acts[i - 1], states[i - 1 + 1]);
      SizesStep(states[i - 1], acts[i - 1]);
    }
  }

  lemma SizesStep(s: State, a: Action)
    requires Shaped(s) && Enabled(s, a)
    ensures |Next(s, a).bufs| == |s.bufs| && |Next(s, a).ops| == |s.ops|
  {
    hide MoveToFront, Started;
  }

  /** What a holder stores and then writes, without storing anything else in between, is what gets to the disk. */
  lemma StoredIsWritten(states: seq<State>, acts: seq<Action>, n: int, np: int, disk0: map<Key, Block>,
      h: int, i: int, j: int, p: int, b: int, data: Block)
    requires IsRun(states, acts, n, np, disk0) && 0 <= h < i < j < |states|
    requires acts[h] == Modify(p, b, data) && acts[i] == Bwrite(p, b) && forall k :: h < k < i ==> !Uses(acts[k], p, b)
    requires forall k :: i < k < j ==> Runs(states[k], p) && states[k].ops[p] != Idle
    requires Runs(states[j], p) && states[j].ops[p] == Idle
    ensures 0 <= b < |states[h].bufs| && states[h].bufs[b].key in states[j].disk
    ensures states[j].disk[states[h].bufs[b].key] == data
  {
    hide Initial, Next, Enabled, Written, Inv, WritesOf;
    RunInv(states, acts, n, np, disk0, h);
    assert IsStep(states[h], acts[h], states[h + 1]);
    ModifyDoes(states[h], p, b, data);
    SameBuffers(states, acts, n, np, disk0, h);
    SameBuffers(states, acts, n, np, disk0, h + 1);
    HeldDataStays(states, acts, n, np, disk0, h + 1, i, p, b);
    BwriteWritesItsData(states, acts, n, np, disk0, i, j, p, b);
  }

  // ----- bget

  /** What each answer of bget's pass means: the sector's own buffer if there is one, which is busy or not, and
      otherwise an idle one. */
  lemma BgetMeans(order: seq<int>, bufs: seq<Buf>, key: Key, b: int)
    requires IsRing(order, |bufs|) && 0 <= b < |bufs|
    requires forall c, d :: 0 <= c < |bufs| && 0 <= d < |bufs| && bufs[c].key == key == bufs[d].key ==> c == d
    ensures BgetSpec(order, bufs, key) == Cached(b) <==> bufs[b].key == key && !bufs[b].busy
    ensures BgetSpec(order, bufs, key) == MustSleep(b) <==> bufs[b].key == key && bufs[b].busy
    ensures BgetSpec(order, bufs, key) == Recycled(b) ==>
      !bufs[b].busy && forall c :: 0 <= c < |bufs| ==> bufs[c].key != key
    ensures BgetSpec(order, bufs, key).Recycled? <==>
      (exists c :: 0 <= c < |bufs| && !bufs[c].busy) && forall c :: 0 <= c < |bufs| ==> bufs[c].key != key
  {
    hide FindKey, OldestIdle;
    forall c | 0 <= c < |bufs|
      ensures c in order
    {
    }
    var o := OldestIdle(order, IsBusy(bufs));
    if o == -1 {
      forall c | 0 <= c < |bufs|
        ensures bufs[c].busy
      {
        assert c in order && IsBusy(bufs)(c);
      }
    } else {
      assert o in order && !IsBusy(bufs)(o);
    }
  }

  // ----- Every request gets done

  /** p is inside iderw. */
  predicate InIderw(s: State, p: int) {
    Runs(s, p) && (s.ops[p].Starting? || s.ops[p].Waiting?)
  }

  /** Interrupts and p's own steps alone. */
  predicate Finishing(a: Action, p: int) {
    a == IderwStart(p) || a == Interrupt || a == IderwResume(p)
  }

  /** How far p's buffer is from the front of the disk's queue; 0 if it has been served. */
  ghost function Behind(queue: seq<int>, b: int): (k: nat)
    ensures k > 0 <==> b in queue
    ensures k <= |queue|
  {
    if queue == [] then 0
    else if queue[0] == b then 1
    else if b in queue[1..] then Behind(queue[1..], b) + 1 else 0
  }

  function NextOf(s: State, p: int): Action
    requires InIderw(s, p)
  {
    if s.ops[p].Starting? then IderwStart(p)
    else if s.ops[p].b in s.queue then Interrupt
    else IderwResume(p)
  }

  ghost function Left(s: State, p: int): (k: nat)
    requires InIderw(s, p)
  {
    if s.ops[p].Starting? then |s.queue| + 2 else Behind(s.queue, s.ops[p].b)
  }

  lemma FinishStep(s: State, p: int, disk0: map<Key, Block>)
    requires Inv(s, disk0) && InIderw(s, p)
    ensures Enabled(s, NextOf(s, p))
    ensures var t := Next(s, NextOf(s, p));
      Runs(t, p) && (t.ops[p] == Idle || (InIderw(t, p) && Left(t, p) < Left(s, p)))
  {
    hide ByRelease, OneBufferEach, Written, OldestIdle, FindKey, MoveToFront;
    var b := s.ops[p].b;
    assert OpOk(s, p) && BufOk(s, b);
    if s.ops[p].Waiting? && b !in s.queue {
      assert Left(s, p) == 0;
    }
  }

  /** From every state of every run: interrupts and its own steps bring a process out of iderw. */
  lemma IderwReturns(states: seq<State>, acts: seq<Action>, n: int, np: int, disk0: map<Key, Block>, p: int)
      returns (more: seq<State>, macts: seq<Action>)
    requires IsRun(states, acts, n, np, disk0) && InIderw(states[|acts|], p)
    ensures IsRun(more, macts, n, np, disk0) && acts <= macts && states <= more
    ensures forall h :: |acts| <= h < |macts| ==> Finishing(macts[h], p)
    ensures Runs(more[|macts|], p) && more[|macts|].ops[p] == Idle
    decreases Left(states[|acts|], p)
  {
    var s := states[|acts|];
    RunInv(states, acts, n, np, disk0, |acts|);
    FinishStep(s, p, disk0);
    var a := NextOf(s, p);
    var t := Next(s, a);
    assert IsStep(s, a, t);
    hide Inv, Next, Enabled, Initial, Left, Shaped;
    more, macts := states + [t], acts + [a];
    forall i | 0 <= i < |macts|
      ensures IsStep(more[i], macts[i], more[i + 1])
    {
      if i < |acts| {
        assert IsStep(states[i], acts[i], states[i + 1]);
      }
    }
    if t.ops[p] != Idle {
      more, macts := IderwReturns(more, macts, n, np, disk0, p);
    }
  }
}
