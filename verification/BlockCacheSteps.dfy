/** Every step of the block cache keeps its invariant. */
module BlockCacheSteps {
  import opened BufferList
  import opened BlockCache

  lemma InitialInv(s: State, n: int, np: int, disk: map<Key, Block>)
    requires Initial(s, n, np, disk)
    ensures Inv(s, disk)
  {
    forall b | 0 <= b < n
      ensures b in s.order
    {
      assert s.order[n - 1 - b] == b;
    }
  }

  /** Only the operation of p changes, which concerned no buffer before and concerns none now. */
  lemma OpsChanged(s: State, t: State, p: int, op: Op)
    requires Shaped(s) && 0 <= p < |s.ops| && !s.ops[p].Starting? && !s.ops[p].Waiting?
    requires t == s.(ops := s.ops[p := op]) && !op.Starting? && !op.Waiting?
    ensures Shaped(t)
    ensures forall b :: 0 <= b < |s.bufs| && BufOk(s, b) ==> BufOk(t, b)
    ensures forall q :: 0 <= q < |s.ops| && q != p && OpOk(s, q) ==> OpOk(t, q)
  {
  }

  lemma KeepBread(s: State, p: int, key: Key, disk0: map<Key, Block>)
    requires Inv(s, disk0) && Enabled(s, Bread(p, key))
    ensures Inv(Next(s, Bread(p, key)), disk0)
  {
    OpsChanged(s, Next(s, Bread(p, key)), p, Getting(key, -1));
  }

  lemma KeepSleep(s: State, p: int, disk0: map<Key, Block>)
    requires Inv(s, disk0) && Enabled(s, BgetPass(p))
    requires BgetSpec(s.order, s.bufs, s.ops[p].key).MustSleep? || BgetSpec(s.order, s.bufs, s.ops[p].key).NoBuffers?
    ensures Inv(Next(s, BgetPass(p)), disk0)
  {
    var t := Next(s, BgetPass(p));
    assert OpOk(s, p);
    OpsChanged(s, t, p, t.ops[p]);
  }

  // A buffer found idle is nobody's, so nothing else is going on with it.

  lemma CachedBufs(s: State, p: int, disk0: map<Key, Block>)
    requires Inv(s, disk0) && Enabled(s, BgetPass(p))
    requires BgetSpec(s.order, s.bufs, s.ops[p].key).Cached?
    ensures Shaped(Next(s, BgetPass(p))) && forall c :: 0 <= c < |s.bufs| ==> BufOk(Next(s, BgetPass(p)), c)
  {
    var t := Next(s, BgetPass(p));
    var b := BgetSpec(s.order, s.bufs, s.ops[p].key).b;
    assert BufOk(s, b) && OpOk(s, p);
    forall c | 0 <= c < |t.bufs|
      ensures BufOk(t, c)
    {
      assert BufOk(s, c);
    }
  }

  lemma CachedOps(s: State, p: int, disk0: map<Key, Block>)
    requires Inv(s, disk0) && Enabled(s, BgetPass(p))
    requires BgetSpec(s.order, s.bufs, s.ops[p].key).Cached?
    ensures Shaped(Next(s, BgetPass(p))) && forall q :: 0 <= q < |s.ops| ==> OpOk(Next(s, BgetPass(p)), q)
  {
    var t := Next(s, BgetPass(p));
    var b := BgetSpec(s.order, s.bufs, s.ops[p].key).b;
    assert BufOk(s, b) && OpOk(s, p);
    forall q | 0 <= q < |t.ops|
      ensures OpOk(t, q)
    {
      assert OpOk(s, q);
    }
  }

  lemma KeepCached(s: State, p: int, disk0: map<Key, Block>)
    requires Inv(s, disk0) && Enabled(s, BgetPass(p))
    requires BgetSpec(s.order, s.bufs, s.ops[p].key).Cached?
    ensures Inv(Next(s, BgetPass(p)), disk0)
  {
    CachedBufs(s, p, disk0);
    CachedOps(s, p, disk0);
    var t := Next(s, BgetPass(p));
    var b := BgetSpec(s.order, s.bufs, s.ops[p].key).b;
    assert BufOk(s, b) && OpOk(s, p);
    hide BufOk, OpOk;
  }

  lemma RecycledBufs(s: State, p: int, disk0: map<Key, Block>)
    requires Inv(s, disk0) && Enabled(s, BgetPass(p))
    requires BgetSpec(s.order, s.bufs, s.ops[p].key).Recycled?
    ensures Shaped(Next(s, BgetPass(p))) && forall c :: 0 <= c < |s.bufs| ==> BufOk(Next(s, BgetPass(p)), c)
  {
    var t := Next(s, BgetPass(p));
    var b := BgetSpec(s.order, s.bufs, s.ops[p].key).b;
    assert BufOk(s, b) && OpOk(s, p);
    forall c | 0 <= c < |t.bufs|
      ensures BufOk(t, c)
    {
      assert BufOk(s, c);
    }
  }

  lemma RecycledOps(s: State, p: int, disk0: map<Key, Block>)
    requires Inv(s, disk0) && Enabled(s, BgetPass(p))
    requires BgetSpec(s.order, s.bufs, s.ops[p].key).Recycled?
    ensures Shaped(Next(s, BgetPass(p))) && forall q :: 0 <= q < |s.ops| ==> OpOk(Next(s, BgetPass(p)), q)
  {
    var t := Next(s, BgetPass(p));
    var b := BgetSpec(s.order, s.bufs, s.ops[p].key).b;
    assert BufOk(s, b) && OpOk(s, p);
    forall q | 0 <= q < |t.ops|
      ensures OpOk(t, q)
    {
      assert OpOk(s, q);
    }
  }

  /** The key is new to the cache. */
  lemma RecycledKeys(s: State, p: int, disk0: map<Key, Block>)
    requires Inv(s, disk0) && Enabled(s, BgetPass(p))
    requires BgetSpec(s.order, s.bufs, s.ops[p].key).Recycled?
    ensures OneBufferEach(Next(s, BgetPass(p)))
  {
    hide BufOk, OpOk, ByRelease;
    assert forall c :: 0 <= c < |s.bufs| ==> c in s.order && s.bufs[c].key != s.ops[p].key;
  }

  lemma KeepRecycled(s: State, p: int, disk0: map<Key, Block>)
    requires Inv(s, disk0) && Enabled(s, BgetPass(p))
    requires BgetSpec(s.order, s.bufs, s.ops[p].key).Recycled?
    ensures Inv(Next(s, BgetPass(p)), disk0)
  {
    RecycledBufs(s, p, disk0);
    RecycledOps(s, p, disk0);
    RecycledKeys(s, p, disk0);
    RecycledCommand(s, p, disk0);
    hide BufOk, OpOk, OneBufferEach, Started, OldestIdle, FindKey;
  }

  /** It was not on the disk's queue. */
  lemma RecycledCommand(s: State, p: int, disk0: map<Key, Block>)
    requires Inv(s, disk0) && Enabled(s, BgetPass(p))
    requires BgetSpec(s.order, s.bufs, s.ops[p].key).Recycled?
    ensures Next(s, BgetPass(p)).command == Started(Next(s, BgetPass(p)).bufs, s.queue)
  {
    var b := BgetSpec(s.order, s.bufs, s.ops[p].key).b;
    assert BufOk(s, b);
  }

  lemma KeepStart(s: State, p: int, disk0: map<Key, Block>)
    requires Inv(s, disk0) && Enabled(s, IderwStart(p))
    ensures Inv(Next(s, IderwStart(p)), disk0)
  {
    var t := Next(s, IderwStart(p));
    var b := s.ops[p].b;
    assert OpOk(s, p) && BufOk(s, b);
    forall c | 0 <= c < |t.bufs|
      ensures BufOk(t, c)
    {
      assert BufOk(s, c);
    }
    forall q | 0 <= q < |t.ops|
      ensures OpOk(t, q)
    {
      assert OpOk(s, q);
    }
  }

  lemma KeepResume(s: State, p: int, disk0: map<Key, Block>)
    requires Inv(s, disk0) && Enabled(s, IderwResume(p))
    ensures Inv(Next(s, IderwResume(p)), disk0)
  {
    var t := Next(s, IderwResume(p));
    var b := s.ops[p].b;
    assert OpOk(s, p) && BufOk(s, b);
    forall c | 0 <= c < |t.bufs|
      ensures BufOk(t, c)
    {
      assert BufOk(s, c);
    }
    forall q | 0 <= q < |t.ops|
      ensures OpOk(t, q)
    {
      assert OpOk(s, q);
    }
  }

  lemma KeepModify(s: State, p: int, b: int, data: Block, disk0: map<Key, Block>)
    requires Inv(s, disk0) && Enabled(s, Modify(p, b, data))
    ensures Inv(Next(s, Modify(p, b, data)), disk0)
  {
    var t := Next(s, Modify(p, b, data));
    assert BufOk(s, b);
    forall c | 0 <= c < |t.bufs|
      ensures BufOk(t, c)
    {
      assert BufOk(s, c);
    }
    forall q | 0 <= q < |t.ops|
      ensures OpOk(t, q)
    {
      assert OpOk(s, q);
    }
  }

  lemma KeepBwrite(s: State, p: int, b: int, disk0: map<Key, Block>)
    requires Inv(s, disk0) && Enabled(s, Bwrite(p, b))
    ensures Inv(Next(s, Bwrite(p, b)), disk0)
  {
    var t := Next(s, Bwrite(p, b));
    assert BufOk(s, b);
    forall c | 0 <= c < |t.bufs|
      ensures BufOk(t, c)
    {
      assert BufOk(s, c);
    }
    forall q | 0 <= q < |t.ops|
      ensures OpOk(t, q)
    {
      assert OpOk(s, q);
    }
  }

  lemma MoveByRelease(order: seq<int>, stamp: seq<int>, clock: int, b: int)
    requires IsRing(order, |stamp|) && 0 <= b < |stamp|
    requires forall i, j :: 0 <= i < j < |order| ==> stamp[order[i]] > stamp[order[j]]
    requires forall c :: 0 <= c < |stamp| ==> stamp[c] < clock
    ensures IsRing(MoveToFront(order, b), |stamp|)
    ensures var r := MoveToFront(order, b);
      forall i, j :: 0 <= i < j < |r| ==> stamp[b := clock][r[i]] > stamp[b := clock][r[j]]
  {
    MoveKeepsRing(order, |stamp|, b);
    var i := Position(order, |stamp|, b);
    MovedIs(order, i);
    var r := MoveToFront(order, b);
    hide MoveToFront;
    forall k | 0 <= k < |r|
      ensures r[k] == if k == 0 then b else if k <= i then order[k - 1] else order[k]
    {
    }
  }

  lemma BrelseBufs(s: State, p: int, b: int, disk0: map<Key, Block>)
    requires Inv(s, disk0) && Enabled(s, Brelse(p, b))
    ensures Shaped(Next(s, Brelse(p, b))) && forall c :: 0 <= c < |s.bufs| ==> BufOk(Next(s, Brelse(p, b)), c)
  {
    var t := Next(s, Brelse(p, b));
    assert BufOk(s, b);
    MoveKeepsRing(s.order, |s.bufs|, b);
    forall c | 0 <= c < |t.bufs|
      ensures BufOk(t, c)
    {
      assert BufOk(s, c);
    }
  }

  lemma BrelseOps(s: State, p: int, b: int, disk0: map<Key, Block>)
    requires Inv(s, disk0) && Enabled(s, Brelse(p, b))
    ensures Shaped(Next(s, Brelse(p, b))) && forall q :: 0 <= q < |s.ops| ==> OpOk(Next(s, Brelse(p, b)), q)
  {
    var t := Next(s, Brelse(p, b));
    assert BufOk(s, b);
    MoveKeepsRing(s.order, |s.bufs|, b);
    forall q | 0 <= q < |t.ops|
      ensures OpOk(t, q)
    {
      assert OpOk(s, q);
    }
  }

  lemma KeepBrelse(s: State, p: int, b: int, disk0: map<Key, Block>)
    requires Inv(s, disk0) && Enabled(s, Brelse(p, b))
    ensures Inv(Next(s, Brelse(p, b)), disk0)
  {
    BrelseBufs(s, p, b, disk0);
    BrelseOps(s, p, b, disk0);
    var t := Next(s, Brelse(p, b));
    assert BufOk(s, b);
    MoveKeepsRing(s.order, |s.bufs|, b);
    MoveByRelease(s.order, s.stamp, s.clock, b);
    hide BufOk, OpOk;
  }

  lemma InterruptBufs(s: State, disk0: map<Key, Block>)
    requires Inv(s, disk0) && s.queue != []
    ensures Shaped(Next(s, Interrupt)) && forall c :: 0 <= c < |s.bufs| ==> BufOk(Next(s, Interrupt), c)
  {
    var t := Next(s, Interrupt);
    var b := s.queue[0];
    assert BufOk(s, b);
    assert s.queue[1..] != [] ==> s.queue[1..][0] == s.queue[1] && s.queue[1] in s.queue && BufOk(s, s.queue[1]);
    forall c | 0 <= c < |t.bufs|
      ensures BufOk(t, c)
    {
      assert BufOk(s, c);
    }
  }

  lemma InterruptOps(s: State, disk0: map<Key, Block>)
    requires Inv(s, disk0) && s.queue != []
    ensures Shaped(Next(s, Interrupt)) && forall q :: 0 <= q < |s.ops| ==> OpOk(Next(s, Interrupt), q)
  {
    var t := Next(s, Interrupt);
    var b := s.queue[0];
    assert BufOk(s, b);
    assert s.queue[1..] != [] ==> s.queue[1..][0] == s.queue[1] && s.queue[1] in s.queue && BufOk(s, s.queue[1]);
    forall q | 0 <= q < |t.ops|
      ensures OpOk(t, q)
    {
      assert OpOk(s, q);
    }
  }

  lemma KeepInterrupt(s: State, disk0: map<Key, Block>)
    requires Inv(s, disk0) && s.queue != []
    ensures Inv(Next(s, Interrupt), disk0)
  {
    InterruptBufs(s, disk0);
    InterruptOps(s, disk0);
    var t := Next(s, Interrupt);
    var b := s.queue[0];
    assert BufOk(s, b);
    assert s.queue[1..] != [] ==> s.queue[1..][0] == s.queue[1] && s.queue[1] in s.queue && BufOk(s, s.queue[1]);
    hide BufOk, OpOk;
  }
}
