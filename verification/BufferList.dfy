/** The linked lists of the block cache (bio.c) and of the disk driver (ide.c), as index arrays and as sequences. */
module BufferList {
  // The ring of buffers has the most recently released first, the queue of requests the oldest. Buffers are numbers;
  // the ring's head is the number behind the last buffer.

  datatype Key = Key(dev: int, sector: int)

  // the device number of a buffer that has not been used yet
  const NODEV := 0xffff_ffff

  type Block = seq<bv8>

  datatype Buf = Buf(key: Key, busy: bool, valid: bool, dirty: bool, data: Block)

  ghost predicate Distinct(s: seq<int>) {
    forall i, j :: 0 <= i < j < |s| ==> s[i] != s[j]
  }

  /** order lists every buffer once. */
  ghost predicate IsRing(order: seq<int>, n: int) {
    && |order| == n && Distinct(order)
    && (forall k :: 0 <= k < n ==> 0 <= order[k] < n)
    && (forall b :: 0 <= b < n ==> b in order)
  }

  function Without(order: seq<int>, b: int): (r: seq<int>)
    ensures forall x :: x in r ==> x in order && x != b
    ensures forall x :: x in order && x != b ==> x in r
    ensures b !in order ==> r == order
  {
    if order == [] then [] else if order[0] == b then Without(order[1..], b) else [order[0]] + Without(order[1..], b)
  }

  function MoveToFront(order: seq<int>, b: int): seq<int> {
    [b] + Without(order, b)
  }

  lemma {:induction false} WithoutAt(order: seq<int>, i: int)
    requires Distinct(order) && 0 <= i < |order|
    ensures Without(order, order[i]) == order[..i] + order[i + 1..]
  {
    var b := order[i];
    if i == 0 {
      assert b !in order[1..];
      assert Without(order, b) == Without(order[1..], b) == order[1..];
    } else {
      WithoutAt(order[1..], i - 1);
      assert order[1..][..i - 1] + order[1..][i..] == order[1..i] + order[i + 1..];
      assert [order[0]] + order[1..i] == order[..i];
    }
  }

  lemma MoveKeepsRing(order: seq<int>, n: int, b: int)
    requires IsRing(order, n) && 0 <= b < n
    ensures IsRing(MoveToFront(order, b), n)
  {
    assert b in order;
    var i :| 0 <= i < |order| && order[i] == b;
    WithoutAt(order, i);
    MovedRing(order, n, i, MoveToFront(order, b));
  }

  lemma MovedRing(order: seq<int>, n: int, i: int, r: seq<int>)
    requires IsRing(order, n) && 0 <= i < n && r == [order[i]] + (order[..i] + order[i + 1..])
    ensures IsRing(r, n)
  {
    forall k | 0 <= k < n
      ensures r[k] == if k == 0 then order[i] else if k <= i then order[k - 1] else order[k]
    {
    }
    forall x | 0 <= x < n
      ensures x in r
    {
      assert x in order;
      var j :| 0 <= j < n && order[j] == x;
      assert r[if j == i then 0 else if j < i then j + 1 else j] == x;
    }
  }

  /** The last buffer of the ring, so the one released longest ago, that nobody holds; -1 if there is none. */
  function OldestIdle(order: seq<int>, busy: int -> bool): (b: int)
    ensures b != -1 ==> b in order && !busy(b)
    ensures b == -1 ==> forall x :: x in order && 0 <= x ==> busy(x)
    decreases |order|
  {
    if order == [] then -1
    else
      var x := order[|order| - 1];
      if !busy(x) && x != -1 then x else OldestIdle(order[..|order| - 1], busy)
  }

  /** Nothing idle lies behind it in the ring. */
  lemma {:induction false} OldestIsLast(order: seq<int>, busy: int -> bool, i: int)
    requires Distinct(order) && 0 <= i < |order| && order[i] == OldestIdle(order, busy) != -1
    ensures forall k :: i < k < |order| && order[k] != -1 ==> busy(order[k])
    decreases |order|
  {
    var last := |order| - 1;
    if busy(order[last]) || order[last] == -1 {
      if i < last {
        OldestIsLast(order[..last], busy, i);
        assert forall k :: i < k < last ==> order[..last][k] == order[k];
      }
    }
  }

  // ----- The ring of bio.c, with its pointers

  /** What comes k-th, counting from the head: the head is at both ends. */
  function At(order: seq<int>, n: int, k: int): int {
    if 0 <= k < |order| then order[k] else n
  }

  ghost predicate Linked(next: seq<int>, prev: seq<int>, order: seq<int>, n: int) {
    && |next| == |prev| == n + 1 && 0 <= n
    && Distinct(order) && (forall k :: 0 <= k < |order| ==> 0 <= order[k] < n)
    && (forall k :: -1 <= k < |order| ==>
      next[At(order, n, k)] == At(order, n, k + 1) && prev[At(order, n, k + 1)] == At(order, n, k))
  }

  lemma LinkNone(next: seq<int>, prev: seq<int>, n: int)
    requires 0 <= n && |next| == |prev| == n + 1 && next[n] == n == prev[n]
    ensures Linked(next, prev, [], n)
  {
  }

  /** b->next->prev = b->prev; b->prev->next = b->next; */
  lemma Unlinked(next: seq<int>, prev: seq<int>, order: seq<int>, n: int, i: int)
    requires Linked(next, prev, order, n) && 0 <= i < |order|
    ensures 0 <= next[order[i]] <= n && 0 <= prev[order[i]] <= n
    ensures Linked(next[prev[order[i]] := next[order[i]]], prev[next[order[i]] := prev[order[i]]],
      order[..i] + order[i + 1..], n)
  {
    var b := order[i];
    assert next[At(order, n, i)] == At(order, n, i + 1) && prev[At(order, n, (i - 1) + 1)] == At(order, n, i - 1);
    var order' := order[..i] + order[i + 1..];
    var next', prev' := next[prev[b] := next[b]], prev[next[b] := prev[b]];
    forall k | -1 <= k < |order'|
      ensures next'[At(order', n, k)] == At(order', n, k + 1) && prev'[At(order', n, k + 1)] == At(order', n, k)
    {
      var j := if k < i then k else k + 1;
      assert next[At(order, n, j)] == At(order, n, j + 1) && prev[At(order, n, j + 1)] == At(order, n, j);
    }
  }

  ghost function Position(order: seq<int>, n: int, b: int): (i: int)
    requires IsRing(order, n) && 0 <= b < n
    ensures 0 <= i < |order| && order[i] == b
  {
    assert b in order;
    var i :| 0 <= i < |order| && order[i] == b;
    i
  }

  lemma RingDistinct(order: seq<int>, n: int)
    requires IsRing(order, n)
    ensures Distinct(order)
  {
  }

  lemma Neighbours(next: seq<int>, prev: seq<int>, order: seq<int>, n: int, i: int)
    requires Linked(next, prev, order, n) && 0 <= i < |order|
    ensures |next| == |prev| == n + 1 && 0 <= order[i] < n && 0 <= next[order[i]] <= n && 0 <= prev[order[i]] <= n
    ensures next[order[i]] != order[i] && order[i] !in order[..i] + order[i + 1..]
  {
    assert next[At(order, n, i)] == At(order, n, i + 1) && prev[At(order, n, (i - 1) + 1)] == At(order, n, i - 1);
  }

  lemma MovedIs(order: seq<int>, i: int)
    requires Distinct(order) && 0 <= i < |order|
    ensures MoveToFront(order, order[i]) == [order[i]] + (order[..i] + order[i + 1..])
  {
    WithoutAt(order, i);
  }

  /** b->next = head.next; b->prev = &head; head.next->prev = b; head.next = b; */
  lemma PushedFront(next: seq<int>, prev: seq<int>, order: seq<int>, n: int, b: int)
    requires Linked(next, prev, order, n) && 0 <= b < n && b !in order
    ensures 0 <= next[n] <= n && next[n] != b
    ensures Linked(next[b := next[n]][n := b], prev[b := n][next[n] := b], [b] + order, n)
  {
    assert next[At(order, n, -1)] == At(order, n, 0);
    var order' := [b] + order;
    var next', prev' := next[b := next[n]][n := b], prev[b := n][next[n] := b];
    forall k | -1 <= k < |order'|
      ensures next'[At(order', n, k)] == At(order', n, k + 1) && prev'[At(order', n, k + 1)] == At(order', n, k)
    {
      if k > 0 {
        assert next[At(order, n, k - 1)] == At(order, n, (k - 1) + 1) &&
          prev[At(order, n, (k - 1) + 1)] == At(order, n, k - 1);
      }
    }
  }

  // ----- The lookups of bget

  /** The first buffer of the ring with that key, -1 if there is none. */
  function FindKey(order: seq<int>, bufs: seq<Buf>, key: Key): (b: int)
    requires forall k :: 0 <= k < |order| ==> 0 <= order[k] < |bufs|
    ensures b != -1 ==> b in order && 0 <= b < |bufs| && bufs[b].key == key
    ensures b == -1 ==> forall x :: x in order ==> bufs[x].key != key
  {
    if order == [] then -1
    else if bufs[order[0]].key == key then order[0]
    else FindKey(order[1..], bufs, key)
  }

  lemma {:induction false} FindSkips(order: seq<int>, bufs: seq<Buf>, key: Key, i: int)
    requires forall k :: 0 <= k < |order| ==> 0 <= order[k] < |bufs|
    requires 0 <= i <= |order| && forall k :: 0 <= k < i ==> bufs[order[k]].key != key
    ensures FindKey(order, bufs, key) == FindKey(order[i..], bufs, key)
    decreases i
  {
    if i > 0 {
      FindSkips(order[1..], bufs, key, i - 1);
      assert order[1..][i - 1..] == order[i..];
    } else {
      assert order[0..] == order;
    }
  }

  function IsBusy(bufs: seq<Buf>): int -> bool {
    (b: int) => 0 <= b < |bufs| && bufs[b].busy
  }

  lemma {:induction false} OldestSkips(order: seq<int>, busy: int -> bool, i: int)
    requires 0 <= i <= |order| && forall k :: i <= k < |order| ==> busy(order[k])
    ensures OldestIdle(order, busy) == OldestIdle(order[..i], busy)
    decreases |order|
  {
    if i < |order| {
      OldestSkips(order[..|order| - 1], busy, i);
      assert order[..|order| - 1][..i] == order[..i];
    } else {
      assert order[..i] == order;
    }
  }

  /** What one pass of bget finds, with bcache.lock held. */
  datatype Got = Cached(b: int) | MustSleep(b: int) | Recycled(b: int) | NoBuffers

  function BgetSpec(order: seq<int>, bufs: seq<Buf>, key: Key): Got
    requires forall k :: 0 <= k < |order| ==> 0 <= order[k] < |bufs|
  {
    var b := FindKey(order, bufs, key);
    if b != -1 then (if bufs[b].busy then MustSleep(b) else Cached(b))
    else
      var c := OldestIdle(order, IsBusy(bufs));
      if c != -1 then Recycled(c) else NoBuffers
  }

  /** The buffers after that pass. */
  function BgetBufs(bufs: seq<Buf>, key: Key, g: Got): seq<Buf>
    requires g.Cached? || g.Recycled? ==> 0 <= g.b < |bufs|
  {
    match g
    case Cached(b) => bufs[b := bufs[b].(busy := true)]
    case Recycled(b) => bufs[b := Buf(key, true, false, false, bufs[b].data)]
    case _ => bufs
  }

  // ----- The queue of ide.c, with its pointers; -1 is the null pointer

  ghost predicate Queued(qnext: seq<int>, head: int, queue: seq<int>) {
    && Distinct(queue) && (forall k :: 0 <= k < |queue| ==> 0 <= queue[k] < |qnext|)
    && head == (if queue == [] then -1 else queue[0])
    && (forall k :: 0 <= k < |queue| ==> qnext[queue[k]] == if k + 1 < |queue| then queue[k + 1] else -1)
  }

  lemma QueueOutside(qnext: seq<int>, head: int, queue: seq<int>, b: int)
    requires Queued(qnext, head, queue) && 0 <= b < |qnext| && b !in queue
    ensures Queued(qnext[b := -1], head, queue)
  {
  }

  lemma QueueLonger(qnext: seq<int>, head: int, queue: seq<int>, b: int)
    requires Queued(qnext, head, queue) && 0 <= b < |qnext| && b !in queue && qnext[b] == -1
    ensures queue == [] ==> Queued(qnext, b, queue + [b])
    ensures queue != [] ==> Queued(qnext[queue[|queue| - 1] := b], head, queue + [b])
  {
  }

  lemma QueueShorter(qnext: seq<int>, head: int, queue: seq<int>)
    requires Queued(qnext, head, queue) && queue != []
    ensures head == queue[0] && 0 <= head < |qnext| && Queued(qnext, qnext[head], queue[1..])
  {
    var rest := queue[1..];
    assert qnext[queue[0]] == if 0 + 1 < |queue| then queue[1] else -1;
    assert rest != [] ==> rest[0] == queue[1];
    forall k | 0 <= k < |rest|
      ensures qnext[rest[k]] == if k + 1 < |rest| then rest[k + 1] else -1
    {
      assert rest[k] == queue[k + 1];
      assert qnext[queue[k + 1]] == if (k + 1) + 1 < |queue| then queue[(k + 1) + 1] else -1;
      assert k + 1 < |rest| ==> rest[k + 1] == queue[(k + 1) + 1];
    }
    assert Queued(qnext, qnext[head], rest);
  }

  class Lists {
    const n: int
    const bufs: array<Buf>
    const next: array<int>
    const prev: array<int>
    const qnext: array<int>
    var idequeue: int
    ghost var order: seq<int>
    ghost var queue: seq<int>

    ghost predicate Valid()
      reads this, bufs, next, prev, qnext
    {
      && bufs.Length == qnext.Length == n && next.Length == prev.Length == n + 1
      && next != prev && next != qnext && prev != qnext
      && Linked(next[..], prev[..], order, n) && IsRing(order, n)
      && Queued(qnext[..], idequeue, queue)
    }

    /** binit: every buffer is pushed in front of the others, with a device number that matches no disk. */
    constructor (n: int, data: Block)
      requires 0 < n
      ensures Valid() && fresh(bufs) && fresh(next) && fresh(prev) && fresh(qnext)
      ensures this.n == n && queue == [] && order == seq(n, k => n - 1 - k)
      ensures forall b :: 0 <= b < n ==> bufs[b] == Buf(Key(NODEV, 0), false, false, false, data)
    {
      this.n := n;
      var blank := Buf(Key(NODEV, 0), false, false, false, data);
      bufs := new Buf[n](_ => blank);
      next := new int[n + 1](_ => 0);
      prev := new int[n + 1](_ => 0);
      qnext := new int[n](_ => -1);
      idequeue := -1;
      order, queue := [], [];
      new;
      prev[n] := n;
      next[n] := n;
      LinkAll();
      forall x | 0 <= x < n
        ensures x in order
      {
        assert order[n - 1 - x] == x;
      }
    }

    /** The loop of binit. */
    method LinkAll()
      requires 0 < n && next.Length == prev.Length == n + 1 && next != prev && next[n] == n == prev[n] && order == []
      modifies next, prev, this`order
      ensures Linked(next[..], prev[..], order, n) && order == seq(n, k => n - 1 - k)
    {
      hide Linked;
      LinkNone(next[..], prev[..], n);
      var b := 0;
      while b < n
        invariant 0 <= b <= n && Linked(next[..], prev[..], order, n) && order == seq(b, k => b - 1 - k)
      {
        PushedFront(next[..], prev[..], order, n, b);
        ghost var next0, prev0 := next[..], prev[..];
        next[b] := next[n];
        prev[b] := n;
        prev[next[n]] := b;
        next[n] := b;
        order := [b] + order;
        assert next[..] == next0[b := next0[n]][n := b] && prev[..] == prev0[b := n][next0[n] := b];
        b := b + 1;
      }
    }

    /** brelse: b moves to the front; ok is false where the source panics. */
    method Brelse(b: int) returns (ok: bool)
      requires Valid() && 0 <= b < n
      modifies this`order, bufs, next, prev
      ensures Valid() && queue == old(queue)
      ensures ok <==> old(bufs[b].busy)
      ensures !ok ==> bufs[..] == old(bufs[..]) && order == old(order)
      ensures ok ==> order == MoveToFront(old(order), b) && bufs[..] == old(bufs[..])[b := old(bufs[b]).(busy := false)]
    {
      if !bufs[b].busy {
        return false;
      }
      Rewire(b);
      bufs[b] := bufs[b].(busy := false);
      ok := true;
    }

    /** The pointer assignments of brelse. */
    method Rewire(b: int)
      requires Valid() && 0 <= b < n
      modifies this`order, next, prev
      ensures Valid() && order == MoveToFront(old(order), b)
    {
      hide Queued, IsRing, Linked, MoveToFront, Without, At;
      ghost var order0, next0, prev0 := order, next[..], prev[..];
      ghost var i := Position(order, n, b);
      RingDistinct(order, n);
      Unlinked(next0, prev0, order, n, i);
      Neighbours(next0, prev0, order, n, i);
      prev[next[b]] := prev[b];
      next[prev[b]] := next[b];
      ghost var next1, prev1, order1 := next[..], prev[..], order[..i] + order[i + 1..];
      assert next1 == next0[prev0[b] := next0[b]] && prev1 == prev0[next0[b] := prev0[b]];
      PushedFront(next1, prev1, order1, n, b);
      next[b] := next[n];
      prev[b] := n;
      prev[next[n]] := b;
      next[n] := b;
      assert next[..] == next1[b := next1[n]][n := b] && prev[..] == prev1[b := n][next1[n] := b];
      MovedIs(order0, i);
      MoveKeepsRing(order0, n, b);
      order := MoveToFront(order0, b);
    }

    /** One pass of bget from the label loop on. */
    method Bget(key: Key) returns (g: Got)
      requires Valid()
      modifies bufs
      ensures Valid() && order == old(order) && queue == old(queue)
      ensures g == BgetSpec(order, old(bufs[..]), key)
      ensures bufs[..] == BgetBufs(old(bufs[..]), key, g)
    {
      var b := Find(key);
      if b != -1 {
        if !bufs[b].busy {
          bufs[b] := bufs[b].(busy := true);
          return Cached(b);
        }
        return MustSleep(b);
      }
      b := FindIdle();
      if b != -1 {
        bufs[b] := Buf(key, true, false, false, bufs[b].data);
        return Recycled(b);
      }
      g := NoBuffers;
    }

    /** The first loop of bget, from the front. */
    method Find(key: Key) returns (b: int)
      requires Valid()
      ensures b == FindKey(order, bufs[..], key)
    {
      b := next[n];
      ghost var i := 0;
      Step(-1);
      while b != n
        invariant 0 <= i <= n && b == At(order, n, i)
        invariant forall k :: 0 <= k < i ==> bufs[..][order[k]].key != key
        decreases n - i
      {
        Step(i);
        if bufs[b].key == key {
          FindSkips(order, bufs[..], key, i);
          return b;
        }
        b, i := next[b], i + 1;
      }
      FindSkips(order, bufs[..], key, n);
      b := -1;
    }

    /** The second loop of bget, from the back. */
    method FindIdle() returns (b: int)
      requires Valid()
      ensures b == OldestIdle(order, IsBusy(bufs[..]))
    {
      b := prev[n];
      ghost var i := n;
      Step(n - 1);
      while b != n
        invariant 0 <= i <= n && b == At(order, n, i - 1)
        invariant forall k :: i <= k < n ==> IsBusy(bufs[..])(order[k])
        decreases i
      {
        Step(i - 2);
        if !bufs[b].busy {
          OldestSkips(order, IsBusy(bufs[..]), i);
          return b;
        }
        b, i := prev[b], i - 1;
      }
      OldestSkips(order, IsBusy(bufs[..]), 0);
      b := -1;
    }

    lemma Step(k: int)
      requires Valid()
      ensures -1 <= k < n ==> 0 <= At(order, n, k) <= n && 0 <= At(order, n, k + 1) <= n
      ensures -1 <= k < n ==>
        next[At(order, n, k)] == At(order, n, k + 1) && prev[At(order, n, k + 1)] == At(order, n, k)
      ensures 0 <= k < n ==> 0 <= order[k] < n
    {
      assert -1 <= k < n ==>
        next[..][At(order, n, k)] == At(order, n, k + 1) && prev[..][At(order, n, k + 1)] == At(order, n, k);
    }

    /** iderw's walk to the end of the queue. */
    method Append(b: int)
      requires Valid() && 0 <= b < n && b !in queue
      modifies this`idequeue, this`queue, qnext
      ensures Valid() && queue == old(queue) + [b] && order == old(order)
    {
      QueueOutside(qnext[..], idequeue, queue, b);
      qnext[b] := -1;
      ghost var i, q1 := 0, qnext[..];
      // pp points to idequeue, or to the qnext field of buffer at
      var at := -1;
      var p := idequeue;
      while p != -1
        invariant 0 <= i <= |queue| && p == (if i < |queue| then queue[i] else -1)
        invariant at == (if i == 0 then -1 else queue[i - 1])
        invariant qnext[..] == q1 && Queued(q1, idequeue, queue)
        decreases |queue| - i
      {
        assert q1[queue[i]] == qnext[queue[i]];
        at := p;
        p := qnext[p];
        i := i + 1;
      }
      if at == -1 {
        idequeue := b;
      } else {
        qnext[at] := b;
      }
      QueueLonger(q1, old(idequeue), queue, b);
      assert at != -1 ==> qnext[..] == q1[at := b];
      queue := queue + [b];
    }

    /** ideintr: the request at the front, -1 if there is none. */
    method TakeFirst() returns (b: int)
      requires Valid()
      modifies this`idequeue, this`queue
      ensures Valid() && order == old(order)
      ensures b == -1 <==> old(queue) == []
      ensures b == -1 ==> queue == []
      ensures b != -1 ==> old(queue) == [b] + queue
    {
      b := idequeue;
      if b == -1 {
        return;
      }
      QueueShorter(qnext[..], idequeue, queue);
      idequeue := qnext[b];
      queue := queue[1..];
    }
  }
}
