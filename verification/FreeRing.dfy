/** The circular free list of umalloc.c as a value.
    A ring is the sequence of free blocks in address order, from base on; base itself
    has no units. Sizes are in units of one header, as in the source.
    Two operations change a ring: free puts a block into its gap and joins it with the
    neighbours it touches, and malloc takes a block out, or the tail of one. Each comes
    with the pointer and size words it writes, and with proofs that those words describe
    the new ring, that no unit is lost, and that blocks in use are left alone. */
module FreeRing {

  const UNIT := 8

  datatype Blk = Blk(addr: int, units: int)

  function End(b: Blk): int {
    b.addr + UNIT * b.units
  }

  /** base, of size zero, comes first; blocks ascend with a gap after each, so none overlap or touch. */
  ghost predicate RingOk(ring: seq<Blk>, base: int) {
    && |ring| > 0 && ring[0] == Blk(base, 0) && base > 0
    && (forall i :: 1 <= i < |ring| ==> ring[i].units >= 1 && ring[i].addr >= base + UNIT)
    && (forall i, j :: 0 <= i < j < |ring| ==> End(ring[i]) < ring[j].addr)
  }

  /** The successor on the circle. */
  function Succ(n: int, i: int): int {
    if i + 1 == n then 0 else i + 1
  }

  /** How many links after f the circle reaches j, f itself coming last. */
  function Dist(n: int, f: int, j: int): int {
    if j > f then j - f - 1 else j - f - 1 + n
  }

  /** Two blocks share no byte. */
  predicate Apart(a: Blk, b: Blk) {
    End(a) <= b.addr || End(b) <= a.addr
  }

  // ----- free

  /** b lies in the gap after ring[k]. */
  ghost predicate InGap(ring: seq<Blk>, k: int, b: Blk) {
    && 0 <= k < |ring| && b.units >= 1 && b.addr > ring[k].addr && End(ring[k]) <= b.addr
    && (k + 1 < |ring| ==> End(b) <= ring[k + 1].addr)
  }

  /** The gap an address falls in: after the last block that starts below it. */
  ghost function GapOf(ring: seq<Blk>, addr: int, n: int): (k: int)
    requires 1 <= n <= |ring| && ring[0].addr < addr
    ensures 0 <= k < n && ring[k].addr < addr
    ensures forall i :: k < i < n ==> ring[i].addr >= addr
    decreases n
  {
    if ring[n - 1].addr < addr then n - 1 else GapOf(ring, addr, n - 1)
  }

  /** For a block apart from the free ones it is a gap indeed, and the only one. */
  lemma GapOfIsGap(ring: seq<Blk>, base: int, b: Blk)
    requires RingOk(ring, base) && b.units >= 1 && b.addr >= base + UNIT
    requires forall i :: 1 <= i < |ring| ==> Apart(b, ring[i])
    ensures InGap(ring, GapOf(ring, b.addr, |ring|), b)
    ensures forall k :: 0 <= k < |ring| && b.addr > ring[k].addr && (k + 1 < |ring| ==> b.addr < ring[k + 1].addr) ==>
      k == GapOf(ring, b.addr, |ring|)
    ensures forall i :: 0 <= i < |ring| ==> ring[i].addr != b.addr
  {
    var g := GapOf(ring, b.addr, |ring|);
    if g > 0 {
      assert Apart(b, ring[g]);
    }
    if g + 1 < |ring| {
      assert Apart(b, ring[g + 1]);
    }
    forall k | 0 <= k < |ring| && b.addr > ring[k].addr && (k + 1 < |ring| ==> b.addr < ring[k + 1].addr)
      ensures k == g
    {
    }
  }

  ghost predicate TouchesNext(ring: seq<Blk>, k: int, b: Blk)
    requires 0 <= k < |ring|
  {
    k + 1 < |ring| && End(b) == ring[k + 1].addr
  }

  ghost predicate TouchesPrev(ring: seq<Blk>, k: int, b: Blk)
    requires 0 <= k < |ring|
  {
    End(ring[k]) == b.addr
  }

  /** b together with the block after it, if they touch. */
  ghost function JoinNext(ring: seq<Blk>, k: int, b: Blk): Blk
    requires 0 <= k < |ring|
  {
    if TouchesNext(ring, k, b) then Blk(b.addr, b.units + ring[k + 1].units) else b
  }

  /** One block m in place of ring[l..r]. */
  ghost function Splice(ring: seq<Blk>, l: int, m: Blk, r: int): seq<Blk>
    requires 0 <= l <= r <= |ring|
  {
    ring[..l] + [m] + ring[r..]
  }

  /** The ring after b is freed into the gap after ring[k], joined with the blocks it touches. */
  ghost function Inserted(ring: seq<Blk>, k: int, b: Blk): seq<Blk>
    requires 0 <= k < |ring|
  {
    var c := JoinNext(ring, k, b);
    var r := if TouchesNext(ring, k, b) then k + 2 else k + 1;
    if TouchesPrev(ring, k, b) then Splice(ring, k, Blk(ring[k].addr, ring[k].units + c.units), r)
    else Splice(ring, k + 1, c, r)
  }

  /** Index i of the new ring: before, at, or behind the splice. */
  lemma SpliceAt(ring: seq<Blk>, l: int, m: Blk, r: int, i: int)
    requires 0 <= l <= r <= |ring| && 0 <= i < |ring| - (r - l) + 1
    ensures |Splice(ring, l, m, r)| == |ring| - (r - l) + 1
    ensures Splice(ring, l, m, r)[i] == if i < l then ring[i] else if i == l then m else ring[i - l - 1 + r]
  {
  }

  lemma SpliceOk(ring: seq<Blk>, base: int, l: int, m: Blk, r: int)
    requires RingOk(ring, base) && 1 <= l <= r <= |ring|
    requires m.units >= 1 && m.addr >= base + UNIT && End(ring[l - 1]) < m.addr
    requires r < |ring| ==> End(m) < ring[r].addr
    ensures RingOk(Splice(ring, l, m, r), base)
  {
    var out := Splice(ring, l, m, r);
    hide Splice;
    SpliceAt(ring, l, m, r, 0);
    forall i | 0 <= i < |out|
      ensures out[i] == if i < l then ring[i] else if i == l then m else ring[i - l - 1 + r]
    {
      SpliceAt(ring, l, m, r, i);
    }
    forall i, j | 0 <= i < j < |out|
      ensures End(out[i]) < out[j].addr
    {
      if j == l && i < l - 1 {
        assert End(ring[i]) < ring[l - 1].addr;
      }
      if i == l {
        assert End(m) < ring[r].addr;
      }
    }
  }

  lemma InsertedOk(ring: seq<Blk>, base: int, k: int, b: Blk)
    requires RingOk(ring, base) && InGap(ring, k, b) && b.addr >= base + UNIT
    ensures RingOk(Inserted(ring, k, b), base)
  {
    hide RingOk, JoinNext, Splice, TouchesNext;
    InsertedFits(ring, base, k, b);
    var c, r := JoinNext(ring, k, b), if TouchesNext(ring, k, b) then k + 2 else k + 1;
    if TouchesPrev(ring, k, b) {
      SpliceOk(ring, base, k, Blk(ring[k].addr, ring[k].units + c.units), r);
    } else {
      SpliceOk(ring, base, k + 1, c, r);
    }
  }

  /** The joined block still fits its gap. */
  lemma InsertedFits(ring: seq<Blk>, base: int, k: int, b: Blk)
    requires RingOk(ring, base) && InGap(ring, k, b) && b.addr >= base + UNIT
    ensures var c, r := JoinNext(ring, k, b), if TouchesNext(ring, k, b) then k + 2 else k + 1;
      && c.units >= 1 && c.addr == b.addr && r <= |ring| && (r < |ring| ==> End(c) < ring[r].addr)
      && (TouchesPrev(ring, k, b) ==>
        k > 0 && ring[k].units >= 1 && End(ring[k - 1]) < ring[k].addr && ring[k].addr >= base + UNIT)
      && (!TouchesPrev(ring, k, b) ==> End(ring[k]) < b.addr)
  {
  }

  /** No unit is lost or gained. */
  ghost function Total(ring: seq<Blk>): int {
    if ring == [] then 0 else ring[0].units + Total(ring[1..])
  }

  lemma {:induction false} TotalConcat(a: seq<Blk>, b: seq<Blk>)
    ensures Total(a + b) == Total(a) + Total(b)
  {
    if a == [] {
      assert a + b == b;
    } else {
      assert (a + b)[1..] == a[1..] + b;
      TotalConcat(a[1..], b);
    }
  }

  lemma TotalSplit(ring: seq<Blk>, i: int)
    requires 0 <= i < |ring|
    ensures Total(ring) == Total(ring[..i]) + ring[i].units + Total(ring[i + 1..])
  {
    assert ring == ring[..i] + ring[i..] && ring[i..][1..] == ring[i + 1..];
    TotalConcat(ring[..i], ring[i..]);
  }

  lemma TotalSplice(ring: seq<Blk>, l: int, m: Blk, r: int)
    requires 0 <= l <= r <= |ring|
    ensures Total(Splice(ring, l, m, r)) == Total(ring) - Total(ring[l..r]) + m.units
  {
    TotalConcat(ring[..l] + [m], ring[r..]);
    TotalConcat(ring[..l], [m]);
    assert [m][1..] == [];
    assert ring == ring[..l] + ring[l..r] + ring[r..];
    TotalConcat(ring[..l] + ring[l..r], ring[r..]);
    TotalConcat(ring[..l], ring[l..r]);
  }

  lemma TotalShort(ring: seq<Blk>, l: int, r: int)
    requires 0 <= l <= r <= |ring| && r - l <= 2
    ensures Total(ring[l..r]) == (if l < r then ring[l].units else 0) + (if l + 1 < r then ring[l + 1].units else 0)
  {
    var s := ring[l..r];
    if |s| == 1 {
      assert s[1..] == [];
    } else if |s| == 2 {
      var u := s[1..];
      assert |u| == 1 && u[1..] == [] && Total(u) == u[0].units && u[0] == s[1];
    }
  }

  lemma InsertedTotal(ring: seq<Blk>, k: int, b: Blk)
    requires 0 <= k < |ring|
    ensures Total(Inserted(ring, k, b)) == Total(ring) + b.units
  {
    hide Total, Splice;
    var c, r := JoinNext(ring, k, b), if TouchesNext(ring, k, b) then k + 2 else k + 1;
    if TouchesPrev(ring, k, b) {
      TotalShort(ring, k, r);
      TotalSplice(ring, k, Blk(ring[k].addr, ring[k].units + c.units), r);
    } else {
      TotalShort(ring, k + 1, r);
      TotalSplice(ring, k + 1, c, r);
    }
  }

  lemma InsertedBelow(ring: seq<Blk>, brk: int, k: int, b: Blk)
    requires InGap(ring, k, b) && End(b) <= brk && forall i :: 0 <= i < |ring| ==> End(ring[i]) <= brk
    ensures forall i :: 0 <= i < |Inserted(ring, k, b)| ==> End(Inserted(ring, k, b)[i]) <= brk
  {
    var l, r := if TouchesPrev(ring, k, b) then k else k + 1, if TouchesNext(ring, k, b) then k + 2 else k + 1;
    var m := if TouchesPrev(ring, k, b) then Blk(ring[k].addr, ring[k].units + JoinNext(ring, k, b).units)
      else JoinNext(ring, k, b);
    forall i | 0 <= i < |Inserted(ring, k, b)|
      ensures End(Inserted(ring, k, b)[i]) <= brk
    {
      InsertedAt(ring, k, b, l, m, r, i);
      hide Inserted;
    }
  }

  // ----- malloc

  /** Taking n units from block i: the whole block, or its tail end. */
  ghost function Taken(ring: seq<Blk>, i: int, n: int): seq<Blk>
    requires 0 <= i < |ring|
  {
    if ring[i].units == n then ring[..i] + ring[i + 1..]
    else ring[i := Blk(ring[i].addr, ring[i].units - n)]
  }

  function TakenAddr(b: Blk, n: int): (a: int)
    ensures End(Blk(a, n)) == End(b)
  {
    b.addr + UNIT * (b.units - n)
  }

  lemma TakenTotal(ring: seq<Blk>, i: int, n: int)
    requires 0 <= i < |ring|
    ensures Total(Taken(ring, i, n)) == Total(ring) - n
  {
    TotalSplit(ring, i);
    if ring[i].units == n {
      TotalConcat(ring[..i], ring[i + 1..]);
    } else {
      var out := Taken(ring, i, n);
      TotalSplit(out, i);
      assert out[..i] == ring[..i] && out[i + 1..] == ring[i + 1..];
    }
  }

  lemma TakenOk(ring: seq<Blk>, base: int, i: int, n: int)
    requires RingOk(ring, base) && 0 <= i < |ring| && 1 <= n <= ring[i].units
    ensures i > 0 && RingOk(Taken(ring, i, n), base)
  {
    var out := Taken(ring, i, n);
    if ring[i].units == n {
      assert forall j :: 0 <= j < |out| ==> out[j] == if j < i then ring[j] else ring[j + 1];
    } else {
      assert forall j :: 0 <= j < |out| && j != i ==> out[j] == ring[j];
    }
  }

  /** Next fit: block i is the first one after f, going round, that has n units. */
  ghost predicate NextFit(ring: seq<Blk>, f: int, i: int, n: int) {
    && 0 <= f < |ring| && 0 <= i < |ring| && ring[i].units >= n
    && TooSmallUpTo(ring, f, i, n)
  }

  /** Every block the circle reaches from f before it reaches i is too small. */
  ghost predicate TooSmallUpTo(ring: seq<Blk>, f: int, i: int, n: int) {
    forall j :: 0 <= j < |ring| && Dist(|ring|, f, j) < Dist(|ring|, f, i) ==> ring[j].units < n
  }

  lemma TooSmallStep(ring: seq<Blk>, f: int, i: int, n: int)
    requires 0 <= f < |ring| && 0 <= i < |ring| && i != f
    requires TooSmallUpTo(ring, f, i, n) && ring[i].units < n
    ensures TooSmallUpTo(ring, f, Succ(|ring|, i), n)
    ensures Dist(|ring|, f, Succ(|ring|, i)) == Dist(|ring|, f, i) + 1
  {
  }

  /** Coming back to f without a fit means there is none. */
  lemma NoneOnCircle(ring: seq<Blk>, f: int, n: int, j: int)
    requires 0 <= f < |ring| && TooSmallUpTo(ring, f, f, n) && ring[f].units < n && 0 <= j < |ring|
    ensures ring[j].units < n
  {
    assert Dist(|ring|, f, f) == |ring| - 1;
  }

  /** A block freed after ring[k] ends up in ring[k] or right behind it, whole. */
  lemma InsertedHolds(ring: seq<Blk>, k: int, b: Blk)
    requires InGap(ring, k, b)
    requires forall i :: 0 <= i < |ring| ==> ring[i].units >= 0
    ensures k < |Inserted(ring, k, b)| && Inserted(ring, k, b)[k].addr == ring[k].addr
    ensures Inserted(ring, k, b)[k].units >= b.units ||
      (k + 1 < |Inserted(ring, k, b)| && Inserted(ring, k, b)[k + 1].units >= b.units)
  {
  }

  // ----- Which bytes are free

  predicate In(b: Blk, x: int) {
    b.addr <= x < End(b)
  }

  ghost predicate IsFree(ring: seq<Blk>, x: int) {
    exists i :: 0 <= i < |ring| && In(ring[i], x)
  }

  lemma InOne(ring: seq<Blk>, base: int, i: int, j: int, x: int)
    requires RingOk(ring, base) && 0 <= i < |ring| && 0 <= j < |ring| && In(ring[i], x) && In(ring[j], x)
    ensures i == j
  {
  }

  /** free makes exactly the block's bytes free. */
  lemma InsertedBytes(ring: seq<Blk>, base: int, k: int, b: Blk, x: int)
    requires RingOk(ring, base) && InGap(ring, k, b)
    ensures IsFree(Inserted(ring, k, b), x) <==> IsFree(ring, x) || In(b, x)
  {
    hide Inserted, RingOk;
    var l, r := if TouchesPrev(ring, k, b) then k else k + 1, if TouchesNext(ring, k, b) then k + 2 else k + 1;
    var m := if TouchesPrev(ring, k, b) then Blk(ring[k].addr, ring[k].units + JoinNext(ring, k, b).units)
      else JoinNext(ring, k, b);
    var out := Inserted(ring, k, b);
    JoinedBytes(ring, base, k, b, x);
    InsertedAt(ring, k, b, l, m, r, l);
    hide JoinNext, TouchesNext, TouchesPrev;
    if i :| 0 <= i < |ring| && In(ring[i], x) {
      var j := if i < l then i else if i < r then l else i - r + l + 1;
      InsertedAt(ring, k, b, l, m, r, j);
      assert In(out[j], x);
    }
    if In(b, x) {
      assert In(out[l], x);
    }
    if i :| 0 <= i < |out| && In(out[i], x) {
      InsertedAt(ring, k, b, l, m, r, i);
      assert i < l ==> In(ring[i], x);
      assert i > l ==> In(ring[i - l - 1 + r], x);
    }
  }

  /** The joined block is the freed one and the neighbours it touches. */
  lemma JoinedBytes(ring: seq<Blk>, base: int, k: int, b: Blk, x: int)
    requires RingOk(ring, base) && InGap(ring, k, b)
    ensures var m := if TouchesPrev(ring, k, b) then Blk(ring[k].addr, ring[k].units + JoinNext(ring, k, b).units)
      else JoinNext(ring, k, b);
      In(m, x) <==>
        In(b, x) || (TouchesPrev(ring, k, b) && In(ring[k], x)) || (TouchesNext(ring, k, b) && In(ring[k + 1], x))
  {
  }

  /** malloc takes exactly the bytes of the block it returns, all of which were free. */
  lemma TakenBytes(ring: seq<Blk>, base: int, i: int, n: int, x: int)
    requires RingOk(ring, base) && 0 <= i < |ring| && 1 <= n <= ring[i].units
    ensures var b := Blk(TakenAddr(ring[i], n), n);
      && (In(b, x) ==> IsFree(ring, x))
      && (IsFree(Taken(ring, i, n), x) <==> IsFree(ring, x) && !In(b, x))
  {
    hide RingOk;
    var out, b := Taken(ring, i, n), Blk(TakenAddr(ring[i], n), n);
    var d := if ring[i].units == n then 1 else 0;
    assert In(b, x) ==> In(ring[i], x);
    if j :| 0 <= j < |ring| && In(ring[j], x) && !In(b, x) {
      assert In(out[if j <= i then j else j - d], x);
    }
    if j :| 0 <= j < |out| && In(out[j], x) {
      var o := if j < i then j else j + d;
      assert In(ring[o], x);
      if In(b, x) {
        InOne(ring, base, i, o, x);
      }
    }
  }

  lemma SameFirst(r1: seq<Blk>, r2: seq<Blk>, i: int, j: int)
    requires 0 <= j < i <= |r1| && i <= |r2| && r1[..i] == r2[..i]
    ensures r1[j] == r2[j]
  {
    assert r1[..i][j] == r2[..i][j];
  }

  lemma NoLater(r1: seq<Blk>, r2: seq<Blk>, base: int, i: int)
    requires RingOk(r1, base) && RingOk(r2, base) && forall x :: IsFree(r1, x) ==> IsFree(r2, x)
    requires 1 <= i < |r1| && i <= |r2| && r1[..i] == r2[..i]
    ensures i < |r2| && r2[i].addr <= r1[i].addr
  {
    var x := r1[i].addr;
    assert In(r1[i], x) && IsFree(r1, x);
    var j :| 0 <= j < |r2| && In(r2[j], x);
    if j < i {
      SameFirst(r1, r2, i, j);
    }
  }

  lemma WithinIsFree(ring: seq<Blk>, i: int, x: int)
    requires 0 <= i < |ring| && In(ring[i], x)
    ensures IsFree(ring, x)
  {
  }

  lemma BehindIsUsed(ring: seq<Blk>, base: int, i: int)
    requires RingOk(ring, base) && 0 <= i < |ring|
    ensures !IsFree(ring, End(ring[i]))
  {
  }

  lemma NoLonger(r1: seq<Blk>, r2: seq<Blk>, base: int, i: int)
    requires RingOk(r1, base) && RingOk(r2, base) && forall x :: IsFree(r1, x) ==> IsFree(r2, x)
    requires 1 <= i < |r1| && i < |r2| && r1[i].addr == r2[i].addr
    ensures r1[i].units <= r2[i].units
  {
    hide IsFree;
    BehindIsUsed(r2, base, i);
    if r1[i].units > r2[i].units {
      WithinIsFree(r1, i, End(r2[i]));
    }
  }

  /** The free bytes determine the list, so free and malloc have one possible outcome. */
  lemma {:induction false} BytesDetermine(r1: seq<Blk>, r2: seq<Blk>, base: int)
    requires RingOk(r1, base) && RingOk(r2, base) && forall x :: IsFree(r1, x) <==> IsFree(r2, x)
    ensures r1 == r2
  {
    hide IsFree;
    var i := 1;
    assert r1[..1] == [r1[0]] == r2[..1];
    while i < |r1| || i < |r2|
      invariant 1 <= i <= |r1| && i <= |r2| && r1[..i] == r2[..i]
      decreases |r1| - i
    {
      if i < |r1| {
        NoLater(r1, r2, base, i);
      }
      if i < |r2| {
        NoLater(r2, r1, base, i);
      }
      NoLonger(r1, r2, base, i);
      NoLonger(r2, r1, base, i);
      i := i + 1;
    }
  }

  // ----- The ring in memory

  /** Header i's two words. */
  ghost predicate Linked(ptr: map<int, int>, size: map<int, int>, ring: seq<Blk>, i: int)
    requires 0 <= i < |ring|
  {
    && ring[i].addr in ptr && ptr[ring[i].addr] == ring[Succ(|ring|, i)].addr
    && ring[i].addr in size && size[ring[i].addr] == ring[i].units
  }

  ghost predicate AllLinked(ptr: map<int, int>, size: map<int, int>, ring: seq<Blk>) {
    forall i :: 0 <= i < |ring| ==> Linked(ptr, size, ring, i)
  }

  /** The words free writes, for block b in the gap after ring[k]. */
  ghost function FreedSize(size: map<int, int>, ring: seq<Blk>, k: int, b: Blk): map<int, int>
    requires 0 <= k < |ring|
  {
    var c := JoinNext(ring, k, b);
    var s := if TouchesNext(ring, k, b) then size[b.addr := c.units] else size;
    if TouchesPrev(ring, k, b) then s[ring[k].addr := ring[k].units + c.units] else s
  }

  /** Where the joined block links to: past everything it swallowed. */
  ghost function After(ring: seq<Blk>, k: int, b: Blk): int
    requires 0 <= k < |ring|
  {
    var r := if TouchesNext(ring, k, b) then k + 2 else k + 1;
    if r < |ring| then ring[r].addr else ring[0].addr
  }

  ghost function FreedPtr(ptr: map<int, int>, ring: seq<Blk>, k: int, b: Blk): map<int, int>
    requires 0 <= k < |ring|
  {
    var p := ptr[b.addr := After(ring, k, b)];
    if TouchesPrev(ring, k, b) then p[ring[k].addr := After(ring, k, b)] else p[ring[k].addr := b.addr]
  }

  /** Inserted, by index: l and r bound what is replaced, m is the replacement. */
  lemma InsertedAt(ring: seq<Blk>, k: int, b: Blk, l: int, m: Blk, r: int, i: int)
    requires InGap(ring, k, b)
    requires l == (if TouchesPrev(ring, k, b) then k else k + 1) &&
      r == (if TouchesNext(ring, k, b) then k + 2 else k + 1)
    requires m == if TouchesPrev(ring, k, b) then Blk(ring[k].addr, ring[k].units + JoinNext(ring, k, b).units)
      else JoinNext(ring, k, b)
    requires 0 <= i < |ring| - (r - l) + 1
    ensures l <= r <= |ring| && |Inserted(ring, k, b)| == |ring| - (r - l) + 1
    ensures Inserted(ring, k, b)[i] == if i < l then ring[i] else if i == l then m else ring[i - l - 1 + r]
  {
    SpliceAt(ring, l, m, r, i);
    hide Splice;
  }

  lemma AddrsDistinct(ring: seq<Blk>, base: int, k: int, b: Blk, i: int)
    requires RingOk(ring, base) && InGap(ring, k, b) && b.addr >= base + UNIT && 0 <= i < |ring|
    ensures ring[i].addr != b.addr && (i != k ==> ring[i].addr != ring[k].addr)
  {
    if i < k {
      assert End(ring[i]) < ring[k].addr;
    } else if i > k {
      assert End(ring[k]) < ring[i].addr;
      assert i > k + 1 ==> End(ring[k + 1]) < ring[i].addr;
    }
  }

  ghost predicate Freeing(ptr: map<int, int>, size: map<int, int>, ring: seq<Blk>, base: int, k: int, b: Blk) {
    && RingOk(ring, base) && InGap(ring, k, b) && b.addr >= base + UNIT && AllLinked(ptr, size, ring)
    && b.addr in size && size[b.addr] == b.units
  }

  /** Where index i of the new ring was, when it is not next to the gap. */
  ghost function OldPlace(ring: seq<Blk>, k: int, b: Blk, i: int): int
    requires 0 <= k < |ring|
  {
    if i < k then i
    else i + (if TouchesPrev(ring, k, b) then 0 else -1) + (if TouchesNext(ring, k, b) then 1 else 0)
  }

  lemma ElsewhereKeepsSuccessor(ring: seq<Blk>, k: int, b: Blk, i: int)
    requires InGap(ring, k, b) && 0 <= i < |Inserted(ring, k, b)|
    requires i != k && (i == k + 1 ==> TouchesPrev(ring, k, b))
    ensures var x, out := OldPlace(ring, k, b, i), Inserted(ring, k, b);
      && 0 <= x < |ring| && x != k && out[i] == ring[x]
      && out[Succ(|out|, i)].addr == ring[Succ(|ring|, x)].addr
  {
    var l, r := if TouchesPrev(ring, k, b) then k else k + 1, if TouchesNext(ring, k, b) then k + 2 else k + 1;
    var m := if TouchesPrev(ring, k, b) then Blk(ring[k].addr, ring[k].units + JoinNext(ring, k, b).units)
      else JoinNext(ring, k, b);
    InsertedAt(ring, k, b, l, m, r, i);
    InsertedAt(ring, k, b, l, m, r, Succ(|Inserted(ring, k, b)|, i));
    hide Inserted, JoinNext;
  }

  lemma ElsewhereKeepsWords(ptr: map<int, int>, size: map<int, int>, ring: seq<Blk>, base: int, k: int, b: Blk, x: int)
    requires Freeing(ptr, size, ring, base, k, b) && 0 <= x < |ring| && x != k
    ensures 0 <= k < |ring| && Linked(FreedPtr(ptr, ring, k, b), FreedSize(size, ring, k, b), ring, x)
  {
    AddrsDistinct(ring, base, k, b, x);
    assert Linked(ptr, size, ring, x);
    hide RingOk, AllLinked, JoinNext, After;
  }

  lemma InsertedLinkedElsewhere(ptr: map<int, int>, size: map<int, int>, ring: seq<Blk>, base: int, k: int, b: Blk,
      i: int)
    requires Freeing(ptr, size, ring, base, k, b) && 0 <= i < |Inserted(ring, k, b)|
    requires i != k && (i == k + 1 ==> TouchesPrev(ring, k, b))
    ensures Linked(FreedPtr(ptr, ring, k, b), FreedSize(size, ring, k, b), Inserted(ring, k, b), i)
  {
    ElsewhereKeepsSuccessor(ring, k, b, i);
    ElsewhereKeepsWords(ptr, size, ring, base, k, b, OldPlace(ring, k, b, i));
    hide Freeing, Inserted, FreedPtr, FreedSize, OldPlace;
  }

  /** What follows the gap in the new ring. */
  lemma HereSuccessors(ring: seq<Blk>, base: int, k: int, b: Blk)
    requires RingOk(ring, base) && InGap(ring, k, b)
    ensures var out, c := Inserted(ring, k, b), JoinNext(ring, k, b);
      && k < |out| && out[k].addr == ring[k].addr && c.addr == b.addr
      && (if TouchesPrev(ring, k, b) then
            out[k].units == ring[k].units + c.units && out[Succ(|out|, k)].addr == After(ring, k, b)
          else
            k + 1 < |out| && out[k] == ring[k] && out[k + 1] == c && out[Succ(|out|, k + 1)].addr == After(ring, k, b))
  {
    var l, r := if TouchesPrev(ring, k, b) then k else k + 1, if TouchesNext(ring, k, b) then k + 2 else k + 1;
    var m := if TouchesPrev(ring, k, b) then Blk(ring[k].addr, ring[k].units + JoinNext(ring, k, b).units)
      else JoinNext(ring, k, b);
    InsertedAt(ring, k, b, l, m, r, k);
    InsertedAt(ring, k, b, l, m, r, l);
    InsertedAt(ring, k, b, l, m, r, Succ(|Inserted(ring, k, b)|, l));
    InsertedAt(ring, k, b, l, m, r, 0);
    hide Inserted, RingOk;
  }

  /** The header before the gap, and the freed block's own when it stays separate. */
  lemma InsertedLinkedHere(ptr: map<int, int>, size: map<int, int>, ring: seq<Blk>, base: int, k: int, b: Blk, i: int)
    requires Freeing(ptr, size, ring, base, k, b) && 0 <= i < |Inserted(ring, k, b)|
    requires i == k || (i == k + 1 && !TouchesPrev(ring, k, b))
    ensures Linked(FreedPtr(ptr, ring, k, b), FreedSize(size, ring, k, b), Inserted(ring, k, b), i)
  {
    HereSuccessors(ring, base, k, b);
    AddrsDistinct(ring, base, k, b, k);
    assert Linked(ptr, size, ring, k);
    hide RingOk, AllLinked, Inserted, After;
  }

  lemma InsertedLinked(ptr: map<int, int>, size: map<int, int>, ring: seq<Blk>, base: int, k: int, b: Blk)
    requires 0 <= k < |ring| && Freeing(ptr, size, ring, base, k, b)
    ensures AllLinked(FreedPtr(ptr, ring, k, b), FreedSize(size, ring, k, b), Inserted(ring, k, b))
  {
    hide Freeing, Inserted, FreedPtr, FreedSize, Linked;
    forall i | 0 <= i < |Inserted(ring, k, b)|
      ensures Linked(FreedPtr(ptr, ring, k, b), FreedSize(size, ring, k, b), Inserted(ring, k, b), i)
    {
      if i == k || (i == k + 1 && !TouchesPrev(ring, k, b)) {
        InsertedLinkedHere(ptr, size, ring, base, k, b, i);
      } else {
        InsertedLinkedElsewhere(ptr, size, ring, base, k, b, i);
      }
    }
  }

  /** The words malloc writes when it takes n units from block i. */
  ghost function TakenSize(size: map<int, int>, ring: seq<Blk>, i: int, n: int): map<int, int>
    requires 0 <= i < |ring|
  {
    if ring[i].units == n then size
    else size[ring[i].addr := ring[i].units - n][TakenAddr(ring[i], n) := n]
  }

  ghost function TakenPtr(ptr: map<int, int>, ring: seq<Blk>, i: int, n: int): map<int, int>
    requires 0 < i < |ring|
  {
    if ring[i].units == n then ptr[ring[i - 1].addr := ring[Succ(|ring|, i)].addr] else ptr
  }

  lemma WholeLinkedAt(ptr: map<int, int>, size: map<int, int>, ring: seq<Blk>, base: int, i: int, n: int, j: int)
    requires RingOk(ring, base) && AllLinked(ptr, size, ring) && 0 < i < |ring| && 1 <= n == ring[i].units
    requires 0 <= j < |Taken(ring, i, n)|
    ensures Linked(TakenPtr(ptr, ring, i, n), TakenSize(size, ring, i, n), Taken(ring, i, n), j)
  {
    hide Taken, AllLinked, RingOk;
    WholeTakenAt(ring, i, n, 0);
    WholeTakenAt(ring, i, n, j);
    WholeTakenAt(ring, i, n, Succ(|ring| - 1, j));
    var x := if j < i then j else j + 1;
    LinkedOf(ptr, size, ring, x);
    AddrsApart(ring, base, x, i - 1);
  }

  lemma LinkedOf(ptr: map<int, int>, size: map<int, int>, ring: seq<Blk>, x: int)
    requires AllLinked(ptr, size, ring) && 0 <= x < |ring|
    ensures Linked(ptr, size, ring, x)
  {
  }

  lemma AddrsApart(ring: seq<Blk>, base: int, x: int, y: int)
    requires RingOk(ring, base) && 0 <= x < |ring| && 0 <= y < |ring|
    ensures x != y ==> ring[x].addr != ring[y].addr
  {
    assert x < y ==> End(ring[x]) < ring[y].addr;
    assert x > y ==> End(ring[y]) < ring[x].addr;
  }

  lemma WholeTakenAt(ring: seq<Blk>, i: int, n: int, j: int)
    requires 0 < i < |ring| && n == ring[i].units && 0 <= j < |ring| - 1
    ensures |Taken(ring, i, n)| == |ring| - 1 && Taken(ring, i, n)[j] == ring[if j < i then j else j + 1]
  {
  }

  lemma TailLinkedAt(ptr: map<int, int>, size: map<int, int>, ring: seq<Blk>, base: int, i: int, n: int, j: int)
    requires RingOk(ring, base) && AllLinked(ptr, size, ring) && 0 < i < |ring| && 1 <= n < ring[i].units
    requires 0 <= j < |Taken(ring, i, n)|
    ensures Linked(TakenPtr(ptr, ring, i, n), TakenSize(size, ring, i, n), Taken(ring, i, n), j)
  {
    assert Linked(ptr, size, ring, j);
    assert j < i ==> End(ring[j]) < ring[i].addr;
    assert j > i ==> End(ring[i]) < ring[j].addr;
    assert Taken(ring, i, n)[Succ(|ring|, j)].addr == ring[Succ(|ring|, j)].addr;
    hide AllLinked;
  }

  lemma TakenLinked(ptr: map<int, int>, size: map<int, int>, ring: seq<Blk>, base: int, i: int, n: int)
    requires RingOk(ring, base) && AllLinked(ptr, size, ring) && 0 < i < |ring| && 1 <= n <= ring[i].units
    ensures AllLinked(TakenPtr(ptr, ring, i, n), TakenSize(size, ring, i, n), Taken(ring, i, n))
  {
    hide Taken, TakenPtr, TakenSize, Linked;
    forall j | 0 <= j < |Taken(ring, i, n)|
      ensures Linked(TakenPtr(ptr, ring, i, n), TakenSize(size, ring, i, n), Taken(ring, i, n), j)
    {
      if ring[i].units == n {
        WholeLinkedAt(ptr, size, ring, base, i, n, j);
      } else {
        TailLinkedAt(ptr, size, ring, base, i, n, j);
      }
    }
  }

  // ----- Allocated blocks

  /** An allocated block: its header is in memory, and it overlaps no free block. */
  ghost predicate LiveBlk(size: map<int, int>, ring: seq<Blk>, base: int, brk: int, b: Blk) {
    && b.units >= 1 && b.addr >= base + UNIT && End(b) <= brk
    && b.addr in size && size[b.addr] == b.units
    && (forall i :: 1 <= i < |ring| ==> Apart(b, ring[i]))
  }

  /** The words of block c, header and payload, are the same. */
  ghost predicate SameWords(m0: map<int, int>, m1: map<int, int>, c: Blk) {
    forall x :: c.addr <= x < End(c) ==> (x in m1 <==> x in m0) && (x in m0 ==> m1[x] == m0[x])
  }

  /** The memory of a set of blocks is the same. */
  ghost predicate Untouched(ptr0: map<int, int>, size0: map<int, int>, ptr1: map<int, int>, size1: map<int, int>,
      blocks: set<Blk>) {
    forall c :: c in blocks ==> SameWords(ptr0, ptr1, c) && SameWords(size0, size1, c)
  }

  lemma UntouchedStep(ptr0: map<int, int>, size0: map<int, int>, ptr1: map<int, int>, size1: map<int, int>,
                      ptr2: map<int, int>, size2: map<int, int>, blocks: set<Blk>)
    requires Untouched(ptr0, size0, ptr1, size1, blocks) && Untouched(ptr1, size1, ptr2, size2, blocks)
    ensures Untouched(ptr0, size0, ptr2, size2, blocks)
  {
  }

  /** Allocated blocks other than the freed one are as they were, to the last word. */
  lemma FreedKeepsLive(size: map<int, int>, ring: seq<Blk>, base: int, brk: int, k: int, b: Blk, c: Blk)
    requires RingOk(ring, base) && InGap(ring, k, b) && b.addr >= base + UNIT
    requires LiveBlk(size, ring, base, brk, c) && Apart(b, c)
    ensures LiveBlk(FreedSize(size, ring, k, b), Inserted(ring, k, b), base, brk, c)
    ensures SameWords(size, FreedSize(size, ring, k, b), c) && forall ptr ::
      SameWords(ptr, FreedPtr(ptr, ring, k, b), c)
  {
    var l, r := if TouchesPrev(ring, k, b) then k else k + 1, if TouchesNext(ring, k, b) then k + 2 else k + 1;
    var m := if TouchesPrev(ring, k, b) then Blk(ring[k].addr, ring[k].units + JoinNext(ring, k, b).units)
      else JoinNext(ring, k, b);
    assert k > 0 ==> Apart(c, ring[k]);
    assert k + 1 < |ring| ==> Apart(c, ring[k + 1]);
    assert TouchesPrev(ring, k, b) ==> k > 0;
    assert Apart(c, m);
    forall i | 1 <= i < |Inserted(ring, k, b)|
      ensures Apart(c, Inserted(ring, k, b)[i])
    {
      InsertedAt(ring, k, b, l, m, r, i);
      hide Inserted, JoinNext;
    }
    hide Inserted;
  }

  /** And the same for an allocation, which leaves its own block apart from all others. */
  lemma TakenKeepsLive(size: map<int, int>, ring: seq<Blk>, base: int, brk: int, i: int, n: int, c: Blk)
    requires RingOk(ring, base) && 0 < i < |ring| && 1 <= n <= ring[i].units
    requires LiveBlk(size, ring, base, brk, c)
    ensures LiveBlk(TakenSize(size, ring, i, n), Taken(ring, i, n), base, brk, c)
    ensures Apart(Blk(TakenAddr(ring[i], n), n), c)
    ensures SameWords(size, TakenSize(size, ring, i, n), c) && forall ptr ::
      SameWords(ptr, TakenPtr(ptr, ring, i, n), c)
  {
    var out := Taken(ring, i, n);
    assert Apart(c, ring[i]) && (i > 1 ==> Apart(c, ring[i - 1]));
    forall j | 1 <= j < |out|
      ensures Apart(c, out[j])
    {
      assert ring[i].units == n ==> out[j] == ring[if j < i then j else j + 1];
      assert ring[i].units != n && j != i ==> out[j] == ring[j];
    }
  }

  lemma TakenIsLive(ptr: map<int, int>, size: map<int, int>, ring: seq<Blk>, base: int, brk: int, i: int, n: int)
    requires RingOk(ring, base) && 0 < i < |ring| && 1 <= n <= ring[i].units && End(ring[i]) <= brk &&
      AllLinked(ptr, size, ring)
    ensures LiveBlk(TakenSize(size, ring, i, n), Taken(ring, i, n), base, brk, Blk(TakenAddr(ring[i], n), n))
  {
    var out := Taken(ring, i, n);
    assert Linked(ptr, size, ring, i);
    forall j | 1 <= j < |out|
      ensures Apart(Blk(TakenAddr(ring[i], n), n), out[j])
    {
      var x := if ring[i].units == n && j >= i then j + 1 else j;
      assert j != i || ring[i].units == n ==> out[j] == ring[x];
      if x < i { assert End(ring[x]) < ring[i].addr; }
      if x > i { assert End(ring[i]) < ring[x].addr; }
    }
  }
}
