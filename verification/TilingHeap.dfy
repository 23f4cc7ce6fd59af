/** The region of lab3's allocator as a tiling: free and allocated blocks laid end to
    end. What mem_alloc and mem_free do to it, apart from pointers. */
module TilingHeap {

  /** One block: its first byte, its length with the bookkeeping words, and whether it is allocated. */
  datatype Block = Block(start: int, len: int, used: bool)

  const NODE := 16
  const HEADER := 8

  function End(b: Block): int {
    b.start + b.len
  }

  ghost predicate BlockOk(b: Block) {
    b.len >= NODE && b.len % 8 == 0 && b.start > 0
  }

  /** Blocks fill [lo, hi) exactly and no two free ones touch. */
  ghost predicate Tiles(bs: seq<Block>, lo: int, hi: int) {
    && |bs| > 0
    && bs[0].start == lo && End(bs[|bs| - 1]) == hi
    && (forall i :: 0 <= i < |bs| ==> BlockOk(bs[i]))
    && (forall i :: 0 <= i < |bs| - 1 ==> Follows(bs, i))
  }

  ghost predicate Follows(bs: seq<Block>, i: int)
    requires 0 <= i < |bs| - 1
  {
    End(bs[i]) == bs[i + 1].start && (bs[i].used || bs[i + 1].used)
  }

  /** A block can hold a request when its whole length, node included, is at least need. */
  predicate Fits(bs: seq<Block>, k: int, need: int)
    requires 0 <= k < |bs|
  {
    !bs[k].used && bs[k].len >= need
  }

  datatype Style = BestFit | WorstFit | FirstFit | OtherStyle

  /** The block each style must choose. */
  ghost predicate Chosen(bs: seq<Block>, style: Style, need: int, k: int)
    requires 0 <= k < |bs|
  {
    && Fits(bs, k, need)
    && match style
       case FirstFit => forall j :: 0 <= j < k ==> !Fits(bs, j, need)
       case BestFit => forall j :: 0 <= j < |bs| && Fits(bs, j, need) ==>
         bs[k].len <= bs[j].len && (bs[k].len == bs[j].len ==> k <= j)
       case WorstFit => forall j :: 0 <= j < |bs| && Fits(bs, j, need) ==>
         bs[k].len >= bs[j].len && (bs[k].len == bs[j].len ==> k >= j)
       case OtherStyle => false
  }

  /** Allocation from block k: the remainder stays free if a node fits in it, and is absorbed otherwise. */
  ghost function Carved(bs: seq<Block>, k: int, need: int): seq<Block>
    requires 0 <= k < |bs|
  {
    var b := bs[k];
    if b.len - need >= NODE then
      bs[..k] + [Block(b.start, need, true), Block(b.start + need, b.len - need, false)] + bs[k + 1..]
    else bs[k := Block(b.start, b.len, true)]
  }

  ghost predicate FreeBefore(bs: seq<Block>, k: int) {
    0 < k <= |bs| && !bs[k - 1].used
  }

  ghost predicate FreeAfter(bs: seq<Block>, k: int) {
    0 <= k + 1 < |bs| && !bs[k + 1].used
  }

  /** Release of block k: it becomes one free block with whichever neighbours are free. */
  ghost function Released(bs: seq<Block>, k: int): seq<Block>
    requires 0 <= k < |bs|
  {
    var lo := if FreeBefore(bs, k) then k - 1 else k;
    var hi := if FreeAfter(bs, k) then k + 1 else k;
    bs[..lo] + [Block(bs[lo].start, End(bs[hi]) - bs[lo].start, false)] + bs[hi + 1..]
  }

  lemma {:induction false} Ordered(bs: seq<Block>, lo: int, hi: int, i: int, j: int)
    requires Tiles(bs, lo, hi) && 0 <= i < j < |bs|
    ensures End(bs[i]) <= bs[j].start
    decreases j - i
  {
    assert Follows(bs, j - 1);
    if i < j - 1 {
      Ordered(bs, lo, hi, i, j - 1);
    }
  }

  /** Every byte of the region belongs to exactly one block. */
  lemma {:induction false} CoversOnce(bs: seq<Block>, lo: int, hi: int, x: int) returns (i: int)
    requires Tiles(bs, lo, hi) && lo <= x < hi
    ensures 0 <= i < |bs| && bs[i].start <= x < End(bs[i])
    ensures forall j :: 0 <= j < |bs| && bs[j].start <= x < End(bs[j]) ==> j == i
  {
    i := 0;
    while x >= End(bs[i])
      invariant 0 <= i < |bs| && bs[i].start <= x
      decreases |bs| - i
    {
      assert i < |bs| - 1;
      assert Follows(bs, i);
      i := i + 1;
    }
    forall j | 0 <= j < |bs| && bs[j].start <= x < End(bs[j])
      ensures j == i
    {
      if j < i { Ordered(bs, lo, hi, j, i); }
      if i < j { Ordered(bs, lo, hi, i, j); }
    }
  }

  lemma CarvedTiles(bs: seq<Block>, lo: int, hi: int, k: int, need: int)
    requires Tiles(bs, lo, hi) && 0 <= k < |bs| && Fits(bs, k, need) && need >= NODE && need % 8 == 0
    ensures Tiles(Carved(bs, k, need), lo, hi)
  {
    var cs := Carved(bs, k, need);
    var d := |cs| - |bs|;
    assert BlockOk(bs[k]);
    forall i | 0 <= i < |cs|
      ensures BlockOk(cs[i])
    {
      assert i < k ==> BlockOk(bs[i]);
      assert i > k + d ==> BlockOk(bs[i - d]);
    }
    forall i | 0 <= i < |cs| - 1
      ensures Follows(cs, i)
    {
      assert i < k ==> Follows(bs, i);
      assert i >= k + d ==> Follows(bs, i - d);
    }
  }

  /** One free block in place of those from l to r, between allocated ones. */
  lemma MergedTiles(bs: seq<Block>, lo: int, hi: int, l: int, r: int, m: Block)
    requires Tiles(bs, lo, hi) && 0 <= l <= r < |bs|
    requires BlockOk(m) && m.start == bs[l].start && End(m) == End(bs[r])
    requires (l > 0 ==> bs[l - 1].used) && (r + 1 < |bs| ==> bs[r + 1].used)
    ensures Tiles(bs[..l] + [m] + bs[r + 1..], lo, hi)
  {
    var cs, d := bs[..l] + [m] + bs[r + 1..], r - l;
    forall i | 0 <= i < |cs|
      ensures BlockOk(cs[i])
    {
      assert i < l ==> BlockOk(bs[i]);
      assert i > l ==> BlockOk(bs[i + d]);
    }
    forall i | 0 <= i < |cs| - 1
      ensures Follows(cs, i)
    {
      assert i < l ==> Follows(bs, i);
      assert i >= l ==> Follows(bs, i + d);
    }
  }

  /** Neighbours joined are as long as both, which is a whole number of words. */
  lemma JoinedOk(bs: seq<Block>, i: int, start: int)
    requires 0 <= i < |bs| - 1 && Follows(bs, i) && BlockOk(bs[i + 1])
    requires 0 < start <= bs[i].start && BlockOk(Block(start, End(bs[i]) - start, false))
    ensures BlockOk(Block(start, End(bs[i + 1]) - start, false))
  {
    var a, b := End(bs[i]) - start, bs[i + 1].len;
    assert End(bs[i + 1]) - start == a + b;
    assert (a + b) % 8 == 0;
  }

  lemma ReleasedTiles(bs: seq<Block>, lo: int, hi: int, k: int)
    requires Tiles(bs, lo, hi) && 0 <= k < |bs| && bs[k].used
    ensures Tiles(Released(bs, k), lo, hi)
  {
    var l := if FreeBefore(bs, k) then k - 1 else k;
    var r := if FreeAfter(bs, k) then k + 1 else k;
    var start := bs[l].start;
    assert BlockOk(bs[l]) && BlockOk(bs[k]) && BlockOk(bs[r]);
    assert l > 0 ==> Follows(bs, l - 1);
    assert r + 1 < |bs| ==> Follows(bs, r);
    assert l < k ==> Follows(bs, l);
    assert k < r ==> Follows(bs, k);
    hide Tiles;
    assert BlockOk(Block(start, End(bs[l]) - start, false));
    if l < k {
      JoinedOk(bs, l, start);
    }
    if k < r {
      JoinedOk(bs, k, start);
    }
    hide BlockOk;
    MergedTiles(bs, lo, hi, l, r, Block(start, End(bs[r]) - start, false));
  }

  /** Releasing what was just allocated restores the tiling exactly: no bytes lost, no fragment left. */
  lemma ReleaseUndoesCarve(bs: seq<Block>, lo: int, hi: int, k: int, need: int)
    requires Tiles(bs, lo, hi) && 0 <= k < |bs| && Fits(bs, k, need) && need >= NODE
    ensures Released(Carved(bs, k, need), k) == bs
  {
    var cs := Carved(bs, k, need);
    assert k > 0 ==> Follows(bs, k - 1);
    assert k + 1 < |bs| ==> Follows(bs, k);
    assert !FreeBefore(cs, k);
    assert FreeAfter(cs, k) <==> bs[k].len - need >= NODE;
    assert bs == bs[..k] + [bs[k]] + bs[k + 1..];
  }

  /** b is one of the allocated blocks. */
  ghost predicate InUse(bs: seq<Block>, b: Block) {
    b.used && b in bs
  }

  /** Allocation adds one block, at the start of the chosen one and of the length asked for, or all of it when what
      would be left holds no node. */
  lemma CarvedUses(bs: seq<Block>, k: int, need: int, b: Block)
    requires 0 <= k < |bs| && !bs[k].used
    ensures k < |Carved(bs, k, need)|
    ensures Carved(bs, k, need)[k] ==
      Block(bs[k].start, if bs[k].len - need >= NODE then need else bs[k].len, true)
    ensures InUse(Carved(bs, k, need), b) <==> InUse(bs, b) || b == Carved(bs, k, need)[k]
  {
    var cs := Carved(bs, k, need);
    var d := |cs| - |bs|;
    if b in bs && b.used {
      var i :| 0 <= i < |bs| && bs[i] == b;
      assert cs[if i < k then i else i + d] == b;
    }
    if b in cs && b.used && b != cs[k] {
      var i :| 0 <= i < |cs| && cs[i] == b;
      assert bs[if i < k then i else i - d] == b;
    }
  }

  /** Release takes exactly that block away. */
  lemma ReleasedUses(bs: seq<Block>, lo: int, hi: int, k: int, b: Block)
    requires Tiles(bs, lo, hi) && 0 <= k < |bs| && bs[k].used
    ensures InUse(Released(bs, k), b) <==> InUse(bs, b) && b != bs[k]
  {
    var cs := Released(bs, k);
    var l := if FreeBefore(bs, k) then k - 1 else k;
    var r := if FreeAfter(bs, k) then k + 1 else k;
    if b in bs && b.used && b != bs[k] {
      var i :| 0 <= i < |bs| && bs[i] == b;
      assert cs[if i < l then i else i - (r - l)] == b;
    }
    if b in cs && b.used {
      var i :| 0 <= i < |cs| && cs[i] == b;
      var j := if i < l then i else i + (r - l);
      assert bs[j] == b && j != k;
      assert BlockOk(bs[j]) && BlockOk(bs[k]);
      Ordered(bs, lo, hi, if j < k then j else k, if j < k then k else j);
    }
  }

  /** A block that is in both tilings begins where no other block of either does. */
  lemma SharedBlock(bs: seq<Block>, lo: int, hi: int, i: int, b: Block)
    requires Tiles(bs, lo, hi) && 0 <= i < |bs| && b in bs && bs[i].start <= b.start < End(bs[i])
    ensures b == bs[i]
  {
    var j :| 0 <= j < |bs| && bs[j] == b;
    assert BlockOk(bs[i]) && BlockOk(bs[j]);
    if j != i {
      Ordered(bs, lo, hi, if j < i then j else i, if j < i then i else j);
    }
  }

  /** Where the two tilings agree so far they agree on the next block. */
  lemma NextAgrees(bs: seq<Block>, cs: seq<Block>, lo: int, hi: int, i: int)
    requires Tiles(bs, lo, hi) && Tiles(cs, lo, hi) && forall b :: InUse(bs, b) <==> InUse(cs, b)
    requires 0 <= i < |bs| && i < |cs| && bs[i].start == cs[i].start
    ensures bs[i] == cs[i]
  {
    assert BlockOk(bs[i]) && BlockOk(cs[i]);
    if bs[i].used {
      assert InUse(bs, bs[i]);
      SharedBlock(cs, lo, hi, i, bs[i]);
    } else if cs[i].used {
      assert InUse(cs, cs[i]);
      SharedBlock(bs, lo, hi, i, cs[i]);
    } else {
      FreeEnds(bs, cs, lo, hi, i);
      FreeEnds(cs, bs, lo, hi, i);
    }
  }

  /** A free block ends no earlier than the other tiling's: an allocated block or the end of the region comes next. */
  lemma FreeEnds(bs: seq<Block>, cs: seq<Block>, lo: int, hi: int, i: int)
    requires Tiles(bs, lo, hi) && Tiles(cs, lo, hi) && forall b :: InUse(bs, b) <==> InUse(cs, b)
    requires 0 <= i < |bs| && i < |cs| && bs[i].start == cs[i].start && !bs[i].used && !cs[i].used
    ensures End(bs[i]) >= End(cs[i])
  {
    assert BlockOk(bs[i]) && BlockOk(cs[i]) && BlockOk(cs[|cs| - 1]);
    if End(bs[i]) < End(cs[i]) {
      if i < |cs| - 1 {
        Ordered(cs, lo, hi, i, |cs| - 1);
      }
      assert Follows(bs, i);
      assert InUse(bs, bs[i + 1]);
      SharedBlock(cs, lo, hi, i, bs[i + 1]);
    }
  }

  /** What is allocated determines the whole tiling, so an allocation or a release has one possible outcome. */
  lemma {:induction false} UsesDetermine(bs: seq<Block>, cs: seq<Block>, lo: int, hi: int)
    requires Tiles(bs, lo, hi) && Tiles(cs, lo, hi) && forall b :: InUse(bs, b) <==> InUse(cs, b)
    ensures bs == cs
  {
    var i := 0;
    while i < |bs| && i < |cs|
      invariant 0 <= i <= |bs| && i <= |cs| && bs[..i] == cs[..i]
      invariant i < |bs| && i < |cs| ==> bs[i].start == cs[i].start
      invariant 0 < i < |bs| ==> End(bs[i - 1]) == bs[i].start
      invariant 0 < i < |cs| ==> End(cs[i - 1]) == cs[i].start
    {
      NextAgrees(bs, cs, lo, hi, i);
      assert i < |bs| - 1 ==> Follows(bs, i);
      assert i < |cs| - 1 ==> Follows(cs, i);
      i := i + 1;
    }
    assert bs[i - 1] == bs[..i][i - 1] == cs[..i][i - 1] == cs[i - 1];
    assert BlockOk(bs[|bs| - 1]) && BlockOk(cs[|cs| - 1]);
    if i < |bs| {
      Ordered(bs, lo, hi, i - 1, |bs| - 1);
    }
    if i < |cs| {
      Ordered(cs, lo, hi, i - 1, |cs| - 1);
    }
  }

  /** With nothing allocated the region is one free block again. */
  lemma AllFreeIsOneBlock(bs: seq<Block>, lo: int, hi: int)
    requires Tiles(bs, lo, hi) && forall i :: 0 <= i < |bs| ==> !bs[i].used
    ensures bs == [Block(lo, hi - lo, false)]
  {
    assert |bs| > 1 ==> Follows(bs, 0);
  }

  // ----- The order of the free list

  /** The first free block at index i or later, |bs| if there is none. */
  ghost function NextFree(bs: seq<Block>, i: int): (j: int)
    requires 0 <= i <= |bs|
    ensures i <= j <= |bs| && (j < |bs| ==> !bs[j].used)
    ensures forall m :: i <= m < j ==> bs[m].used
    decreases |bs| - i
  {
    if i == |bs| || !bs[i].used then i else NextFree(bs, i + 1)
  }

  lemma NextFreeIs(bs: seq<Block>, i: int, j: int)
    requires 0 <= i <= j <= |bs| && (j < |bs| ==> !bs[j].used)
    requires forall m :: i <= m < j ==> bs[m].used
    ensures NextFree(bs, i) == j
  {
  }

  /** Where two tilings agree from some point on, so do their next free blocks. */
  lemma NextFreeShift(bs: seq<Block>, cs: seq<Block>, i: int, d: int)
    requires 0 <= i <= |bs| && 0 <= i + d && |cs| == |bs| + d
    requires cs[i + d..] == bs[i..]
    ensures NextFree(cs, i + d) == NextFree(bs, i) + d
  {
    var j := NextFree(bs, i);
    assert forall m :: i <= m < |bs| ==> cs[m + d] == cs[i + d..][m - i] == bs[i..][m - i] == bs[m];
    assert forall m :: i + d <= m < j + d ==> cs[m] == bs[m - d];
    NextFreeIs(cs, i + d, j + d);
  }

  /** A change behind the next free block does not affect it. */
  lemma NextFreeStays(bs: seq<Block>, cs: seq<Block>, i: int)
    requires 0 <= i <= |bs| && NextFree(bs, i) < |bs| && NextFree(bs, i) < |cs|
    requires forall m :: i <= m <= NextFree(bs, i) ==> cs[m].used == bs[m].used
    ensures NextFree(cs, i) == NextFree(bs, i)
  {
    NextFreeIs(cs, i, NextFree(bs, i));
  }

  /** A block's address as the list stores it, 0 (NULL) past the last one. */
  ghost function Addr(bs: seq<Block>, j: int): int
    requires 0 <= j <= |bs|
  {
    if j < |bs| then bs[j].start else 0
  }
}
