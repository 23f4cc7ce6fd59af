/** umalloc.c: Kernighan and Ritchie's allocator over a circular list of headers.
    The ring, the place where freep rests in it and the set of live blocks are what the
    pointer and size words stand for; Valid ties them together. freep may rest anywhere
    on the circle, so free starts its search for the gap there, and malloc its search for
    a block behind it; both end because the circle's addresses fall exactly once. */
module UserMalloc {
  import opened Bytes
  import opened FreeRing

  /** nunits as malloc computes it, in unsigned 32-bit arithmetic. */
  function Units(nbytes: int): int {
    (nbytes + 7) % U32 / 8 + 1
  }

  /** What morecore passes to sbrk, which takes a signed int. */
  function SbrkArg(nunits: int): int {
    var bytes := (if nunits < 4096 then 4096 else nunits) * 8 % U32;
    if bytes < 0x8000_0000 then bytes else bytes - U32
  }

  /** Neither computation wraps exactly for requests below 2^31 - 15 bytes: beyond that the
      block is too small for the request, or morecore asks sbrk for something else. */
  lemma RequestIsSoundIff(nbytes: int)
    requires 0 <= nbytes < U32
    ensures (Units(nbytes) - 1) * 8 >= nbytes &&
      SbrkArg(Units(nbytes)) == 8 * (if Units(nbytes) < 4096 then 4096 else Units(nbytes))
      <==> nbytes <= 0x7fff_fff0
  {
    if nbytes + 7 >= U32 {
      assert (nbytes + 7) % U32 == nbytes + 7 - U32;
    }
  }

  /** The largest request gets the smallest block: one header and no room at all. */
  lemma HugeRequestGetsNothing()
    ensures Units(U32 - 1) == 1
  {
  }

  class UserHeap {
    const base: int
    var freep: int
    var ptr: map<int, int>
    var size: map<int, int>
    // the end of the process's memory; sbrk moves it
    var brk: int
    var sbrkCalls: nat
    // the free list as a value, the place freep points at, and the blocks handed out
    ghost var ring: seq<Blk>
    ghost var rover: int
    ghost var live: set<Blk>

    ghost predicate LiveOk()
      reads this
    {
      && (forall b :: b in live ==> LiveBlk(size, ring, base, brk, b))
      && (forall b, c :: b in live && c in live && b != c ==> Apart(b, c))
    }

    /** The list is one circle through the ring in address order, starting and wrapping at base. */
    ghost predicate Valid()
      reads this
    {
      && RingOk(ring, base) && base + UNIT <= brk
      && (forall i :: 0 <= i < |ring| ==> End(ring[i]) <= brk)
      && LiveOk()
      && (freep == 0 ==> ring == [Blk(base, 0)] && live == {})
      && (freep != 0 ==> 0 <= rover < |ring| && freep == ring[rover].addr && AllLinked(ptr, size, ring))
    }

    constructor (base: int, brk: int)
      requires 0 < base && base + UNIT <= brk
      ensures Valid() && freep == 0 && live == {} && ring == [Blk(base, 0)] && this.base == base
    {
      this.base, this.brk := base, brk;
      freep, ptr, size, sbrkCalls := 0, map[], map[], 0;
      ring, rover, live := [Blk(base, 0)], 0, {};
    }

    /** Wherever freep rests, the circle descends in address exactly once: from its last block back to base. */
    lemma OneDescent(i: int)
      requires Valid() && freep != 0 && 0 <= i < |ring|
      ensures ring[i].addr in ptr && (ptr[ring[i].addr] <= ring[i].addr <==> i == |ring| - 1)
      ensures i == |ring| - 1 <==> ptr[ring[i].addr] == base
    {
      assert Linked(ptr, size, ring, i);
      assert i + 1 < |ring| ==> End(ring[i]) < ring[i + 1].addr;
    }

    /** The system call: it fails, or hands out n bytes above everything the process has. */
    method Sbrk(n: int) returns (p: int)
      requires n > 0 && brk >= 0
      modifies this`brk, this`sbrkCalls
      ensures sbrkCalls == old(sbrkCalls) + 1
      ensures p == -1 ==> brk == old(brk)
      ensures p != -1 ==> p >= old(brk) && brk == p + n
    {
      sbrkCalls := sbrkCalls + 1;
      if * {
        return -1;
      }
      var moved :| 0 <= moved;
      p := brk + moved;
      brk := p + n;
    }

    /** The gap the freed block b belongs in. From wherever freep rests, the walk finds it before it comes round. */
    method FindGap(b: Blk) returns (p: int, ghost k: int)
      requires Valid() && freep != 0 && b.units >= 1 && b.addr >= base + UNIT
      requires forall i :: 1 <= i < |ring| ==> Apart(b, ring[i])
      ensures InGap(ring, k, b) && p == ring[k].addr
    {
      GapOfIsGap(ring, base, b);
      ghost var g, n := GapOf(ring, b.addr, |ring|), |ring|;
      k := rover;
      p := freep;
      while true
        invariant 0 <= k < n && p == ring[k].addr
        decreases if g >= k then g - k else g - k + n
      {
        assert Linked(ptr, size, ring, k);
        var next := ptr[p];
        if b.addr > p && b.addr < next {
          break;
        }
        if p >= next && (b.addr > p || b.addr < next) {
          break;
        }
        p := next;
        k := Succ(n, k);
      }
    }

    /** free's writes: join bp with the block after it, then with p, or link it in. */
    method WriteFreed(p: int, bp: int, ghost k: int, ghost b: Blk)
      requires 0 <= k < |ring| && p == ring[k].addr && bp == b.addr && bp != p && b.units >= 1 && ring[0].addr < bp
      requires bp in size && size[bp] == b.units && Linked(ptr, size, ring, k)
      requires k + 1 < |ring| ==> Linked(ptr, size, ring, k + 1) && ring[k + 1].addr != bp && ring[k + 1].addr != p
      modifies this`freep, this`ptr, this`size
      ensures ptr == FreedPtr(old(ptr), ring, k, b) && size == FreedSize(old(size), ring, k, b) && freep == p
    {
      var next := ptr[p];
      if bp + UNIT * size[bp] == next {
        size := size[bp := size[bp] + size[next]];
        ptr := ptr[bp := ptr[next]];
      } else {
        ptr := ptr[bp := next];
      }
      if p + UNIT * size[p] == bp {
        size := size[p := size[p] + size[bp]];
        ptr := ptr[p := ptr[bp]];
      } else {
        ptr := ptr[p := bp];
      }
      freep := p;
    }

    /** free for a block that is apart from all others: find the gap, join, link, and leave freep there. */
    method FreeBlock(b: Blk)
      requires Valid() && freep != 0 && LiveBlk(size, ring, base, brk, b)
      requires forall c :: c in live ==> Apart(b, c)
      modifies this`freep, this`ptr, this`size, this`ring, this`rover
      ensures Valid() && freep != 0
      ensures InGap(old(ring), rover, b) && ring == Inserted(old(ring), rover, b)
      ensures Untouched(old(ptr), old(size), ptr, size, live)
    {
      var p, k := FindGap(b);
      FreedIsValid(b, k);
      WriteFreed(p, b.addr, k, b);
      hide Inserted, FreedPtr, FreedSize, LiveBlk, RingOk, AllLinked, Untouched;
      ring, rover := Inserted(ring, k, b), k;
    }

    /** What the state after free's writes satisfies. */
    lemma FreedIsValid(b: Blk, k: int)
      requires Valid() && freep != 0 && LiveBlk(size, ring, base, brk, b) && InGap(ring, k, b)
      requires forall c :: c in live ==> Apart(b, c)
      ensures var out := Inserted(ring, k, b);
        && RingOk(out, base) && AllLinked(FreedPtr(ptr, ring, k, b), FreedSize(size, ring, k, b), out)
        && k < |out| && out[k].addr == ring[k].addr
        && (forall i :: 0 <= i < |out| ==> End(out[i]) <= brk)
        && (forall c :: c in live ==> LiveBlk(FreedSize(size, ring, k, b), out, base, brk, c))
        && Untouched(ptr, size, FreedPtr(ptr, ring, k, b), FreedSize(size, ring, k, b), live)
      ensures Linked(ptr, size, ring, k) && ring[k].addr != b.addr
      ensures k + 1 < |ring| ==>
        Linked(ptr, size, ring, k + 1) && ring[k + 1].addr != b.addr && ring[k + 1].addr != ring[k].addr
    {
      InsertedOk(ring, base, k, b);
      InsertedLinked(ptr, size, ring, base, k, b);
      InsertedBelow(ring, brk, k, b);
      HereSuccessors(ring, base, k, b);
      AddrsDistinct(ring, base, k, b, k);
      if k + 1 < |ring| {
        AddrsDistinct(ring, base, k, b, k + 1);
      }
      forall c | c in live
        ensures LiveBlk(FreedSize(size, ring, k, b), Inserted(ring, k, b), base, brk, c)
        ensures SameWords(ptr, FreedPtr(ptr, ring, k, b), c) && SameWords(size, FreedSize(size, ring, k, b), c)
      {
        FreedKeepsLive(size, ring, base, brk, k, b, c);
      }
      hide Inserted, FreedPtr, FreedSize, LiveBlk, SameWords;
    }

    /** free(ap), for a pointer that malloc returned and that has not been freed since. */
    method Free(ap: int, ghost b: Blk)
      requires Valid() && b in live && ap == b.addr + UNIT
      modifies this`freep, this`ptr, this`size, this`ring, this`rover, this`live
      ensures Valid() && live == old(live) - {b}
      ensures InGap(old(ring), rover, b) && ring == Inserted(old(ring), rover, b)
      ensures forall x :: IsFree(ring, x) <==> IsFree(old(ring), x) || In(b, x)
      ensures Total(ring) == old(Total(ring)) + b.units
      ensures Untouched(old(ptr), old(size), ptr, size, live)
    {
      live := live - {b};
      InsertedTotalAll(b);
      InsertedBytesAll(b);
      var bp := ap - UNIT;
      FreeBlock(Blk(bp, size[bp]));
    }

    lemma InsertedTotalAll(b: Blk)
      ensures forall k :: 0 <= k < |ring| ==> Total(Inserted(ring, k, b)) == Total(ring) + b.units
    {
      forall k | 0 <= k < |ring|
        ensures Total(Inserted(ring, k, b)) == Total(ring) + b.units
      {
        InsertedTotal(ring, k, b);
      }
    }

    lemma InsertedBytesAll(b: Blk)
      requires Valid()
      ensures forall k, x :: InGap(ring, k, b) ==> (IsFree(Inserted(ring, k, b), x) <==> IsFree(ring, x) || In(b, x))
    {
      forall k, x | InGap(ring, k, b)
        ensures IsFree(Inserted(ring, k, b), x) <==> IsFree(ring, x) || In(b, x)
      {
        InsertedBytes(ring, base, k, b, x);
      }
    }

    /** morecore: at least 4096 units from sbrk, freed into the list; 0 exactly if sbrk fails. */
    method Morecore(nunits: int) returns (r: int)
      requires Valid() && freep != 0 && 1 <= nunits < 0x1000_0000
      modifies this`freep, this`ptr, this`size, this`ring, this`rover, this`brk, this`sbrkCalls
      ensures Valid() && freep != 0 && sbrkCalls == old(sbrkCalls) + 1
      ensures r == 0 ==> ring == old(ring) && rover == old(rover) && freep == old(freep) && brk == old(brk)
      ensures r != 0 ==> r == freep && brk >= old(brk) + UNIT * nunits
      ensures r != 0 ==> Total(ring) == old(Total(ring)) + (if nunits < 4096 then 4096 else nunits)
      ensures r != 0 ==> ring[rover].units >= nunits || (rover + 1 < |ring| && ring[rover + 1].units >= nunits)
      ensures Untouched(old(ptr), old(size), ptr, size, live)
    {
      hide Untouched, LiveBlk, RingOk, AllLinked, Inserted, Total;
      UntouchedNow();
      BrkPositive();
      var nu := if nunits < 4096 then 4096 else nunits;
      var p := Sbrk(SbrkArg(nunits));
      if p == -1 {
        return 0;
      }
      size := size[p := nu];
      FreshBlock(old(size), old(brk), p, nu);
      InsertedTotalAll(Blk(p, nu));
      InsertedHoldsAll(Blk(p, nu));
      ghost var ptr1, size1 := ptr, size;
      FreeBlock(Blk(p, nu));
      UntouchedStep(old(ptr), old(size), ptr1, size1, ptr, size, live);
      r := freep;
    }

    lemma BrkPositive()
      requires Valid()
      ensures brk > 0
    {
    }

    lemma UntouchedNow()
      ensures Untouched(ptr, size, ptr, size, live)
    {
    }

    /** Memory that sbrk has just handed out, with a header written at its start. */
    lemma FreshBlock(size0: map<int, int>, brk0: int, p: int, nu: int)
      requires RingOk(ring, base) && base + UNIT <= brk0 <= p && brk == p + UNIT * nu && nu >= 1 &&
        size == size0[p := nu]
      requires freep != 0 && 0 <= rover < |ring| && freep == ring[rover].addr && AllLinked(ptr, size0, ring)
      requires forall i :: 0 <= i < |ring| ==> End(ring[i]) <= brk0
      requires forall c :: c in live ==> LiveBlk(size0, ring, base, brk0, c)
      requires forall c, d :: c in live && d in live && c != d ==> Apart(c, d)
      ensures Valid() && RingOk(ring, base) && LiveBlk(size, ring, base, brk, Blk(p, nu)) && forall c :: c in live ==>
        Apart(Blk(p, nu), c)
      ensures Untouched(ptr, size0, ptr, size, live)
    {
      forall i | 0 <= i < |ring|
        ensures Linked(ptr, size, ring, i)
      {
        assert Linked(ptr, size0, ring, i);
      }
    }

    lemma InsertedHoldsAll(b: Blk)
      requires RingOk(ring, base)
      ensures forall k :: InGap(ring, k, b) ==>
        k < |Inserted(ring, k, b)| &&
          (Inserted(ring, k, b)[k].units >= b.units ||
          (k + 1 < |Inserted(ring, k, b)| && Inserted(ring, k, b)[k + 1].units >= b.units))
    {
      forall k | InGap(ring, k, b)
        ensures k < |Inserted(ring, k, b)| &&
          (Inserted(ring, k, b)[k].units >= b.units ||
          (k + 1 < |Inserted(ring, k, b)| && Inserted(ring, k, b)[k + 1].units >= b.units))
      {
        InsertedHolds(ring, k, b);
      }
    }

    /** The first call makes base a circle of one. */
    method Initialize()
      requires Valid() && freep == 0
      modifies this`freep, this`ptr, this`size, this`rover
      ensures Valid() && freep != 0 && rover == 0 && Untouched(old(ptr), old(size), ptr, size, live)
    {
      ptr := ptr[base := base];
      size := size[base := 0];
      freep, rover := base, 0;
    }

    lemma FreepIsRover(i: int)
      requires Valid() && freep != 0 && 0 <= i < |ring|
      ensures ring[i].addr == freep <==> i == rover
    {
      assert i < rover ==> End(ring[i]) < ring[rover].addr;
      assert rover < i ==> End(ring[rover]) < ring[i].addr;
    }

    /** Take n units from the block at p: unlink it, or cut off its tail; freep stays on the one before. */
    method TakeBlock(p: int, prevp: int, n: int, ghost i: int) returns (q: int)
      requires Valid() && freep != 0 && 0 < i < |ring| && p == ring[i].addr && prevp == ring[i - 1].addr
      requires 1 <= n <= ring[i].units
      modifies this`freep, this`ptr, this`size, this`ring, this`rover, this`live
      ensures Valid() && freep != 0 && rover == i - 1
      ensures q > 0 && q == TakenAddr(old(ring)[i], n) && ring == Taken(old(ring), i, n)
      ensures Blk(q, n) !in old(live) && live == old(live) + {Blk(q, n)}
      ensures forall c :: c in old(live) ==> Apart(Blk(q, n), c)
      ensures Untouched(old(ptr), old(size), ptr, size, old(live))
    {
      TakenIsValid(i, n);
      hide Taken, TakenPtr, TakenSize, TakenAddr, LiveBlk, RingOk, AllLinked, Untouched;
      ghost var b := Blk(TakenAddr(ring[i], n), n);
      q := WriteTaken(p, prevp, n, i);
      ring, rover, live := Taken(ring, i, n), i - 1, live + {b};
    }

    /** The writes of TakeBlock. */
    method WriteTaken(p: int, prevp: int, n: int, ghost i: int) returns (q: int)
      requires 0 < i < |ring| && p == ring[i].addr && prevp == ring[i - 1].addr && 1 <= n <= ring[i].units
      requires Linked(ptr, size, ring, i)
      modifies this`freep, this`ptr, this`size
      ensures ptr == TakenPtr(old(ptr), ring, i, n) && size == TakenSize(old(size), ring, i, n) && freep == prevp
      ensures q == TakenAddr(ring[i], n)
    {
      q := p;
      if size[p] == n {
        ptr := ptr[prevp := ptr[p]];
      } else {
        size := size[p := size[p] - n];
        q := p + UNIT * size[p];
        size := size[q := n];
      }
      freep := prevp;
    }

    lemma TakenIsValid(i: int, n: int)
      requires Valid() && freep != 0 && 0 < i < |ring| && 1 <= n <= ring[i].units
      ensures var out, b := Taken(ring, i, n), Blk(TakenAddr(ring[i], n), n);
        && RingOk(out, base) && AllLinked(TakenPtr(ptr, ring, i, n), TakenSize(size, ring, i, n), out)
        && i - 1 < |out| && out[i - 1] == ring[i - 1]
        && (forall j :: 0 <= j < |out| ==> End(out[j]) <= brk)
        && LiveBlk(TakenSize(size, ring, i, n), out, base, brk, b)
        && (forall c :: c in live ==> LiveBlk(TakenSize(size, ring, i, n), out, base, brk, c) && Apart(b, c))
        && b !in live && b.addr > 0 && Linked(ptr, size, ring, i)
        && Untouched(ptr, size, TakenPtr(ptr, ring, i, n), TakenSize(size, ring, i, n), live)
    {
      var b := Blk(TakenAddr(ring[i], n), n);
      TakenOk(ring, base, i, n);
      TakenLinked(ptr, size, ring, base, i, n);
      TakenIsLive(ptr, size, ring, base, brk, i, n);
      forall c | c in live
        ensures LiveBlk(TakenSize(size, ring, i, n), Taken(ring, i, n), base, brk, c) && Apart(b, c)
        ensures SameWords(ptr, TakenPtr(ptr, ring, i, n), c) && SameWords(size, TakenSize(size, ring, i, n), c)
      {
        TakenKeepsLive(size, ring, base, brk, i, n, c);
      }
      TakenBelow(ring, brk, i, n);
      hide Taken, TakenPtr, TakenSize, LiveBlk, RingOk, AllLinked, SameWords;
    }

    lemma TakenBelow(ring: seq<Blk>, brk: int, i: int, n: int)
      requires 0 < i < |ring| && 1 <= n <= ring[i].units && forall j :: 0 <= j < |ring| ==> End(ring[j]) <= brk
      ensures var out := Taken(ring, i, n);
        i - 1 < |out| && out[i - 1] == ring[i - 1] && forall j :: 0 <= j < |out| ==> End(out[j]) <= brk
    {
      var out := Taken(ring, i, n);
      forall j | 0 <= j < |out|
        ensures End(out[j]) <= brk
      {
        assert ring[i].units == n ==> out[j] == ring[if j < i then j else j + 1];
        assert ring[i].units != n && j != i ==> out[j] == ring[j];
      }
    }

    /** Some free block is large enough. */
    ghost predicate SomeFit(ring: seq<Blk>, n: int) {
      exists i :: 0 <= i < |ring| && ring[i].units >= n
    }

    /** The allocation malloc makes: the next fit after the rover, taken from its tail. */
    ghost predicate TakesNextFit(before: seq<Blk>, f: int, after: seq<Blk>, f': int, b: Blk) {
      exists i ::
        0 < i < |before| && NextFit(before, f, i, b.units) && after == Taken(before, i, b.units) &&
        End(b) == End(before[i]) && f' == i - 1
    }

    function Grown(nunits: int): int {
      if nunits < 4096 then 4096 else nunits
    }

    /** malloc. b is the block handed out. Sound requests only: see RequestIsSoundIff. */
    method Malloc(nbytes: int) returns (r: int, ghost b: Blk)
      requires Valid() && 0 <= nbytes <= 0x7fff_fff0
      modifies this
      ensures Valid() && freep != 0
      // at most one call of sbrk, and none if some free block is large enough
      ensures sbrkCalls == old(sbrkCalls) + (if SomeFit(old(ring), Units(nbytes)) then 0 else 1)
      // failure: only if that call failed, and then nothing has changed
      ensures r == 0 ==> sbrkCalls == old(sbrkCalls) + 1 && brk == old(brk) && live == old(live) && ring == old(ring)
      // success: a block of exactly the units asked for, with room for nbytes, apart from every live block
      ensures r != 0 ==> b.units == Units(nbytes) && r == b.addr + UNIT && UNIT * (b.units - 1) >= nbytes
      ensures r != 0 ==> b !in old(live) && live == old(live) + {b} && forall c :: c in old(live) ==> Apart(b, c)
      // no word of a live block is written, on any path
      ensures Untouched(old(ptr), old(size), ptr, size, old(live))
      // next fit when there is one, and no unit lost either way
      ensures SomeFit(old(ring), Units(nbytes)) ==>
        r != 0 && TakesNextFit(old(ring), if old(freep) == 0 then 0 else old(rover), ring, rover, b)
      ensures r != 0 ==>
        Total(ring) + b.units == Total(old(ring)) + (if SomeFit(old(ring), Units(nbytes)) then 0
        else Grown(Units(nbytes)))
    {
      b := Blk(0, 0);
      ghost var f0 := if freep == 0 then 0 else rover;
      hide Valid, Taken, Total, TooSmallUpTo, RingOk, Untouched, Units, TakenAddr, Apart;
      UntouchedNow();
      UnitsHold(nbytes);
      var nunits := Units(nbytes);
      if freep == 0 {
        Initialize();
      }
      var prevp := freep;
      StartsSmall(nunits);
      CircleFacts(rover);
      ghost var ring0, fit := ring, SomeFit(ring, nunits);
      ghost var i, grown := Succ(|ring|, rover), false;
      var p := ptr[prevp];
      while true
        invariant Valid() && freep != 0 && 0 <= i < |ring| && p == ring[i].addr
        invariant i > 0 ==> prevp == ring[i - 1].addr
        invariant TooSmallUpTo(ring, rover, i, nunits) && live == old(live)
        invariant Untouched(old(ptr), old(size), ptr, size, live)
        invariant !grown ==> ring == ring0 && rover == f0 && sbrkCalls == old(sbrkCalls) && brk == old(brk)
        invariant grown ==>
          !fit && SomeFit(ring, nunits) && sbrkCalls == old(sbrkCalls) + 1 &&
          Total(ring) == Total(ring0) + Grown(nunits)
        decreases !grown, |ring| - Dist(|ring|, rover, i)
      {
        CircleFacts(i);
        if size[p] >= nunits {
          TakenTotal(ring, i, nunits);
          b := Blk(TakenAddr(ring[i], nunits), nunits);
          assert NextFit(ring, rover, i, nunits);
          ghost var ptr1, size1 := ptr, size;
          p := TakeBlock(p, prevp, nunits, i);
          UntouchedStep(old(ptr), old(size), ptr1, size1, ptr, size, old(live));
          r := p + UNIT;
          return;
        }
        if p == freep {
          NoFitAtAll(nunits);
          ghost var ptr1, size1 := ptr, size;
          p := Morecore(nunits);
          UntouchedStep(old(ptr), old(size), ptr1, size1, ptr, size, live);
          if p == 0 {
            return 0, b;
          }
          grown := true;
          i := rover;
          StartsSmall(nunits);
        } else {
          TooSmallStep(ring, rover, i, nunits);
        }
        CircleFacts(i);
        prevp := p;
        p := ptr[p];
        i := Succ(|ring|, i);
      }
    }

    /** The program stores what it likes into a block it has been given, behind the header: the list, the other blocks
        and the header itself are not affected. */
    method Store(b: Blk, x: int, p: int, n: int)
      requires Valid() && b in live && b.addr + UNIT <= x < End(b)
      modifies this`ptr, this`size
      ensures Valid() && ptr == old(ptr)[x := p] && size == old(size)[x := n]
      ensures Untouched(old(ptr), old(size), ptr, size, live - {b})
    {
      StoreIsValid(b, x, p, n);
      hide RingOk, LiveBlk, AllLinked;
      ptr, size := ptr[x := p], size[x := n];
    }

    lemma StoreIsValid(b: Blk, x: int, p: int, n: int)
      requires Valid() && b in live && b.addr + UNIT <= x < End(b)
      ensures freep != 0 && AllLinked(ptr[x := p], size[x := n], ring)
      ensures forall c :: c in live ==> LiveBlk(size[x := n], ring, base, brk, c)
      ensures Untouched(ptr, size, ptr[x := p], size[x := n], live - {b})
    {
      var ptr1, size1 := ptr[x := p], size[x := n];
      forall i | 0 <= i < |ring|
        ensures Linked(ptr1, size1, ring, i)
      {
        assert Linked(ptr, size, ring, i);
        assert i > 0 ==> Apart(b, ring[i]);
      }
      forall c | c in live
        ensures c.addr != x && (c != b ==> SameWords(ptr, ptr[x := p], c) && SameWords(size, size[x := n], c))
      {
        assert c != b ==> Apart(b, c);
      }
    }

    lemma UnitsHold(nbytes: int)
      requires 0 <= nbytes <= 0x7fff_fff0
      ensures 1 <= Units(nbytes) < 0x1000_0000 && UNIT * (Units(nbytes) - 1) >= nbytes
    {
    }

    /** What the walk reads at place i. */
    lemma CircleFacts(i: int)
      requires Valid() && freep != 0 && 0 <= i < |ring|
      ensures 0 <= rover < |ring| && freep == ring[rover].addr && Linked(ptr, size, ring, i)
      ensures ring[i].addr == freep <==> i == rover
      ensures ring[i].units >= 1 ==> i > 0
      ensures ring[i].addr != 0
    {
      FreepIsRover(i);
      assert Linked(ptr, size, ring, i);
    }

    /** Right behind the rover nothing has been looked at yet. */
    lemma StartsSmall(n: int)
      requires Valid() && freep != 0
      ensures 0 <= rover < |ring| && TooSmallUpTo(ring, rover, Succ(|ring|, rover), n)
    {
    }

    lemma NoFitAtAll(n: int)
      requires Valid() && freep != 0 && TooSmallUpTo(ring, rover, rover, n) && ring[rover].units < n
      ensures !SomeFit(ring, n)
    {
      forall j | 0 <= j < |ring|
        ensures ring[j].units < n
      {
        NoneOnCircle(ring, rover, n, j);
      }
    }
  }
}
