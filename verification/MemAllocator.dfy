/** lab3's allocator (mem.c): the linear free list, its three fit policies, splitting and
    two-sided coalescing, over a memory of eight-byte cells.
    The cells of a block's first words say what it is: a free block starts with the
    link to the next one and its size, an allocated one with its size and the magic
    number. Words says that the memory describes a tiling in this way; each operation's
    writes are given as one function of the memory before, and are proved to describe
    the tiling that the operation is to leave. */
module MemAllocator {
  import opened Arith
  import opened TilingHeap

  const MAGIC := 0x19260817

  /** What eight aligned bytes hold: the two words of a free node, the one word of an
      allocated block's header, or user data. */
  datatype Cell = Link(next: int) | Size(size: int) | Header(hsize: int, magic: int) | Data(bits: int)

  datatype Error = NoError | E_NO_SPACE | E_BAD_ARGS | E_BAD_POINTER

  /** mem_dump's output: address range and whether it is free. */
  datatype Line = Line(l: int, r: int, isFree: bool)

  /** The list words of the free block at index i of the tiling. */
  ghost predicate FreeWords(mem: map<int, Cell>, bs: seq<Block>, i: int)
    requires 0 <= i < |bs|
  {
    && bs[i].start in mem && mem[bs[i].start] == Link(Addr(bs, NextFree(bs, i + 1)))
    && bs[i].start + 8 in mem && mem[bs[i].start + 8] == Size(bs[i].len - NODE)
  }

  ghost predicate UsedWord(mem: map<int, Cell>, bs: seq<Block>, i: int)
    requires 0 <= i < |bs|
  {
    bs[i].start in mem && mem[bs[i].start] == Header(bs[i].len - HEADER, MAGIC)
  }

  ghost predicate WordsAt(mem: map<int, Cell>, bs: seq<Block>, i: int)
    requires 0 <= i < |bs|
  {
    if bs[i].used then UsedWord(mem, bs, i) else FreeWords(mem, bs, i)
  }

  ghost predicate Words(mem: map<int, Cell>, bs: seq<Block>) {
    forall i :: 0 <= i < |bs| ==> WordsAt(mem, bs, i)
  }

  /** Memory differs only inside blocks that are free in bs. */
  ghost predicate OnlyFreeWritten(before: map<int, Cell>, after: map<int, Cell>, bs: seq<Block>) {
    forall j, x :: 0 <= j < |bs| && bs[j].used && bs[j].start <= x < End(bs[j]) && x in before ==>
      x in after && after[x] == before[x]
  }

  /** One line per block. */
  ghost function Lines(bs: seq<Block>): (out: seq<Line>)
    ensures |out| == |bs|
    ensures forall i :: 0 <= i < |bs| ==> out[i] == Line(bs[i].start, End(bs[i]), !bs[i].used)
  {
    seq(|bs|, i requires 0 <= i < |bs| => Line(bs[i].start, End(bs[i]), !bs[i].used))
  }

  lemma LinesConcat(bs: seq<Block>, m: int, n: int)
    requires 0 <= m <= n <= |bs|
    ensures Lines(bs[..m]) + Lines(bs[m..n]) == Lines(bs[..n])
  {
  }

  predicate Within(x: int, lo: int, hi: int) {
    lo <= x < hi
  }

  /** Fresh pages. */
  function Zeroed(lo: int, hi: int): (m: map<int, Cell>)
    ensures forall x :: lo <= x < hi ==> x in m
  {
    map x | lo <= x < hi && Within(x, lo, hi) :: Data(0)
  }

  class Allocator {
    var called: bool
    var m_error: Error
    var hptr: int
    var totsize: int
    var base: int
    var mem: map<int, Cell>
    ghost var blocks: seq<Block>

    ghost predicate Valid()
      reads this
    {
      called ==>
        && hptr > 0 && 0 < totsize < 0x8000_0000 && Tiles(blocks, hptr, hptr + totsize)
        && Words(mem, blocks)
        && base == Addr(blocks, NextFree(blocks, 0))
        && (forall x :: hptr <= x < hptr + totsize ==> x in mem)
    }

    /** ptr was returned by mem_alloc and not freed since. */
    ghost predicate Live(ptr: int, k: int)
      reads this
    {
      0 <= k < |blocks| && blocks[k].used && ptr == blocks[k].start + HEADER
    }

    constructor ()
      ensures Valid() && !called && m_error == NoError
    {
      called, m_error := false, NoError;
      hptr, totsize, base, mem, blocks := 0, 0, 0, map[], [];
    }

    /** region is where mmap puts the pages, 0 if it fails. */
    method MemInit(size_of_region: int, pageSize: int, region: int) returns (r: int)
      requires Valid() && pageSize > 0 && pageSize % 8 == 0 && pageSize >= NODE
      requires region >= 0 && region % 8 == 0
      requires size_of_region + pageSize <= 0x8000_0000
      modifies this
      ensures Valid()
      ensures r == 0 <==> size_of_region > 0 && !old(called) && region > 0
      ensures r == 0 ==> called && size_of_region <= totsize < size_of_region + pageSize && totsize % pageSize == 0
      ensures r == 0 ==> hptr == region && blocks == [Block(hptr, totsize, false)]
      ensures r != 0 ==>
        r == -1 && m_error == E_BAD_ARGS && called == old(called) && base == old(base) && mem == old(mem) &&
        blocks == old(blocks)
    {
      if size_of_region <= 0 || called {
        m_error := E_BAD_ARGS;
        return -1;
      }
      var pages := (size_of_region + pageSize - 1) / pageSize;
      RoundUp(size_of_region, pageSize);
      Whole(pages, pageSize);
      if region == 0 {
        m_error := E_BAD_ARGS;
        return -1;
      }
      totsize := pages * pageSize;
      hptr := region;
      called := true;
      base := hptr;
      mem := Zeroed(hptr, hptr + totsize);
      mem := mem[base + 8 := Size(totsize - NODE)];
      // a fresh mapping reads as zeros, which is a NULL next pointer
      mem := mem[base := Link(0)];
      blocks := [Block(hptr, totsize, false)];
      return 0;
    }

    /** The free block at list position n, or NULL, as a place in the tiling. */
    ghost predicate ListAt(n: int, i: int)
      reads this
    {
      0 <= i <= |blocks| && n == Addr(blocks, i) && (i < |blocks| ==> !blocks[i].used)
    }

    /** prevp names the last free block before index i, NULL if there is none. */
    ghost predicate PrevAt(prevp: int, pi: int, i: int)
      reads this
    {
      && -1 <= pi < i <= |blocks|
      && (if pi == -1 then prevp == 0 else prevp == blocks[pi].start && !blocks[pi].used)
      && (forall m :: pi < m < i ==> blocks[m].used)
    }

    /** n->s.next and n->s.size, for a node on the list. */
    method NextOf(n: int, ghost i: int) returns (next: int)
      requires Valid() && called && ListAt(n, i) && n != 0
      ensures ListAt(next, NextFree(blocks, i + 1))
    {
      assert i < |blocks|;
      assert WordsAt(mem, blocks, i);
      next := mem[n].next;
    }

    method SizeOf(n: int, ghost i: int) returns (size: int)
      requires Valid() && called && ListAt(n, i) && n != 0
      ensures i < |blocks| && size == blocks[i].len - NODE
    {
      assert i < |blocks|;
      assert WordsAt(mem, blocks, i);
      size := mem[n + 8].size;
    }

    lemma AddrPositive(i: int)
      requires Valid() && called && 0 <= i <= |blocks|
      ensures Addr(blocks, i) == 0 <==> i == |blocks|
    {
      assert i < |blocks| ==> BlockOk(blocks[i]);
    }

    method FindFirst(need: int) returns (n: int, prevp: int, ghost k: int, ghost pk: int)
      requires Valid() && called
      ensures n != 0 ==> ListAt(n, k) && PrevAt(prevp, pk, k) && k < |blocks| && Chosen(blocks, FirstFit, need, k)
      ensures n == 0 ==> forall j :: 0 <= j < |blocks| ==> !Fits(blocks, j, need)
    {
      n, prevp := base, 0;
      k, pk := NextFree(blocks, 0), -1;
      AddrPositive(k);
      while n != 0
        invariant ListAt(n, k) && PrevAt(prevp, pk, k) && (n == 0 <==> k == |blocks|)
        invariant NoneFits(blocks, need, k)
        decreases |blocks| - k
      {
        var size := SizeOf(n, k);
        if size + NODE >= need {
          return;
        }
        NoneFitsStep(blocks, need, k);
        prevp, n, k, pk := Step(n, k);
      }
    }

    lemma LengthBound(i: int)
      requires Valid() && called && 0 <= i < |blocks|
      ensures blocks[i].len <= totsize
    {
      assert BlockOk(blocks[i]) && BlockOk(blocks[0]) && BlockOk(blocks[|blocks| - 1]);
      if i > 0 { Ordered(blocks, hptr, hptr + totsize, 0, i); }
      if i < |blocks| - 1 { Ordered(blocks, hptr, hptr + totsize, i, |blocks| - 1); }
    }

    /** cp = cn, cn = cn->s.next. */
    method Step(cn: int, ghost i: int) returns (cp: int, next: int, ghost j: int, ghost pj: int)
      requires Valid() && called && ListAt(cn, i) && cn != 0
      ensures cp == cn && pj == i && j == NextFree(blocks, i + 1) && ListAt(next, j) && PrevAt(cp, pj, j) && i < j
      ensures next == 0 <==> j == |blocks|
    {
      cp, pj := cn, i;
      next := NextOf(cn, i);
      j := NextFree(blocks, i + 1);
      AddrPositive(j);
    }

    method FindBest(need: int) returns (n: int, prevp: int, ghost k: int, ghost pk: int)
      requires Valid() && called
      ensures n != 0 ==> ListAt(n, k) && PrevAt(prevp, pk, k) && k < |blocks| && Chosen(blocks, BestFit, need, k)
      ensures n == 0 ==> forall j :: 0 <= j < |blocks| ==> !Fits(blocks, j, need)
    {
      n, prevp, k, pk := 0, 0, -1, -1;
      var bestsize := 0xffff_ffff;
      var cn, cp := base, 0;
      ghost var i, pi := NextFree(blocks, 0), -1;
      AddrPositive(i);
      while cn != 0
        invariant ListAt(cn, i) && PrevAt(cp, pi, i) && (cn == 0 <==> i == |blocks|)
        invariant BestUpTo(blocks, need, i, k) && (n == 0 <==> k == -1)
        invariant bestsize == if k == -1 then 0xffff_ffff else blocks[k].len - NODE
        invariant k != -1 ==> ListAt(n, k) && PrevAt(prevp, pk, k)
        decreases |blocks| - i
      {
        var size := SizeOf(cn, i);
        LengthBound(i);
        BestUpToStep(blocks, need, i, k);
        if size < bestsize && size + NODE >= need {
          n, prevp, bestsize, k, pk := cn, cp, size, i, pi;
        }
        cp, cn, i, pi := Step(cn, i);
      }
    }

    method FindWorst(need: int) returns (n: int, prevp: int, ghost k: int, ghost pk: int)
      requires Valid() && called
      ensures n != 0 ==> ListAt(n, k) && PrevAt(prevp, pk, k) && k < |blocks| && Chosen(blocks, WorstFit, need, k)
      ensures n == 0 ==> forall j :: 0 <= j < |blocks| ==> !Fits(blocks, j, need)
    {
      n, prevp, k, pk := 0, 0, -1, -1;
      var bestsize := 0;
      var cn, cp := base, 0;
      ghost var i, pi := NextFree(blocks, 0), -1;
      AddrPositive(i);
      while cn != 0
        invariant ListAt(cn, i) && PrevAt(cp, pi, i) && (cn == 0 <==> i == |blocks|)
        invariant WorstUpTo(blocks, need, i, k) && (n == 0 <==> k == -1)
        invariant bestsize == if k == -1 then 0 else blocks[k].len - NODE
        invariant k != -1 ==> ListAt(n, k) && PrevAt(prevp, pk, k)
        decreases |blocks| - i
      {
        var size := SizeOf(cn, i);
        LengthBound(i);
        WorstUpToStep(blocks, need, i, k);
        if size >= bestsize && size + NODE >= need {
          n, prevp, bestsize, k, pk := cn, cp, size, i, pi;
        }
        cp, cn, i, pi := Step(cn, i);
      }
    }

    /** The bytes a request takes: its size rounded up to eight, and the header. */
    static function Need(size: int): (need: int)
      requires size >= 1
      ensures need % 8 == 0 && size + HEADER <= need < size + HEADER + 8 && need >= NODE
    {
      (size + 7) / 8 * 8 + HEADER
    }

    /** mem_alloc. k is the chosen block's place in the tiling. */
    method MemAlloc(size: int, style: Style) returns (ptr: int, ghost k: int)
      requires Valid() && 1 <= size < 0x8000_0000
      modifies this
      ensures Valid() && called == old(called) && hptr == old(hptr) && totsize == old(totsize)
      ensures ptr != 0 <==>
        old(called) && style != OtherStyle && exists j :: 0 <= j < |old(blocks)| && Fits(old(blocks), j, Need(size))
      ensures ptr != 0 ==> 0 <= k < |old(blocks)| && Chosen(old(blocks), style, Need(size), k)
      ensures ptr != 0 ==>
        blocks == Carved(old(blocks), k, Need(size)) && Live(ptr, k) && blocks[k].len - HEADER >= size
      ensures ptr != 0 ==> OnlyFreeWritten(old(mem), mem, old(blocks))
      ensures ptr == 0 ==> blocks == old(blocks) && mem == old(mem) && base == old(base)
      ensures ptr == 0 ==> m_error == if old(called) then E_NO_SPACE else E_BAD_ARGS
    {
      ptr, k := 0, 0;
      if !called {
        m_error := E_BAD_ARGS;
        return;
      }
      var need := Need(size);
      var n, prevp := 0, 0;
      ghost var pk := -1;
      match style {
        case FirstFit => n, prevp, k, pk := FindFirst(need);
        case BestFit => n, prevp, k, pk := FindBest(need);
        case WorstFit => n, prevp, k, pk := FindWorst(need);
        case OtherStyle =>
      }
      if n == 0 {
        m_error := E_NO_SPACE;
        return;
      }
      CarveNode(n, prevp, need, k, pk);
      ptr := n + HEADER;
    }

    /** Split or absorb the chosen node, unlink it and write its header. */
    method CarveNode(n: int, prevp: int, need: int, ghost k: int, ghost pk: int)
      requires Valid() && called && ListAt(n, k) && PrevAt(prevp, pk, k) && k < |blocks| && Fits(blocks, k, need)
      requires need >= NODE && need % 8 == 0
      modifies this`mem, this`base, this`blocks
      ensures Valid() && blocks == Carved(old(blocks), k, need) && k < |blocks| && blocks[k].used &&
        n == blocks[k].start
      ensures OnlyFreeWritten(old(mem), mem, old(blocks))
    {
      CarvedSummary(mem, blocks, hptr, hptr + totsize, k, pk, need);
      WriteCarved(n, prevp, need, k, pk);
      hide Carved, CarvedMem, NewNode;
      blocks := Carved(blocks, k, need);
    }

    method WriteCarved(n: int, prevp: int, need: int, ghost k: int, ghost pk: int)
      requires Valid() && called && ListAt(n, k) && PrevAt(prevp, pk, k) && k < |blocks|
      modifies this`mem, this`base
      ensures mem == CarvedMem(old(mem), blocks, k, pk, need)
      ensures base == if pk == -1 then NewNode(blocks, k, need) else old(base)
    {
      AddrPositive(k);
      var size := SizeOf(n, k);
      var next := NextOf(n, k);
      if pk != -1 {
        AddrPositive(pk);
      }
      hide Valid;
      var remain := size + NODE - need;
      var newnode, hsize := next, need - HEADER;
      if remain >= NODE {
        newnode := n + need;
        mem := mem[newnode + 8 := Size(size - need)];
        mem := mem[newnode := Link(next)];
      } else {
        hsize := hsize + remain;
      }
      if prevp == 0 {
        base := newnode;
      } else {
        mem := mem[prevp := Link(newnode)];
      }
      mem := mem[n := Header(hsize, MAGIC)];
    }

    /** The word a pointer's header would be in holds the magic number. */
    predicate Magical(p: int)
      reads this
    {
      p in mem && mem[p].Header? && mem[p].magic == MAGIC
    }

    /** mem_free of a live pointer, or of one whose header word does not hold the magic number. */
    method MemFree(ptr: int, ghost k: int) returns (r: int)
      requires Valid() && (Live(ptr, k) || !Magical(ptr - HEADER))
      modifies this
      ensures Valid() && called == old(called) && hptr == old(hptr) && totsize == old(totsize)
      ensures r == 0 <==> old(called) && old(Live(ptr, k))
      ensures r == 0 ==> blocks == Released(old(blocks), k)
      ensures r == 0 ==> OthersUntouched(old(mem), mem, old(blocks), k)
      ensures r != 0 ==> r == -1 && blocks == old(blocks) && mem == old(mem) && base == old(base)
      ensures r != 0 ==> m_error == if old(called) then E_BAD_POINTER else E_BAD_ARGS
    {
      if !called {
        m_error := E_BAD_ARGS;
        return -1;
      }
      assert Live(ptr, k) ==> WordsAt(mem, blocks, k);
      var t := ptr - HEADER;
      if !(t in mem && mem[t].Header? && mem[t].magic == MAGIC) {
        m_error := E_BAD_POINTER;
        return -1;
      }
      FreeBlock(t, k);
      return 0;
    }

    /** The last free node that ends at or before t, and the first after it. */
    method FindNeighbours(t: int, ghost k: int) returns (lp: int, rp: int, ghost pk: int)
      requires Valid() && called && 0 <= k < |blocks| && blocks[k].used && t == blocks[k].start
      ensures LastFreeBefore(blocks, pk, k) && lp == (if pk == -1 then 0 else blocks[pk].start)
      ensures rp == Addr(blocks, NextFree(blocks, k + 1))
    {
      lp, pk := 0, -1;
      rp := base;
      ghost var i := NextFree(blocks, 0);
      AddrPositive(i);
      while rp != 0
        invariant ListAt(rp, i) && PrevAt(lp, pk, i) && (rp == 0 <==> i == |blocks|) && pk < k
        decreases |blocks| - i
      {
        var size := SizeOf(rp, i);
        if i < k {
          Ordered(blocks, hptr, hptr + totsize, i, k);
        } else {
          assert i != k && BlockOk(blocks[i]);
          Ordered(blocks, hptr, hptr + totsize, k, i);
          assert BlockOk(blocks[k]);
        }
        if rp + size + NODE <= t {
          lp, rp, i, pk := Step(rp, i);
        } else {
          break;
        }
      }
      NextFreeIs(blocks, k + 1, i);
    }

    method FreeBlock(t: int, ghost k: int)
      requires Valid() && called && 0 <= k < |blocks| && blocks[k].used && t == blocks[k].start
      modifies this`mem, this`base, this`blocks
      ensures Valid() && blocks == Released(old(blocks), k)
      ensures OthersUntouched(old(mem), mem, old(blocks), k)
    {
      ghost var pk := WriteReleased(t, k);
      ReleasedSummary(old(mem), blocks, hptr, hptr + totsize, k, pk);
      ReleasedTouchesFreeOnly(old(mem), blocks, hptr, hptr + totsize, k, pk);
      hide ReleasedMem, Released;
      blocks := Released(blocks, k);
    }

    method WriteReleased(t: int, ghost k: int) returns (ghost pk: int)
      requires Valid() && called && 0 <= k < |blocks| && blocks[k].used && t == blocks[k].start
      modifies this`mem, this`base
      ensures ReleaseAt(old(mem), blocks, hptr, hptr + totsize, k, pk)
      ensures mem == ReleasedMem(old(mem), blocks, k, pk)
      ensures base == if pk == -1 then t else old(base)
    {
      var lp, rp;
      lp, rp, pk := FindNeighbours(t, k);
      assert ReleaseAt(mem, blocks, hptr, hptr + totsize, k, pk);
      ReleaseFacts(mem, blocks, hptr, hptr + totsize, k, pk);
      hide Valid, ReleaseAt;
      var node, nsize := JoinLeft(t, lp, rp, k, pk);
      JoinRight(node, nsize, rp, k, old(mem));
    }

    /** Make t a node and merge it into lp, or link it in between lp and rp. */
    method JoinLeft(t: int, lp: int, rp: int, ghost k: int, ghost pk: int) returns (node: int, nsize: int)
      requires 0 <= k < |blocks| && -1 <= pk < k && t == blocks[k].start &&
        lp == (if pk == -1 then 0 else blocks[pk].start)
      requires BlockOk(blocks[k]) && UsedWord(mem, blocks, k)
      requires pk != -1 ==>
        BlockOk(blocks[pk]) && FreeWords(mem, blocks, pk) && End(blocks[pk]) <= t &&
        (End(blocks[pk]) == t <==> MergesLeft(blocks, k, pk))
      requires rp == Addr(blocks, NextFree(blocks, k + 1)) && (pk == -1 ==> base == rp)
      modifies this`mem, this`base
      ensures mem == LeftMem(old(mem), blocks, k, pk)
      ensures base == if pk == -1 then t else old(base)
      ensures node == (if MergesLeft(blocks, k, pk) then lp else t) && nsize == End(blocks[k]) - node - NODE
    {
      var tsize := mem[t].hsize + HEADER - NODE;
      mem := mem[t + 8 := Size(tsize)];
      node, nsize := t, tsize;
      if lp == 0 {
        mem := mem[t := Link(base)];
        base := t;
      } else if lp + mem[lp + 8].size + NODE == t {
        nsize := mem[lp + 8].size + NODE + tsize;
        mem := mem[lp + 8 := Size(nsize)];
        node := lp;
      } else {
        mem := mem[t := Link(rp)];
        mem := mem[lp := Link(t)];
      }
    }

    /** Merge rp into the node if they touch. */
    method JoinRight(node: int, nsize: int, rp: int, ghost k: int, ghost before: map<int, Cell>)
      requires 0 <= k < |blocks| && rp == Addr(blocks, NextFree(blocks, k + 1)) && nsize == End(blocks[k]) - node - NODE
      requires var q := NextFree(blocks, k + 1);
        q < |blocks| ==>
          BlockOk(blocks[q]) && FreeWords(before, blocks, q) &&
          (End(blocks[k]) == blocks[q].start <==> MergesRight(blocks, k))
      requires NextFree(blocks, k + 1) < |blocks| ==>
        rp in mem && rp + 8 in mem && mem[rp] == before[rp] && mem[rp + 8] == before[rp + 8]
      modifies this`mem
      ensures mem == RightMem(old(mem), blocks, k, node)
    {
      if rp != 0 && node + NODE + nsize == rp {
        var total := nsize + NODE + mem[rp + 8].size;
        var next := mem[rp].next;
        mem := mem[node + 8 := Size(total)];
        mem := mem[node := Link(next)];
      }
    }

    /** The program stores what it likes into a block it has been given, behind the header: the list, the headers and
        the other blocks are not affected. */
    method Store(ptr: int, ghost k: int, x: int, bits: int)
      requires Valid() && called && Live(ptr, k) && ptr <= x < End(blocks[k])
      modifies this`mem
      ensures Valid() && mem == old(mem)[x := Data(bits)]
      ensures OthersUntouched(old(mem), mem, blocks, k)
    {
      StoreKeepsWords(k, x, bits);
      hide Words, Tiles;
      mem := mem[x := Data(bits)];
    }

    lemma StoreKeepsWords(k: int, x: int, bits: int)
      requires Valid() && called && 0 <= k < |blocks| && blocks[k].used &&
        blocks[k].start + HEADER <= x < End(blocks[k])
      ensures Words(mem[x := Data(bits)], blocks)
      ensures OthersUntouched(mem, mem[x := Data(bits)], blocks, k)
    {
      var after := mem[x := Data(bits)];
      forall i | 0 <= i < |blocks|
        ensures WordsAt(after, blocks, i) && (i != k ==> !(blocks[i].start <= x < End(blocks[i])))
      {
        assert WordsAt(mem, blocks, i);
        if i < k {
          Ordered(blocks, hptr, hptr + totsize, i, k);
        } else if k < i {
          Ordered(blocks, hptr, hptr + totsize, k, i);
        }
      }
    }

    /** outputAllocated: walk the headers from l. The walk stops exactly at r and visits each allocated block
        between. */
    method OutputAllocated(l: int, r: int, ghost i: int, ghost j: int) returns (out: seq<Line>)
      requires Valid() && called && 0 <= i <= j <= |blocks| && (forall m :: i <= m < j ==> blocks[m].used)
      requires l == Edge(i) && r == Edge(j)
      ensures out == Lines(blocks[i..j])
    {
      out := [];
      var at := l;
      ghost var m := i;
      while at < r
        invariant i <= m <= j && at == Edge(m) && out == Lines(blocks[i..m])
        decreases j - m
      {
        EdgeOrder(m, j);
        EdgeStep(m);
        assert WordsAt(mem, blocks, m);
        var size := mem[at].hsize;
        out := out + [Line(at, at + HEADER + size, false)];
        at := at + HEADER + size;
        assert blocks[i..m + 1] == blocks[i..m] + [blocks[m]];
        m := m + 1;
      }
      EdgeOrder(m, j);
    }

    /** Where block m starts, and the end of the region past the last block. */
    ghost function Edge(m: int): int
      reads this
      requires 0 <= m <= |blocks|
    {
      if m < |blocks| then blocks[m].start else hptr + totsize
    }

    lemma EdgeStep(m: int)
      requires Valid() && called && 0 <= m < |blocks|
      ensures End(blocks[m]) == Edge(m + 1)
    {
      assert m < |blocks| - 1 ==> Follows(blocks, m);
    }

    lemma {:induction false} EdgeOrder(m: int, j: int)
      requires Valid() && called && 0 <= m <= j <= |blocks|
      ensures Edge(m) < Edge(j) <==> m < j
      decreases j - m
    {
      if m < j {
        EdgeStep(m);
        assert BlockOk(blocks[m]);
        EdgeOrder(m + 1, j);
      }
    }

    /** The allocated blocks between the end of free node prevp and address r. */
    method OutputGap(prevp: int, r: int, ghost pi: int, ghost i: int, before: seq<Line>) returns (out: seq<Line>)
      requires Valid() && called && 0 <= pi < i <= |blocks| && prevp == blocks[pi].start && !blocks[pi].used
      requires (forall m :: pi < m < i ==> blocks[m].used) && r == Edge(i)
      requires before == Lines(blocks[..pi + 1])
      ensures out == Lines(blocks[..i])
    {
      AddrPositive(pi);
      var size := SizeOf(prevp, pi);
      EdgeStep(pi);
      LinesConcat(blocks, pi + 1, i);
      var gap := OutputAllocated(prevp + NODE + size, r, pi + 1, i);
      hide Valid, Lines;
      out := before + gap;
    }

    method OutputNode(p: int, ghost i: int, before: seq<Line>) returns (out: seq<Line>)
      requires Valid() && called && ListAt(p, i) && p != 0 && i < |blocks| && before == Lines(blocks[..i])
      ensures out == Lines(blocks[..i + 1])
    {
      var size := SizeOf(p, i);
      out := before + [Line(p, p + NODE + size, true)];
      assert blocks[..i + 1] == blocks[..i] + [blocks[i]];
    }

    /** mem_dump: the free nodes, and in each gap the allocated blocks. With free space
        left its lines are the whole tiling in address order. */
    method MemDump() returns (out: seq<Line>)
      requires Valid()
      ensures called && base != 0 ==> out == Lines(blocks)
      ensures !called || base == 0 ==> out == []
    {
      out := [];
      if !called || base == 0 {
        return;
      }
      ghost var i, pi := NextFree(blocks, 0), -1;
      AddrPositive(i);
      EdgeOrder(0, i);
      if hptr < base {
        out := OutputAllocated(hptr, base, 0, i);
      }
      assert blocks[0..i] == blocks[..i];
      var p, prevp := base, 0;
      out := OutputNode(p, i, out);
      prevp, p, i, pi := Step(p, i);
      while p != 0
        invariant ListAt(p, i) && (p == 0 <==> i == |blocks|)
        invariant PrevAt(prevp, pi, i) && 0 <= pi && out == Lines(blocks[..pi + 1])
        decreases |blocks| - i
      {
        out := OutputGap(prevp, p, pi, i, out);
        out := OutputNode(p, i, out);
        prevp, p, i, pi := Step(p, i);
      }
      out := OutputGap(prevp, hptr + totsize, pi, |blocks|, out);
      assert blocks[..|blocks|] == blocks;
    }
  }

  /** pk is the last free block before k, -1 if there is none. */
  ghost predicate LastFreeBefore(bs: seq<Block>, pk: int, k: int) {
    && -1 <= pk < k <= |bs|
    && (pk != -1 ==> !bs[pk].used)
    && (forall m :: pk < m < k ==> bs[m].used)
  }

  /** connect(prevp, newnode), or base = newnode. */
  ghost function Linked(mem: map<int, Cell>, bs: seq<Block>, pk: int, newnode: int): map<int, Cell>
    requires -1 <= pk < |bs|
  {
    if pk == -1 then mem else mem[bs[pk].start := Link(newnode)]
  }

  /** Memory after an allocation from block k. */
  ghost function CarvedMem(mem: map<int, Cell>, bs: seq<Block>, k: int, pk: int, need: int): map<int, Cell>
    requires 0 <= k < |bs| && -1 <= pk < k
  {
    var b := bs[k];
    var next := Addr(bs, NextFree(bs, k + 1));
    if b.len - need >= NODE then
      var n := b.start + need;
      Linked(mem[n + 8 := Size(b.len - need - NODE)][n := Link(next)], bs, pk,
        n)[b.start := Header(need - HEADER, MAGIC)]
    else
      Linked(mem, bs, pk, next)[b.start := Header(b.len - HEADER, MAGIC)]
  }

  /** Blocks other than k and pk keep their words. */
  lemma CarvedMemElsewhere(mem: map<int, Cell>, bs: seq<Block>, lo: int, hi: int, k: int, pk: int, need: int, j: int)
    requires Tiles(bs, lo, hi) && 0 <= k < |bs| && LastFreeBefore(bs, pk, k) && Fits(bs, k, need) && need >= NODE
    requires 0 <= j < |bs| && j != k
    ensures forall x :: bs[j].start <= x < End(bs[j]) && (j == pk ==> x != bs[j].start) && x in mem ==>
      x in CarvedMem(mem, bs, k, pk, need) && CarvedMem(mem, bs, k, pk, need)[x] == mem[x]
    ensures j == pk ==> bs[j].start in CarvedMem(mem, bs, k, pk, need)
    ensures j == pk ==>
      CarvedMem(mem, bs, k, pk, need)[bs[j].start] == Link(if bs[k].len - need >= NODE then bs[k].start + need
      else Addr(bs, NextFree(bs, k + 1)))
  {
    assert BlockOk(bs[j]) && BlockOk(bs[k]);
    if j < k { Ordered(bs, lo, hi, j, k); } else { Ordered(bs, lo, hi, k, j); }
    if pk != -1 && j != pk {
      assert BlockOk(bs[pk]);
      if j < pk { Ordered(bs, lo, hi, j, pk); } else { Ordered(bs, lo, hi, pk, j); }
    }
  }

  /** How far Carved shifts what lies behind block k. */
  ghost function Extra(bs: seq<Block>, k: int, need: int): int
    requires 0 <= k < |bs|
  {
    if bs[k].len - need >= NODE then 1 else 0
  }

  lemma CarvedNextLeft(bs: seq<Block>, k: int, pk: int, need: int, i: int)
    requires 0 <= k < |bs| && LastFreeBefore(bs, pk, k) && 0 <= i <= pk
    ensures NextFree(Carved(bs, k, need), i) == NextFree(bs, i) <= pk
  {
    NextFreeStays(bs, Carved(bs, k, need), i);
  }

  lemma CarvedNextAt(bs: seq<Block>, k: int, pk: int, need: int)
    requires 0 <= k < |bs| && LastFreeBefore(bs, pk, k) && !bs[k].used
    ensures NextFree(Carved(bs, k, need), pk + 1) == if Extra(bs, k, need) == 1 then k + 1 else NextFree(bs, k + 1)
  {
    NextFreeIs(Carved(bs, k, need), pk + 1, if Extra(bs, k, need) == 1 then k + 1 else NextFree(bs, k + 1));
  }

  lemma CarvedNextRight(bs: seq<Block>, k: int, need: int, i: int)
    requires 0 <= k < i <= |bs|
    ensures |Carved(bs, k, need)| == |bs| + Extra(bs, k, need)
    ensures NextFree(Carved(bs, k, need), i + Extra(bs, k, need)) == NextFree(bs, i) + Extra(bs, k, need)
    ensures Addr(Carved(bs, k, need), NextFree(bs, i) + Extra(bs, k, need)) == Addr(bs, NextFree(bs, i))
  {
    var cs := Carved(bs, k, need);
    assert cs[i + Extra(bs, k, need)..] == bs[i..];
    NextFreeShift(bs, cs, i, Extra(bs, k, need));
  }

  /** The allocation's situation: k is a fit and pk the free block before it. */
  ghost predicate CarveAt(mem: map<int, Cell>, bs: seq<Block>, lo: int, hi: int, k: int, pk: int, need: int) {
    Tiles(bs, lo, hi) && Words(mem, bs) && 0 <= k < |bs| && LastFreeBefore(bs, pk, k) && Fits(bs, k, need) &&
      need >= NODE
  }

  /** Where the list goes from a block (or the list head, i = -1) before k. */
  lemma CarvedLinkLeft(bs: seq<Block>, k: int, pk: int, need: int, i: int)
    requires 0 <= k < |bs| && LastFreeBefore(bs, pk, k) && !bs[k].used && -1 <= i <= pk
    ensures Addr(Carved(bs, k, need), NextFree(Carved(bs, k, need), i + 1)) ==
      if i == pk then NewNode(bs, k, need) else Addr(bs, NextFree(bs, i + 1))
  {
    if i == pk {
      CarvedNextAt(bs, k, pk, need);
      CarvedNextRight(bs, k, need, k + 1);
    } else {
      CarvedNextLeft(bs, k, pk, need, i + 1);
    }
  }

  /** The node that takes block k's place on the list: the remainder, or the next free block. */
  ghost function NewNode(bs: seq<Block>, k: int, need: int): int
    requires 0 <= k < |bs|
  {
    if bs[k].len - need >= NODE then bs[k].start + need else Addr(bs, NextFree(bs, k + 1))
  }

  lemma CarveFacts(mem: map<int, Cell>, bs: seq<Block>, lo: int, hi: int, k: int, pk: int, need: int, i: int)
    requires CarveAt(mem, bs, lo, hi, k, pk, need) && 0 <= i < |bs|
    ensures BlockOk(bs[i]) && WordsAt(mem, bs, i) && !bs[k].used && LastFreeBefore(bs, pk, k) &&
      bs[k].len >= need >= NODE
  {
    hide UsedWord, FreeWords, NextFree;
    assert WordsAt(mem, bs, i);
  }

  /** What CarvedMem holds in the words of a block other than k. */
  lemma CarvedMemWords(mem: map<int, Cell>, bs: seq<Block>, lo: int, hi: int, k: int, pk: int, need: int, i: int)
    requires CarveAt(mem, bs, lo, hi, k, pk, need) && 0 <= i < |bs| && i != k
    ensures var m, start := CarvedMem(mem, bs, k, pk, need), bs[i].start;
      && start in m && (start + 8 in mem ==> start + 8 in m && m[start + 8] == mem[start + 8])
      && start in mem && m[start] == if i == pk then Link(NewNode(bs, k, need)) else mem[start]
  {
    CarveFacts(mem, bs, lo, hi, k, pk, need, i);
    CarvedMemElsewhere(mem, bs, lo, hi, k, pk, need, i);
    hide CarvedMem, CarveAt, NextFree;
  }

  lemma CarvedWordsLeft(mem: map<int, Cell>, bs: seq<Block>, lo: int, hi: int, k: int, pk: int, need: int, i: int)
    requires 0 <= i < k < |bs| && CarveAt(mem, bs, lo, hi, k, pk, need)
    ensures i < |Carved(bs, k, need)| && -1 <= pk < k
    ensures WordsAt(CarvedMem(mem, bs, k, pk, need), Carved(bs, k, need), i)
  {
    hide CarveAt, CarvedMem;
    CarveFacts(mem, bs, lo, hi, k, pk, need, i);
    CarvedMemWords(mem, bs, lo, hi, k, pk, need, i);
    var cs := Carved(bs, k, need);
    assert i < |cs| && cs[i] == bs[i];
    hide Carved, NextFree;
    if !bs[i].used {
      CarvedLinkLeft(bs, k, pk, need, i);
    }
  }

  lemma CarvedWordsRight(mem: map<int, Cell>, bs: seq<Block>, lo: int, hi: int, k: int, pk: int, need: int, j: int)
    requires 0 <= k < j < |bs| && CarveAt(mem, bs, lo, hi, k, pk, need)
    ensures j + Extra(bs, k, need) < |Carved(bs, k, need)| && -1 <= pk < k
    ensures WordsAt(CarvedMem(mem, bs, k, pk, need), Carved(bs, k, need), j + Extra(bs, k, need))
  {
    hide CarveAt, CarvedMem;
    CarveFacts(mem, bs, lo, hi, k, pk, need, j);
    CarvedMemWords(mem, bs, lo, hi, k, pk, need, j);
    CarvedNextRight(bs, k, need, j + 1);
    var cs, i := Carved(bs, k, need), j + Extra(bs, k, need);
    assert i < |cs| && cs[i] == bs[j];
    hide Carved, NextFree, Extra;
  }

  lemma CarvedHeader(mem: map<int, Cell>, bs: seq<Block>, lo: int, hi: int, k: int, pk: int, need: int)
    requires 0 <= k < |bs| && CarveAt(mem, bs, lo, hi, k, pk, need)
    ensures k < |Carved(bs, k, need)| && -1 <= pk < k
    ensures WordsAt(CarvedMem(mem, bs, k, pk, need), Carved(bs, k, need), k)
  {
    CarveFacts(mem, bs, lo, hi, k, pk, need, k);
    hide CarveAt, NextFree;
  }

  lemma CarvedRemainder(mem: map<int, Cell>, bs: seq<Block>, lo: int, hi: int, k: int, pk: int, need: int)
    requires 0 <= k < |bs| && CarveAt(mem, bs, lo, hi, k, pk, need) && Extra(bs, k, need) == 1
    ensures k + 1 < |Carved(bs, k, need)| && -1 <= pk < k
    ensures WordsAt(CarvedMem(mem, bs, k, pk, need), Carved(bs, k, need), k + 1)
  {
    CarveFacts(mem, bs, lo, hi, k, pk, need, k);
    if pk != -1 {
      CarveFacts(mem, bs, lo, hi, k, pk, need, pk);
      Ordered(bs, lo, hi, pk, k);
    }
    hide CarveAt;
    CarvedNextRight(bs, k, need, k + 1);
    assert Carved(bs, k, need)[k + 1] == Block(bs[k].start + need, bs[k].len - need, false);
    hide NextFree, Carved;
  }

  lemma CarvedWords(mem: map<int, Cell>, bs: seq<Block>, lo: int, hi: int, k: int, pk: int, need: int)
    requires 0 <= k < |bs| && -1 <= pk < k && CarveAt(mem, bs, lo, hi, k, pk, need)
    ensures Words(CarvedMem(mem, bs, k, pk, need), Carved(bs, k, need))
  {
    hide CarveAt;
    var cs, m, d := Carved(bs, k, need), CarvedMem(mem, bs, k, pk, need), Extra(bs, k, need);
    assert |cs| == |bs| + d && 0 <= d <= 1 && d == Extra(bs, k, need);
    hide Carved, CarvedMem, Extra, UsedWord, FreeWords;
    forall i | 0 <= i < |cs|
      ensures WordsAt(m, cs, i)
    {
      if i < k {
        CarvedWordsLeft(mem, bs, lo, hi, k, pk, need, i);
      } else if i > k + d {
        CarvedWordsRight(mem, bs, lo, hi, k, pk, need, i - d);
      } else if i == k {
        CarvedHeader(mem, bs, lo, hi, k, pk, need);
      } else {
        CarvedRemainder(mem, bs, lo, hi, k, pk, need);
      }
    }
  }

  /** Everything an allocation owes the next one: tiling, words, list head, and memory of allocated blocks untouched. */
  lemma CarvedSummary(mem: map<int, Cell>, bs: seq<Block>, lo: int, hi: int, k: int, pk: int, need: int)
    requires 0 <= k < |bs| && -1 <= pk < k && CarveAt(mem, bs, lo, hi, k, pk, need) && need % 8 == 0
    ensures var cs, m := Carved(bs, k, need), CarvedMem(mem, bs, k, pk, need);
      && Tiles(cs, lo, hi) && Words(m, cs) && OnlyFreeWritten(mem, m, bs)
      && Addr(cs, NextFree(cs, 0)) == (if pk == -1 then NewNode(bs, k, need) else Addr(bs, NextFree(bs, 0)))
      && mem.Keys <= m.Keys
      && k < |cs| && cs[k].used && cs[k].start == bs[k].start
  {
    CarvedTiles(bs, lo, hi, k, need);
    CarvedWords(mem, bs, lo, hi, k, pk, need);
    CarvedLinkLeft(bs, k, pk, need, -1);
    var m := CarvedMem(mem, bs, k, pk, need);
    forall j, x | 0 <= j < |bs| && bs[j].used && bs[j].start <= x < End(bs[j]) && x in mem
      ensures x in m && m[x] == mem[x]
    {
      CarvedMemElsewhere(mem, bs, lo, hi, k, pk, need, j);
    }
  }

  // ----- Release

  ghost predicate ReleaseAt(mem: map<int, Cell>, bs: seq<Block>, lo: int, hi: int, k: int, pk: int) {
    Tiles(bs, lo, hi) && Words(mem, bs) && 0 <= k < |bs| && bs[k].used && LastFreeBefore(bs, pk, k)
  }

  ghost predicate MergesLeft(bs: seq<Block>, k: int, pk: int) {
    pk != -1 && pk == k - 1
  }

  ghost predicate MergesRight(bs: seq<Block>, k: int)
    requires 0 <= k < |bs|
  {
    NextFree(bs, k + 1) == k + 1 < |bs|
  }

  /** Memory once block k is a node, merged to the left or linked in. */
  ghost function LeftMem(mem: map<int, Cell>, bs: seq<Block>, k: int, pk: int): map<int, Cell>
    requires 0 <= k < |bs| && -1 <= pk < k
  {
    var t := bs[k].start;
    var m := mem[t + 8 := Size(bs[k].len - NODE)];
    if MergesLeft(bs, k, pk) then m[bs[pk].start + 8 := Size(End(bs[k]) - bs[pk].start - NODE)]
    else Linked(m[t := Link(Addr(bs, NextFree(bs, k + 1)))], bs, pk, t)
  }

  /** Memory once that node has absorbed the block behind k, if it is free. */
  ghost function RightMem(mem: map<int, Cell>, bs: seq<Block>, k: int, node: int): map<int, Cell>
    requires 0 <= k < |bs|
  {
    var q := NextFree(bs, k + 1);
    if MergesRight(bs, k)
      then mem[node + 8 := Size(End(bs[q]) - node - NODE)][node := Link(Addr(bs, NextFree(bs, q + 1)))]
    else mem
  }

  /** Memory after the release of block k, whose nearest free blocks are pk and NextFree(bs, k + 1). */
  ghost function ReleasedMem(mem: map<int, Cell>, bs: seq<Block>, k: int, pk: int): map<int, Cell>
    requires 0 <= k < |bs| && -1 <= pk < k
  {
    RightMem(LeftMem(mem, bs, k, pk), bs, k, if MergesLeft(bs, k, pk) then bs[pk].start else bs[k].start)
  }

  lemma ReleaseWords(mem: map<int, Cell>, bs: seq<Block>, lo: int, hi: int, k: int, pk: int, i: int)
    requires ReleaseAt(mem, bs, lo, hi, k, pk) && 0 <= i < |bs|
    ensures BlockOk(bs[i]) && WordsAt(mem, bs, i) && -1 <= pk < k && 0 <= k < |bs| && bs[k].used &&
      LastFreeBefore(bs, pk, k)
  {
    hide NextFree, UsedWord, FreeWords;
  }

  /** The two neighbours on the list, and when they touch block k. */
  lemma ReleaseFacts(mem: map<int, Cell>, bs: seq<Block>, lo: int, hi: int, k: int, pk: int)
    requires ReleaseAt(mem, bs, lo, hi, k, pk)
    ensures -1 <= pk < k < |bs| && BlockOk(bs[k]) && UsedWord(mem, bs, k)
    ensures pk != -1 ==>
      BlockOk(bs[pk]) && FreeWords(mem, bs, pk) && End(bs[pk]) <= bs[k].start &&
      (End(bs[pk]) == bs[k].start <==> MergesLeft(bs, k, pk))
    ensures var q := NextFree(bs, k + 1);
      && q <= |bs|
      && (q < |bs| ==>
        BlockOk(bs[q]) && FreeWords(mem, bs, q) && End(bs[k]) <= bs[q].start &&
        (End(bs[k]) == bs[q].start <==> MergesRight(bs, k)))
      && (pk == -1 ==> NextFree(bs, 0) == q)
  {
    ReleaseWords(mem, bs, lo, hi, k, pk, k);
    var q := NextFree(bs, k + 1);
    if pk == -1 {
      NextFreeIs(bs, 0, q);
    } else {
      ReleaseWords(mem, bs, lo, hi, k, pk, pk);
      Ordered(bs, lo, hi, pk, k);
      if pk < k - 1 {
        assert BlockOk(bs[k - 1]);
        Ordered(bs, lo, hi, pk, k - 1);
        assert Follows(bs, k - 1);
      } else {
        assert Follows(bs, pk);
      }
    }
    if q < |bs| {
      ReleaseWords(mem, bs, lo, hi, k, pk, q);
      Ordered(bs, lo, hi, k, q);
      assert Follows(bs, k);
      if k + 1 < q {
        assert BlockOk(bs[k + 1]);
        Ordered(bs, lo, hi, k + 1, q);
      }
    }
  }

  lemma ReleasedMemElsewhere(mem: map<int, Cell>, bs: seq<Block>, lo: int, hi: int, k: int, pk: int, j: int, x: int)
    requires ReleaseAt(mem, bs, lo, hi, k, pk) && 0 <= j < |bs| && j != k && bs[j].start <= x < End(bs[j])
    requires j == pk ==> !MergesLeft(bs, k, pk)
    ensures -1 <= pk < k < |bs|
    ensures j == pk && x == bs[j].start ==>
      x in ReleasedMem(mem, bs, k, pk) && ReleasedMem(mem, bs, k, pk)[x] == Link(bs[k].start)
    ensures !(j == pk && x == bs[j].start) && x in mem ==>
      x in ReleasedMem(mem, bs, k, pk) && ReleasedMem(mem, bs, k, pk)[x] == mem[x]
  {
    ReleaseFacts(mem, bs, lo, hi, k, pk);
    ReleaseWords(mem, bs, lo, hi, k, pk, j);
    if j < k { Ordered(bs, lo, hi, j, k); } else { Ordered(bs, lo, hi, k, j); }
    if pk != -1 && j < pk { Ordered(bs, lo, hi, j, pk); }
    if pk != -1 && pk < j { Ordered(bs, lo, hi, pk, j); }
    hide ReleaseAt, NextFree, FreeWords, UsedWord, LastFreeBefore;
  }

  /** The blocks that become one. */
  ghost function Lo(bs: seq<Block>, k: int, pk: int): int {
    if MergesLeft(bs, k, pk) then k - 1 else k
  }

  ghost function Hi(bs: seq<Block>, k: int): int
    requires 0 <= k < |bs|
  {
    if MergesRight(bs, k) then k + 1 else k
  }

  /** The merge tests of the code are the tiling's, and what Released looks like around the merge. */
  lemma ReleasedShape(bs: seq<Block>, k: int, pk: int)
    requires 0 <= k < |bs| && bs[k].used && LastFreeBefore(bs, pk, k)
    ensures MergesLeft(bs, k, pk) == FreeBefore(bs, k) && MergesRight(bs, k) == FreeAfter(bs, k)
    ensures var cs, l, r := Released(bs, k), Lo(bs, k, pk), Hi(bs, k);
      && 0 <= l <= k <= r < |bs| && |cs| == |bs| - (r - l)
      && cs == bs[..l] + [Block(bs[l].start, End(bs[r]) - bs[l].start, false)] + bs[r + 1..]
      && (l == k ==> pk < l) && (pk > l ==> false) && (pk == l ==> l == k - 1)
  {
    if k + 1 < |bs| && !bs[k + 1].used {
      NextFreeIs(bs, k + 1, k + 1);
    }
  }

  lemma ReleasedNextLeft(bs: seq<Block>, k: int, pk: int, i: int)
    requires 0 <= k < |bs| && bs[k].used && LastFreeBefore(bs, pk, k) && 0 <= i <= Lo(bs, k, pk)
    ensures NextFree(Released(bs, k), i) == if i <= pk then NextFree(bs, i) else Lo(bs, k, pk)
    ensures i <= pk ==> NextFree(bs, i) <= pk
    ensures Addr(Released(bs, k), NextFree(Released(bs, k), i)) == if i <= pk then Addr(bs, NextFree(bs, i))
      else bs[Lo(bs, k, pk)].start
  {
    ReleasedShape(bs, k, pk);
    var cs, l, r := Released(bs, k), Lo(bs, k, pk), Hi(bs, k);
    hide Released;
    assert forall m :: 0 <= m < l ==> cs[m] == bs[m];
    NextFreeIs(cs, i, if i <= pk then NextFree(bs, i) else l);
  }

  lemma ReleasedNextRight(bs: seq<Block>, k: int, pk: int, i: int)
    requires 0 <= k < |bs| && bs[k].used && LastFreeBefore(bs, pk, k) && Hi(bs, k) < i <= |bs|
    ensures var cs, d := Released(bs, k), Hi(bs, k) - Lo(bs, k, pk);
      |cs| == |bs| - d && 0 <= d <= 2 && NextFree(cs, i - d) == NextFree(bs, i) - d &&
        Addr(cs, NextFree(bs, i) - d) == Addr(bs, NextFree(bs, i))
  {
    hide Released, NextFree, LastFreeBefore;
    ReleasedShape(bs, k, pk);
    var cs, d := Released(bs, k), Hi(bs, k) - Lo(bs, k, pk);
    assert cs[i - d..] == bs[i..];
    NextFreeShift(bs, cs, i, -d);
  }

  lemma ReleasedWordsLeft(mem: map<int, Cell>, bs: seq<Block>, lo: int, hi: int, k: int, pk: int, i: int)
    requires 0 <= k < |bs| && -1 <= pk < k && 0 <= i < Lo(bs, k, pk) && ReleaseAt(mem, bs, lo, hi, k, pk)
    ensures i < |Released(bs, k)| && WordsAt(ReleasedMem(mem, bs, k, pk), Released(bs, k), i)
  {
    hide ReleaseAt, ReleasedMem;
    ReleaseWords(mem, bs, lo, hi, k, pk, i);
    ReleasedMemElsewhere(mem, bs, lo, hi, k, pk, i, bs[i].start);
    ReleasedMemElsewhere(mem, bs, lo, hi, k, pk, i, bs[i].start + 8);
    ReleasedShape(bs, k, pk);
    var cs := Released(bs, k);
    hide Released;
    assert cs[i] == bs[i];
    ReleasedNextLeft(bs, k, pk, i + 1);
    if i == pk { NextFreeIsNot(bs, k, pk); }
    hide NextFree;
  }

  lemma NextFreeIsNot(bs: seq<Block>, k: int, pk: int)
    requires 0 <= pk < k < |bs| && pk < Lo(bs, k, pk)
    ensures Lo(bs, k, pk) == k
  {
  }

  lemma ReleasedWordsRight(mem: map<int, Cell>, bs: seq<Block>, lo: int, hi: int, k: int, pk: int, j: int)
    requires 0 <= k < |bs| && -1 <= pk < k && Hi(bs, k) < j < |bs| && ReleaseAt(mem, bs, lo, hi, k, pk)
    ensures var i := j - (Hi(bs, k) - Lo(bs, k, pk));
      0 <= i < |Released(bs, k)| && WordsAt(ReleasedMem(mem, bs, k, pk), Released(bs, k), i)
  {
    hide ReleaseAt, ReleasedMem;
    ReleaseWords(mem, bs, lo, hi, k, pk, j);
    ReleasedMemElsewhere(mem, bs, lo, hi, k, pk, j, bs[j].start);
    ReleasedMemElsewhere(mem, bs, lo, hi, k, pk, j, bs[j].start + 8);
    ReleasedShape(bs, k, pk);
    var cs, i := Released(bs, k), j - (Hi(bs, k) - Lo(bs, k, pk));
    hide Released;
    assert cs[i] == bs[j];
    ReleasedNextRight(bs, k, pk, j + 1);
    hide NextFree;
  }

  /** The words of the merged block. */
  lemma ReleasedNode(mem: map<int, Cell>, bs: seq<Block>, lo: int, hi: int, k: int, pk: int)
    requires 0 <= k < |bs| && -1 <= pk < k && ReleaseAt(mem, bs, lo, hi, k, pk)
    ensures var m, l, r := ReleasedMem(mem, bs, k, pk), Lo(bs, k, pk), Hi(bs, k);
      && 0 <= l <= k <= r < |bs|
      && bs[l].start in m && m[bs[l].start] == Link(Addr(bs, NextFree(bs, r + 1)))
      && bs[l].start + 8 in m && m[bs[l].start + 8] == Size(End(bs[r]) - bs[l].start - NODE)
  {
    hide ReleaseAt, NextFree, LastFreeBefore;
    ReleaseFacts(mem, bs, lo, hi, k, pk);
    ReleaseWords(mem, bs, lo, hi, k, pk, k);
    NextAfterLast(bs, k, pk);
  }

  /** The list skips the used block k. */
  lemma NextAfterLast(bs: seq<Block>, k: int, pk: int)
    requires 0 <= k < |bs| && bs[k].used && -1 <= pk < k && LastFreeBefore(bs, pk, k)
    ensures NextFree(bs, pk + 1) == NextFree(bs, k + 1)
  {
    var q := NextFree(bs, k + 1);
    assert forall m :: pk + 1 <= m < q ==> bs[m].used;
    NextFreeIs(bs, pk + 1, q);
  }

  lemma ReleasedWordsAt(mem: map<int, Cell>, bs: seq<Block>, lo: int, hi: int, k: int, pk: int)
    requires 0 <= k < |bs| && -1 <= pk < k && ReleaseAt(mem, bs, lo, hi, k, pk)
    ensures 0 <= Lo(bs, k, pk) < |Released(bs, k)| &&
      WordsAt(ReleasedMem(mem, bs, k, pk), Released(bs, k), Lo(bs, k, pk))
  {
    hide ReleasedMem;
    ReleasedNode(mem, bs, lo, hi, k, pk);
    ReleaseWords(mem, bs, lo, hi, k, pk, k);
    hide ReleaseAt;
    ReleasedNextRight(bs, k, pk, Hi(bs, k) + 1);
    ReleasedShape(bs, k, pk);
    hide NextFree, Released;
  }

  /** Everything a release owes the next operation. */
  lemma ReleasedSummary(mem: map<int, Cell>, bs: seq<Block>, lo: int, hi: int, k: int, pk: int)
    requires 0 <= k < |bs| && -1 <= pk < k && ReleaseAt(mem, bs, lo, hi, k, pk)
    ensures var cs, m := Released(bs, k), ReleasedMem(mem, bs, k, pk);
      && Tiles(cs, lo, hi) && Words(m, cs)
      && Addr(cs, NextFree(cs, 0)) == (if pk == -1 then bs[k].start else Addr(bs, NextFree(bs, 0)))
      && mem.Keys <= m.Keys
  {
    ReleasedTiles(bs, lo, hi, k);
    ReleaseWords(mem, bs, lo, hi, k, pk, k);
    ReleasedShape(bs, k, pk);
    ReleasedNextLeft(bs, k, pk, 0);
    var cs, m, l, r := Released(bs, k), ReleasedMem(mem, bs, k, pk), Lo(bs, k, pk), Hi(bs, k);
    assert mem.Keys <= m.Keys;
    hide WordsAt, ReleasedMem, Released, ReleaseAt, NextFree, Tiles;
    forall i | 0 <= i < |cs|
      ensures WordsAt(m, cs, i)
    {
      if i < l {
        ReleasedWordsLeft(mem, bs, lo, hi, k, pk, i);
      } else if i > l {
        ReleasedWordsRight(mem, bs, lo, hi, k, pk, i + (r - l));
      } else {
        ReleasedWordsAt(mem, bs, lo, hi, k, pk);
      }
    }
  }

  /** Allocated blocks other than k are not written. */
  ghost predicate OthersUntouched(before: map<int, Cell>, after: map<int, Cell>, bs: seq<Block>, k: int) {
    forall j, x :: 0 <= j < |bs| && j != k && bs[j].used && bs[j].start <= x < End(bs[j]) && x in before ==>
      x in after && after[x] == before[x]
  }

  lemma ReleasedTouchesFreeOnly(mem: map<int, Cell>, bs: seq<Block>, lo: int, hi: int, k: int, pk: int)
    requires 0 <= k < |bs| && -1 <= pk < k && ReleaseAt(mem, bs, lo, hi, k, pk)
    ensures OthersUntouched(mem, ReleasedMem(mem, bs, k, pk), bs, k)
  {
    forall j, x | 0 <= j < |bs| && j != k && bs[j].used && bs[j].start <= x < End(bs[j]) && x in mem
      ensures x in ReleasedMem(mem, bs, k, pk) && ReleasedMem(mem, bs, k, pk)[x] == mem[x]
    {
      ReleasedMemElsewhere(mem, bs, lo, hi, k, pk, j, x);
      hide ReleasedMem;
    }
  }

  /** No block before i can hold need bytes. */
  ghost predicate NoneFits(bs: seq<Block>, need: int, i: int) {
    0 <= i <= |bs| && forall j :: 0 <= j < i ==> !Fits(bs, j, need)
  }

  lemma NoneFitsStep(bs: seq<Block>, need: int, i: int)
    requires 0 <= i < |bs| && NoneFits(bs, need, i) && bs[i].len < need
    ensures NoneFits(bs, need, NextFree(bs, i + 1))
  {
  }

  /** k is the best (worst) fit among the blocks before i, -1 if none fits. */
  ghost predicate BestUpTo(bs: seq<Block>, need: int, i: int, k: int) {
    && -1 <= k < i <= |bs|
    && (k == -1 ==> forall j :: 0 <= j < i ==> !Fits(bs, j, need))
    && (k != -1 ==> Fits(bs, k, need) && forall j :: 0 <= j < i && Fits(bs, j, need) ==>
      bs[k].len <= bs[j].len && (bs[k].len == bs[j].len ==> k <= j))
  }

  ghost predicate WorstUpTo(bs: seq<Block>, need: int, i: int, k: int) {
    && -1 <= k < i <= |bs|
    && (k == -1 ==> forall j :: 0 <= j < i ==> !Fits(bs, j, need))
    && (k != -1 ==> Fits(bs, k, need) && forall j :: 0 <= j < i && Fits(bs, j, need) ==>
      bs[k].len >= bs[j].len && (bs[k].len == bs[j].len ==> k >= j))
  }

  lemma BestUpToStep(bs: seq<Block>, need: int, i: int, k: int)
    requires 0 <= i < |bs| && BestUpTo(bs, need, i, k) && !bs[i].used
    ensures BestUpTo(bs, need, NextFree(bs, i + 1), if bs[i].len >= need && (k == -1 || bs[i].len < bs[k].len) then i
      else k)
  {
  }

  lemma WorstUpToStep(bs: seq<Block>, need: int, i: int, k: int)
    requires 0 <= i < |bs| && WorstUpTo(bs, need, i, k) && !bs[i].used
    ensures WorstUpTo(bs, need, NextFree(bs, i + 1), if bs[i].len >= need && (k == -1 || bs[i].len >= bs[k].len) then i
      else k)
  {
  }

  /** A whole number of pages is a multiple of eight and holds a node. */
  lemma Whole(pages: int, pageSize: int)
    requires pageSize >= NODE && pageSize % 8 == 0 && pages >= 1
    ensures pages * pageSize >= NODE && pages * pageSize % 8 == 0
  {
    assert pages * pageSize == pages * (pageSize / 8) * 8;
    ModShift(0, pages * (pageSize / 8), 8);
    assert pages * pageSize >= pageSize;
  }
}
