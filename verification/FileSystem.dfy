/** fs.c's block and file layers: balloc, bfree, bmap, itrunc, iupdate, readi, writei.
    The buffer cache is a plain array of blocks here, and an operation runs alone.
    Every operation keeps the invariant of FsState: the blocks that inodes name are
    distinct and marked, and unmarked blocks are zero. On top of it, a file without
    holes is a sequence of bytes; readi is a slice of it, and writei a splice. */
module FileSystem {
  import opened Bytes
  import opened FsLayout
  import opened FsState

  ghost predicate NoFree(g: Geo, disk: Disk)
    requires GeoOk(g) && |disk| == g.size && forall b :: 0 <= b < |disk| ==> |disk[b]| == BSIZE
  {
    forall c :: InData(g, c) ==> Marked(g, disk, c)
  }

  /** Data blocks named in the earlier state hold the same bytes. */
  ghost predicate DataKept(g: Geo, d0: Disk, i0: seq<Inode>, d1: Disk, t: Slot)
    requires Shape(g, d0, i0) && |d1| == |d0| && ValidSlot(g, t)
  {
    var b := AddrOf(g, d0, i0, t);
    0 < b < g.size ==> d1[b] == d0[b]
  }

  /** readsb: what the superblock in block 1 says of the disk. */
  function Readsb(disk: Disk): Geo
    requires 1 < |disk| && |disk[1]| == BSIZE
  {
    Geo(Word(disk[1], 0), Word(disk[1], 2))
  }

  class Fs {
    const g: Geo
    var disk: Disk
    // in-core inodes, and their copies in the inode blocks
    var inodes: seq<Inode>
    var dinodes: seq<Inode>
    ghost var owner: map<int, Slot>

    ghost predicate Valid()
      reads this
    {
      Inv(g, disk, inodes, owner, {}, {}) && |dinodes| == |inodes|
    }

    constructor (g: Geo, disk: Disk, inodes: seq<Inode>, ghost owner: map<int, Slot>)
      requires Inv(g, disk, inodes, owner, {}, {})
      ensures Valid() && this.g == g && this.disk == disk && this.inodes == inodes && this.dinodes == inodes &&
        this.owner == owner
    {
      this.g, this.disk, this.inodes, this.dinodes, this.owner := g, disk, inodes, inodes, owner;
    }

    /** balloc: the first unmarked block, in bitmap order. It fails exactly when no data block is free. */
    method Balloc(ghost skip: set<Slot>, ghost pending: set<int>) returns (ok: bool, b: int)
      requires Inv(g, disk, inodes, owner, skip, pending)
      modifies this`disk
      ensures Shape(g, disk, inodes)
      ensures ok <==> !NoFree(g, old(disk))
      ensures ok ==> InData(g, b) && !Marked(g, old(disk), b) && (forall c :: 0 <= c < b ==> Marked(g, old(disk), c))
      ensures ok ==> disk == Allocated(g, old(disk), b)
      ensures ok ==> forall c :: 0 <= c < g.size ==> (Marked(g, disk, c) <==> c == b || Marked(g, old(disk), c))
      ensures ok ==> forall c :: 0 <= c < g.size && c != BitBlock(g, b) ==> disk[c] == old(disk)[c]
      ensures ok ==> MetaKept(g, old(disk), disk)
      ensures !ok ==> disk == old(disk)
    {
      hide Inv, BitAt, SetBit;
      InvShape(g, disk, inodes, owner, skip, pending);
      var base := 0;
      while base < g.size
        invariant base % BPB == 0 && 0 <= base && disk == old(disk)
        invariant MarkedBelow(base)
        decreases g.size - base
      {
        BitBlocksAreMeta(g, base);
        var bp := disk[BitBlock(g, base)];
        var bi := 0;
        while bi < BPB
          invariant 0 <= bi <= BPB && disk == old(disk)
          invariant MarkedBelow(base + bi)
        {
          if base + bi < g.size {
            SameBitBlock(base, bi);
          }
          if !BitAt(bp, bi) {
            b := base + bi;
            if b >= g.size {
              // every block is marked: the code would panic, or hand out a block past the end
              return false, 0;
            }
            disk := disk[BitBlock(g, base) := SetBit(bp, bi)];
            AllocatedMarks(g, old(disk), inodes, b, b);
            AllocatedOnly(g, old(disk), inodes, b);
            assert InData(g, b);
            return true, b;
          }
          bi := bi + 1;
        }
        base := base + BPB;
      }
      ok, b := false, 0;
    }

    ghost predicate MarkedBelow(n: int)
      reads this
      requires Shape(g, disk, inodes)
    {
      forall c :: 0 <= c < n && c < g.size ==> Marked(g, disk, c)
    }

    lemma SameBitBlock(base: int, bi: int)
      requires base % BPB == 0 && 0 <= base && 0 <= bi < BPB
      ensures BitBlock(g, base + bi) == BitBlock(g, base) && (base + bi) % BPB == bi
    {
      var q := base / BPB;
      assert base == q * BPB;
      assert base + bi == q * BPB + bi;
      assert (base + bi) / BPB == q;
    }

    /** bfree: zero the block, then clear its mark. ok is false where the code panics, on a block that is not marked. */
    method Bfree(b: int) returns (ok: bool)
      requires Shape(g, disk, inodes) && InData(g, b)
      modifies this`disk
      ensures ok <==> Marked(g, old(disk), b)
      ensures ok ==> disk == Freed(g, old(disk), b) && disk[b] == ZeroBlock()
      ensures ok ==> forall c :: 0 <= c < g.size ==> (Marked(g, disk, c) <==> c != b && Marked(g, old(disk), c))
      ensures ok ==> forall c :: 0 <= c < g.size && c != b && c != BitBlock(g, b) ==> disk[c] == old(disk)[c]
      ensures ok ==> MetaKept(g, old(disk), disk)
    {
      BitBlocksAreMeta(g, b);
      disk := disk[b := ZeroBlock()];
      var bp := disk[BitBlock(g, b)];
      var bi := b % BPB;
      if !BitAt(bp, bi) {
        return false;
      }
      disk := disk[BitBlock(g, b) := ClearBit(bp, bi)];
      FreedOnly(g, old(disk), inodes, b);
      ok := true;
    }

    /** Slots named before still name the same blocks, with the same data; inode i's size is the same, other inodes
        altogether. */
    twostate predicate OnlyGrows(i: int)
      reads this
      requires old(Valid()) && Valid()
    {
      && (forall t :: ValidSlot(g, t) && AddrOf(g, old(disk), old(inodes), t) != 0 ==>
        AddrOf(g, disk, inodes, t) == AddrOf(g, old(disk), old(inodes), t))
      && (forall t :: ValidSlot(g, t) && t.inum != i ==>
        AddrOf(g, disk, inodes, t) == AddrOf(g, old(disk), old(inodes), t))
      && (forall t :: ValidSlot(g, t) && t.k < MAXFILE ==> DataKept(g, old(disk), old(inodes), disk, t))
      && (forall j :: 0 <= j < |inodes| ==>
        inodes[j].size == old(inodes)[j].size && inodes[j].meta == old(inodes)[j].meta)
      && (forall j :: 0 <= j < |inodes| && j != i ==> inodes[j] == old(inodes)[j])
      && dinodes == old(dinodes) && MetaKept(g, old(disk), disk)
    }

    /** ip->addrs[bn], allocated if it is zero. */
    method AddrOrAlloc(i: int, s: Slot) returns (ok: bool, addr: int)
      requires Valid() && ValidSlot(g, s) && s.inum == i && (s.k < NDIRECT || s.k == MAXFILE)
      modifies this`disk, this`inodes, this`owner
      ensures ok ==> Valid() && addr != 0 && addr == AddrOf(g, disk, inodes, s) && OnlyGrows(i)
      ensures ok ==> forall t :: ValidSlot(g, t) && t != s ==>
        AddrOf(g, disk, inodes, t) == AddrOf(g, old(disk), old(inodes), t)
      ensures AddrOf(g, old(disk), old(inodes), s) != 0 ==>
        ok && disk == old(disk) && inodes == old(inodes) && owner == old(owner)
      ensures ok && AddrOf(g, old(disk), old(inodes), s) == 0 ==> InData(g, addr) && IsZero(disk[addr])
      ensures !ok ==> Shape(g, disk, inodes) && NoFree(g, disk)
    {
      var j := AddrIndex(s.k);
      addr := inodes[i].addrs[j];
      if addr == 0 {
        ok, addr := Balloc({}, {});
        if !ok {
          return;
        }
        AllocateKeepsInv(g, old(disk), inodes, owner, {}, {}, addr);
        AllocatedKeepsAddrs(g, old(disk), inodes, owner, {}, {}, addr);
        LinkInInode(g, disk, inodes, owner, {}, {} + {addr}, s, addr);
        inodes := WithAddr(inodes, i, j, addr);
        owner := owner[addr := s];
        assert {} + {addr} - {addr} == {};
      } else {
        ok := true;
      }
    }

    /** bmap: the block of file block bn, allocating it and the indirect block as needed. */
    method Bmap(i: int, bn: int) returns (ok: bool, addr: int)
      requires Valid() && 0 <= i < g.ninodes && 0 <= bn
      modifies this`disk, this`inodes, this`owner
      ensures bn >= MAXFILE ==> !ok
      ensures ok ==> Valid() && addr != 0 && addr == AddrOf(g, disk, inodes, Slot(i, bn)) && OnlyGrows(i)
      ensures ok ==> forall t :: ValidSlot(g, t) && t != Slot(i, bn) && t != Slot(i, MAXFILE) ==>
        AddrOf(g, disk, inodes, t) == AddrOf(g, old(disk), old(inodes), t)
      ensures bn < MAXFILE && AddrOf(g, old(disk), old(inodes), Slot(i, bn)) != 0 ==>
        ok && disk == old(disk) && inodes == old(inodes) && owner == old(owner)
      ensures ok && AddrOf(g, old(disk), old(inodes), Slot(i, bn)) == 0 ==> InData(g, addr) && IsZero(disk[addr])
      ensures !ok && bn < MAXFILE ==> Shape(g, disk, inodes) && NoFree(g, disk)
    {
      hide Word, Marked, IsZero, BitOk;
      if bn < NDIRECT {
        ok, addr := AddrOrAlloc(i, Slot(i, bn));
        return;
      }
      if bn - NDIRECT >= NINDIRECT {
        return false, 0;
      }
      ghost var s, p := Slot(i, bn), Slot(i, MAXFILE);
      EntryNeedsPointer(s);
      var ind;
      ok, ind := AddrOrAlloc(i, Slot(i, MAXFILE));
      if !ok {
        return false, 0;
      }
      label Pointer:
      assert SlotOk(g, disk, inodes, owner, p);
      assert BlockHasOwner(g, disk, inodes, owner, {}, ind);
      addr := Word(disk[ind], bn - NDIRECT);
      assert addr == AddrOf(g, disk, inodes, s);
      if addr == 0 {
        ok, addr := AllocEntry(i, bn, ind);
        assert ok ==> OnlyGrows@Pointer(i);
      }
    }

    lemma EntryNeedsPointer(s: Slot)
      requires Valid() && ValidSlot(g, s) && NDIRECT <= s.k < MAXFILE
      ensures AddrOf(g, disk, inodes, s) != 0 ==> AddrOf(g, disk, inodes, Slot(s.inum, MAXFILE)) != 0
    {
    }

    /** a[bn] = balloc(dev), and the write of the indirect block. */
    method AllocEntry(i: int, bn: int, ind: int) returns (ok: bool, addr: int)
      requires Valid() && 0 <= i < g.ninodes && NDIRECT <= bn < MAXFILE
      requires AddrOf(g, disk, inodes, Slot(i, MAXFILE)) == ind != 0 && AddrOf(g, disk, inodes, Slot(i, bn)) == 0
      modifies this`disk, this`owner
      ensures ok ==> Valid() && addr == AddrOf(g, disk, inodes, Slot(i, bn)) && OnlyGrows(i)
      ensures ok ==> forall t :: ValidSlot(g, t) && t != Slot(i, bn) ==>
        AddrOf(g, disk, inodes, t) == AddrOf(g, old(disk), inodes, t)
      ensures ok ==> InData(g, addr) && IsZero(disk[addr])
      ensures !ok ==> Shape(g, disk, inodes) && NoFree(g, disk)
    {
      hide Inv, AddrOf, DataKept, Marked, IsZero, PutWord;
      ghost var d0 := disk;
      InvShape(g, disk, inodes, owner, {}, {});
      ok, addr := Balloc({}, {});
      if !ok {
        return;
      }
      EntryAllocated(g, d0, inodes, owner, Slot(i, bn), addr);
      disk := disk[ind := PutWord(disk[ind], bn - NDIRECT, addr)];
      owner := owner[addr := Slot(i, bn)];
    }

    /** iupdate: the in-core inode goes to disk. */
    method Iupdate(i: int)
      requires 0 <= i < |inodes| == |dinodes|
      modifies this`dinodes
      ensures dinodes == old(dinodes)[i := inodes[i]]
    {
      dinodes := dinodes[i := inodes[i]];
    }

    /** What freeing inode i's slots P has done so far, to i and to the others. */
    ghost predicate Truncating(o0: map<int, Slot>, d0: Disk, i0: seq<Inode>, i: int, P: set<Slot>, skip: set<Slot>)
      reads this
      requires Shape(g, d0, i0)
    {
      && Inv(g, disk, inodes, owner, skip, {})
      && Remaining(o0, owner, P)
      && (forall t :: ValidSlot(g, t) && t.inum != i ==>
        AddrOf(g, disk, inodes, t) == AddrOf(g, d0, i0, t) && DataKept(g, d0, i0, disk, t))
      && (forall j :: 0 <= j < |inodes| && j != i ==> inodes[j] == i0[j])
      && |inodes| == |i0| && MetaKept(g, d0, disk)
    }

    /** One direct block, or none. */
    method FreeDirect(i: int, k: int, ghost o0: map<int, Slot>, ghost d0: Disk, ghost i0: seq<Inode>,
        ghost P: set<Slot>)
      requires Shape(g, d0, i0) && 0 <= i < g.ninodes && 0 <= k < NDIRECT && Truncating(o0, d0, i0, i, P, {})
      modifies this`disk, this`inodes, this`owner
      ensures Truncating(o0, d0, i0, i, P + {Slot(i, k)}, {})
      ensures inodes[i] == old(inodes)[i].(addrs := old(inodes)[i].addrs[k := 0])
    {
      ghost var s := Slot(i, k);
      RemainingStep(g, disk, inodes, o0, owner, {}, P, s);
      var b := inodes[i].addrs[k];
      if b != 0 {
        FreeKeepsInv(g, disk, inodes, owner, {}, s);
        FreedKeepsData(g, disk, inodes, owner, {}, s, d0, i0, i);
        var ok := Bfree(b);
        assert ok;
        assert {} + {s} == {s} && {s} - {s} == {};
        UnskipKeepsInv(g, disk, inodes, WithAddr(inodes, i, k, 0), owner - {b}, {s}, {s});
        inodes := WithAddr(inodes, i, k, 0);
        owner := owner - {b};
      } else {
        assert inodes[i].addrs[k := 0] == inodes[i].addrs;
      }
    }

    /** One entry of the indirect block, whose slot is skipped from now on. */
    method FreeEntry(i: int, j: int, a: Block, ghost o0: map<int, Slot>, ghost d0: Disk, ghost i0: seq<Inode>,
        ghost P: set<Slot>)
      requires Shape(g, d0, i0) && 0 <= i < g.ninodes && 0 <= j < NINDIRECT &&
        Truncating(o0, d0, i0, i, P, Entries(i, j))
      requires InData(g, inodes[i].addrs[NDIRECT]) && disk[inodes[i].addrs[NDIRECT]] == a
      modifies this`disk, this`owner
      ensures Truncating(o0, d0, i0, i, P + {Slot(i, NDIRECT + j)}, Entries(i, j + 1))
      ensures disk[inodes[i].addrs[NDIRECT]] == a
    {
      hide Marked, IsZero, BitOk, DataKept;
      ghost var s, p := Slot(i, NDIRECT + j), Slot(i, MAXFILE);
      ghost var ind := inodes[i].addrs[NDIRECT];
      RemainingStep(g, disk, inodes, o0, owner, Entries(i, j), P, s);
      assert Entries(i, j) + {s} == Entries(i, j + 1);
      var b := Word(a, j);
      assert b == AddrOf(g, disk, inodes, s);
      if b != 0 {
        NamedOnce(g, disk, inodes, owner, Entries(i, j), {}, s, p);
        FreeKeepsInv(g, disk, inodes, owner, Entries(i, j), s);
        FreedKeepsData(g, disk, inodes, owner, Entries(i, j), s, d0, i0, i);
        FreedMarks(g, disk, inodes, b, ind);
        BitBlocksAreMeta(g, b);
        var ok := Bfree(b);
        assert ok;
        owner := owner - {b};
      } else {
        SkipEmpty(g, disk, inodes, owner, Entries(i, j), s);
      }
    }

    /** The indirect block: its entries, then itself. */
    method FreeIndirect(i: int, ghost o0: map<int, Slot>, ghost d0: Disk, ghost i0: seq<Inode>)
      requires Shape(g, d0, i0) && 0 <= i < g.ninodes && Truncating(o0, d0, i0, i, Firsts(i, NDIRECT), {})
      modifies this`disk, this`inodes, this`owner
      ensures Truncating(o0, d0, i0, i, Firsts(i, MAXFILE + 1), {})
      ensures inodes[i] == old(inodes)[i].(addrs := old(inodes)[i].addrs[NDIRECT := 0])
    {
      hide Word, Marked, IsZero, BitOk, DataKept;
      var ind := inodes[i].addrs[NDIRECT];
      assert IndirectOk(g, inodes, i);
      if ind != 0 {
        var a := disk[ind];
        var j := 0;
        assert Firsts(i, NDIRECT) == Firsts(i, NDIRECT + 0) && Entries(i, 0) == {};
        while j < NINDIRECT
          invariant 0 <= j <= NINDIRECT && inodes == old(inodes)
          invariant Truncating(o0, d0, i0, i, Firsts(i, NDIRECT + j), Entries(i, j))
          invariant disk[ind] == a
        {
          FreeEntry(i, j, a, o0, d0, i0, Firsts(i, NDIRECT + j));
          assert Firsts(i, NDIRECT + j) + {Slot(i, NDIRECT + j)} == Firsts(i, NDIRECT + j + 1);
          j := j + 1;
        }
        FreePointer(i, ind, o0, d0, i0);
      } else {
        assert inodes[i].addrs[NDIRECT := 0] == inodes[i].addrs;
        forall b | b in owner
          ensures owner[b] !in Firsts(i, MAXFILE + 1)
        {
          assert BlockHasOwner(g, disk, inodes, owner, {}, b);
        }
      }
    }

    /** The indirect block itself, when its entries are gone. */
    method FreePointer(i: int, ind: int, ghost o0: map<int, Slot>, ghost d0: Disk, ghost i0: seq<Inode>)
      requires Shape(g, d0, i0) && 0 <= i < g.ninodes &&
        Truncating(o0, d0, i0, i, Firsts(i, MAXFILE), Entries(i, NINDIRECT))
      requires ind == inodes[i].addrs[NDIRECT] != 0
      modifies this`disk, this`inodes, this`owner
      ensures Truncating(o0, d0, i0, i, Firsts(i, MAXFILE + 1), {})
      ensures inodes[i] == old(inodes)[i].(addrs := old(inodes)[i].addrs[NDIRECT := 0])
    {
      hide Word, Marked, IsZero, BitOk, DataKept;
      ghost var p := Slot(i, MAXFILE);
      ghost var skip := Entries(i, NINDIRECT);
      RemainingStep(g, disk, inodes, o0, owner, skip, Firsts(i, MAXFILE), p);
      assert Firsts(i, MAXFILE) + {p} == Firsts(i, MAXFILE + 1);
      FreeKeepsInv(g, disk, inodes, owner, skip, p);
      FreedKeepsData(g, disk, inodes, owner, skip, p, d0, i0, i);
      var ok := Bfree(ind);
      assert ok;
      UnskipKeepsInv(g, disk, inodes, WithAddr(inodes, i, NDIRECT, 0), owner - {ind}, skip + {p}, skip + {p});
      assert skip + {p} - (skip + {p}) == {};
      inodes := WithAddr(inodes, i, NDIRECT, 0);
      owner := owner - {ind};
    }

    /** itrunc: every block of the inode is freed, none of them twice, and nothing else. */
    method Itrunc(i: int)
      requires Valid() && 0 <= i < g.ninodes
      modifies this`disk, this`inodes, this`dinodes, this`owner
      ensures Valid() && Remaining(old(owner), owner, Firsts(i, MAXFILE + 1))
      ensures forall k :: 0 <= k <= MAXFILE ==> AddrOf(g, disk, inodes, Slot(i, k)) == 0
      ensures inodes[i] == Inode(old(inodes)[i].meta, 0, NoAddrs()) && dinodes == old(dinodes)[i := inodes[i]]
      ensures forall j :: 0 <= j < |inodes| && j != i ==> inodes[j] == old(inodes)[j]
      ensures forall t :: ValidSlot(g, t) && t.inum != i ==>
        AddrOf(g, disk, inodes, t) == AddrOf(g, old(disk), old(inodes), t) &&
        DataKept(g, old(disk), old(inodes), disk, t)
      ensures forall b :: b in old(owner) && old(owner)[b].inum == i ==>
        InData(g, b) && !Marked(g, disk, b) && IsZero(disk[b])
      ensures MetaKept(g, old(disk), disk)
    {
      ghost var o0, d0, i0 := owner, disk, inodes;
      var k := 0;
      while k < NDIRECT
        invariant 0 <= k <= NDIRECT && dinodes == old(dinodes)
        invariant Truncating(o0, d0, i0, i, Firsts(i, k), {})
        invariant forall c :: 0 <= c < k ==> inodes[i].addrs[c] == 0
        invariant inodes[i].meta == i0[i].meta
      {
        FreeDirect(i, k, o0, d0, i0, Firsts(i, k));
        assert Firsts(i, k) + {Slot(i, k)} == Firsts(i, k + 1);
        k := k + 1;
      }
      FreeIndirect(i, o0, d0, i0);
      SizeKeepsInv(g, disk, inodes, owner, i, 0);
      inodes := inodes[i := inodes[i].(size := 0)];
      assert inodes[i].addrs == NoAddrs();
      Iupdate(i);
      forall b | b in o0 && o0[b].inum == i
        ensures InData(g, b) && !Marked(g, disk, b) && IsZero(disk[b])
      {
        assert BlockHasOwner(g, d0, i0, o0, {}, b);
        assert o0[b] in Firsts(i, MAXFILE + 1);
        assert BitOk(g, disk, owner, {}, b);
      }
    }

    /** The file is a plain byte sequence: no holes, and its inode is on disk as it is in memory. */
    ghost predicate FileOk(i: int)
      reads this
    {
      && Valid() && 0 <= i < g.ninodes
      && NoHoles(g, disk, inodes, i)
      && dinodes[i] == inodes[i]
    }

    ghost function Content(i: int): (s: seq<byte>)
      reads this
      requires FileOk(i)
      ensures |s| == inodes[i].size
    {
      FileBytes(g, disk, inodes, i)
    }

    /** readi: nothing of the file is returned past its end, and nothing is allocated. */
    method Readi(i: int, off: int, n: int) returns (ok: bool, dst: seq<byte>)
      requires FileOk(i) && 0 <= off < U32 && 0 <= n < U32
      modifies this`disk, this`inodes, this`owner
      ensures disk == old(disk) && inodes == old(inodes) && owner == old(owner)
      ensures ok <==> off <= |Content(i)| && off + n < U32
      ensures ok ==> dst == Content(i)[off..Min(off + n, |Content(i)|)]
    {
      if off > inodes[i].size || (off + n) % U32 < off {
        return false, [];
      }
      var n, off := n, off;
      if off + n > inodes[i].size {
        n := inodes[i].size - off;
      }
      ghost var first, whole := off, Content(i);
      var tot := 0;
      dst := [];
      while tot < n
        invariant 0 <= tot <= n && off == first + tot
        invariant disk == old(disk) && inodes == old(inodes) && owner == old(owner)
        invariant dst == whole[first..off]
      {
        BlockThere(g, disk, inodes, i, off);
        var found, b := Bmap(i, off / BSIZE);
        var m := Min(n - tot, BSIZE - off % BSIZE);
        BlockSlice(g, disk, inodes, i, off, m);
        assert whole[first..off] + whole[off..off + m] == whole[first..off + m];
        dst := dst + disk[b][off % BSIZE..off % BSIZE + m];
        tot, off := tot + m, off + m;
      }
      ok := true;
    }

    /** One turn of writei's loop: bmap, memmove, bwrite. */
    method WriteBlock(i: int, off: int, piece: seq<byte>) returns (ok: bool)
      requires Valid() && 0 <= i < g.ninodes && 0 <= off < MAXFILE * BSIZE && 0 < |piece| <= BSIZE - off % BSIZE
      modifies this`disk, this`inodes, this`owner
      ensures ok ==> Valid() && dinodes == old(dinodes) && AddrOf(g, disk, inodes, Slot(i, off / BSIZE)) != 0
      ensures ok ==> forall t :: ValidSlot(g, t) && AddrOf(g, old(disk), old(inodes), t) != 0 ==>
        AddrOf(g, disk, inodes, t) != 0
      ensures ok ==> forall t :: ValidSlot(g, t) && t.inum != i ==>
        AddrOf(g, disk, inodes, t) == AddrOf(g, old(disk), old(inodes), t)
      ensures ok ==> forall j :: 0 <= j < g.ninodes ==>
        inodes[j].size == old(inodes)[j].size && inodes[j].meta == old(inodes)[j].meta &&
        (j != i ==> inodes[j] == old(inodes)[j])
      ensures ok ==> forall k :: 0 <= k < MAXFILE * BSIZE ==>
        ByteAt(g, disk, inodes, i, k) == if off <= k < off + |piece| then piece[k - off]
          else ByteAt(g, old(disk), old(inodes), i, k)
      ensures ok ==> forall j, k :: 0 <= j < g.ninodes && j != i && 0 <= k < MAXFILE * BSIZE ==>
        ByteAt(g, disk, inodes, j, k) == ByteAt(g, old(disk), old(inodes), j, k)
      ensures ok && AddrOf(g, old(disk), old(inodes), Slot(i, off / BSIZE)) != 0 ==> inodes == old(inodes)
      ensures ok ==> MetaKept(g, old(disk), disk)
      ensures !ok ==> Shape(g, disk, inodes) && NoFree(g, disk)
    {
      hide Inv, ByteAt, AddrOf, Spliced, DataKept;
      InvShape(g, disk, inodes, owner, {}, {});
      ghost var s := Slot(i, off / BSIZE);
      var b;
      ok, b := Bmap(i, off / BSIZE);
      if !ok {
        return;
      }
      InvShape(g, disk, inodes, owner, {}, {});
      ghost var d1 := disk;
      MappedBytes(g, old(disk), old(inodes), d1, inodes, i, off / BSIZE);
      NamedOnce(g, disk, inodes, owner, {}, {}, s, Slot(i, MAXFILE));
      var blk := Spliced(disk[b], off % BSIZE, piece);
      WriteKeepsInv(g, disk, inodes, owner, s, blk);
      WrittenBytes(g, disk, inodes, owner, i, off, piece);
      disk := disk[b := blk];
    }

    /** writei's loop. */
    method WriteBlocks(i: int, src: seq<byte>, off: int, n: int) returns (ok: bool)
      requires Valid() && 0 <= i < g.ninodes && NoHoles(g, disk, inodes, i)
      requires 0 <= off <= inodes[i].size && 0 <= n <= |src| && off + n <= MAXFILE * BSIZE
      modifies this`disk, this`inodes, this`owner
      ensures ok ==> Valid() && Writing(g, old(disk), old(inodes), disk, inodes, i, src, off, n)
      ensures ok ==> MetaKept(g, old(disk), disk) && dinodes == old(dinodes)
      ensures !ok ==> Shape(g, disk, inodes) && NoFree(g, disk)
    {
      ghost var d0, i0 := disk, inodes;
      var tot := 0;
      while tot < n
        invariant 0 <= tot <= n && Valid() && dinodes == old(dinodes)
        invariant Writing(g, d0, i0, disk, inodes, i, src, off, tot) && MetaKept(g, d0, disk)
      {
        hide Inv, NoHoles, Shape;
        var m := Min(n - tot, BSIZE - (off + tot) % BSIZE);
        ghost var d1, i1 := disk, inodes;
        ok := WriteBlock(i, off + tot, src[tot..tot + m]);
        if !ok {
          return;
        }
        WritingStep(g, d0, i0, d1, i1, disk, inodes, i, src, off, tot, m);
        tot := tot + m;
      }
      ok := true;
    }

    /** writei: the bytes replace those at off, or extend the file, up to its largest size. */
    method Writei(i: int, src: seq<byte>, off: int) returns (r: Outcome)
      requires FileOk(i) && 0 <= off < U32 && |src| < U32
      modifies this`disk, this`inodes, this`dinodes, this`owner
      ensures r.Refused? <==> off > |old(Content(i))| || off + |src| >= U32
      ensures r.Refused? ==>
        disk == old(disk) && inodes == old(inodes) && dinodes == old(dinodes) && owner == old(owner)
      ensures r.Panicked? ==> Shape(g, disk, inodes) && NoFree(g, disk)
      ensures r.Wrote? ==> r.n == Min(|src|, MAXFILE * BSIZE - off)
      ensures r.Wrote? ==> FileOk(i) && Content(i) == Spliced(old(Content(i)), off, src[..r.n])
      ensures r.Wrote? ==> forall j :: j != i && old(FileOk(j)) ==> FileOk(j) && Content(j) == old(Content(j))
      ensures r.Wrote? ==> inodes[i].meta == old(inodes)[i].meta && MetaKept(g, old(disk), disk)
      ensures r.Wrote? ==> forall j :: 0 <= j < g.ninodes && j != i ==>
        inodes[j] == old(inodes)[j] && dinodes[j] == old(dinodes)[j]
    {
      if off > inodes[i].size || (off + |src|) % U32 < off {
        return Refused;
      }
      var n := |src|;
      if off + n > MAXFILE * BSIZE {
        n := MAXFILE * BSIZE - off;
      }
      ghost var d0, i0 := disk, inodes;
      var ok := WriteBlocks(i, src, off, n);
      if !ok {
        return Panicked;
      }
      WritingDone(g, d0, i0, disk, inodes, owner, i, src, off, n);
      if n > 0 && off + n > inodes[i].size {
        inodes := inodes[i := inodes[i].(size := off + n)];
        Iupdate(i);
      }
      r := Wrote(n);
      hide Inv, ByteAt, Spliced, NoHoles, Writing;
    }
  }

  /** -1, a panic for want of a free block, or the number of bytes written. */
  datatype Outcome = Refused | Panicked | Wrote(n: int)

  function Min(a: int, b: int): int {
    if a < b then a else b
  }

  function Max(a: int, b: int): int {
    if a < b then b else a
  }

  /** Byte k of a file, 0 where it has no block. */
  ghost function ByteAt(g: Geo, disk: Disk, inodes: seq<Inode>, i: int, k: int): byte
    requires Shape(g, disk, inodes) && 0 <= i < g.ninodes && 0 <= k < MAXFILE * BSIZE
  {
    var b := AddrOf(g, disk, inodes, Slot(i, k / BSIZE));
    if 0 < b < g.size then disk[b][k % BSIZE] else 0
  }

  /** Mapping a file block changes no byte of any file. */
  lemma MappedBytes(g: Geo, d0: Disk, i0: seq<Inode>, d1: Disk, i1: seq<Inode>, i: int, bn: int)
    requires Shape(g, d0, i0) && Shape(g, d1, i1) && 0 <= i < g.ninodes && 0 <= bn < MAXFILE
    requires forall t :: ValidSlot(g, t) && t != Slot(i, bn) && t != Slot(i, MAXFILE) ==>
      AddrOf(g, d1, i1, t) == AddrOf(g, d0, i0, t)
    requires forall t :: ValidSlot(g, t) && t.k < MAXFILE ==> DataKept(g, d0, i0, d1, t)
    requires var b := AddrOf(g, d1, i1, Slot(i, bn));
      if AddrOf(g, d0, i0, Slot(i, bn)) == 0 then InData(g, b) && IsZero(d1[b]) else b == AddrOf(g, d0, i0, Slot(i, bn))
    ensures forall j, k :: 0 <= j < g.ninodes && 0 <= k < MAXFILE * BSIZE ==>
      ByteAt(g, d1, i1, j, k) == ByteAt(g, d0, i0, j, k)
  {
    hide AddrOf;
    forall j, k | 0 <= j < g.ninodes && 0 <= k < MAXFILE * BSIZE
      ensures ByteAt(g, d1, i1, j, k) == ByteAt(g, d0, i0, j, k)
    {
      assert DataKept(g, d0, i0, d1, Slot(j, k / BSIZE));
    }
  }

  ghost predicate NoHoles(g: Geo, disk: Disk, inodes: seq<Inode>, i: int)
    requires Shape(g, disk, inodes) && 0 <= i < g.ninodes
  {
    && 0 <= inodes[i].size <= MAXFILE * BSIZE
    && forall k :: 0 <= k < MAXFILE && k * BSIZE < inodes[i].size ==> AddrOf(g, disk, inodes, Slot(i, k)) != 0
  }

  ghost function FileBytes(g: Geo, disk: Disk, inodes: seq<Inode>, i: int): (s: seq<byte>)
    requires Shape(g, disk, inodes) && 0 <= i < g.ninodes && NoHoles(g, disk, inodes, i)
    ensures |s| == inodes[i].size
  {
    seq(inodes[i].size, k requires 0 <= k < MAXFILE * BSIZE => ByteAt(g, disk, inodes, i, k))
  }

  /** s with piece written at off, extended if it reaches past the end. */
  function Spliced(s: seq<byte>, off: int, piece: seq<byte>): (r: seq<byte>)
    requires 0 <= off <= |s|
    ensures |r| == Max(|s|, off + |piece|)
    ensures forall k :: 0 <= k < |r| ==> r[k] == if off <= k < off + |piece| then piece[k - off] else s[k]
  {
    s[..off] + piece + if off + |piece| < |s| then s[off + |piece|..] else []
  }

  lemma BlockThere(g: Geo, disk: Disk, inodes: seq<Inode>, i: int, off: int)
    requires Shape(g, disk, inodes) && 0 <= i < g.ninodes && NoHoles(g, disk, inodes, i) && 0 <= off < inodes[i].size
    ensures off / BSIZE < MAXFILE && AddrOf(g, disk, inodes, Slot(i, off / BSIZE)) != 0
  {
    hide AddrOf;
  }

  lemma BlockSlice(g: Geo, disk: Disk, inodes: seq<Inode>, i: int, off: int, m: int)
    requires Shape(g, disk, inodes) && 0 <= i < g.ninodes && NoHoles(g, disk, inodes, i)
    requires 0 <= off && 0 < m && off + m <= inodes[i].size && off % BSIZE + m <= BSIZE
    requires 0 < AddrOf(g, disk, inodes, Slot(i, off / BSIZE)) < g.size
    ensures FileBytes(g, disk, inodes,
      i)[off..off + m] == disk[AddrOf(g, disk, inodes, Slot(i, off / BSIZE))][off % BSIZE..off % BSIZE + m]
  {
    forall k | off <= k < off + m
      ensures k / BSIZE == off / BSIZE && k % BSIZE == off % BSIZE + (k - off)
    {
    }
    hide AddrOf;
  }

  /** What a byte of any file is after one data block is rewritten. */
  lemma WrittenByte(g: Geo, disk: Disk, inodes: seq<Inode>, owner: map<int, Slot>, i: int, off: int, piece: seq<byte>,
      j: int, k: int)
    requires Inv(g, disk, inodes, owner, {}, {}) && 0 <= i < g.ninodes && 0 <= j < g.ninodes
    requires 0 <= off < MAXFILE * BSIZE && 0 <= k < MAXFILE * BSIZE && 0 < |piece| <= BSIZE - off % BSIZE
    requires AddrOf(g, disk, inodes, Slot(i, off / BSIZE)) != 0
    ensures InData(g, AddrOf(g, disk, inodes, Slot(i, off / BSIZE)))
    ensures var b := AddrOf(g, disk, inodes, Slot(i, off / BSIZE));
      var d := disk[b := Spliced(disk[b], off % BSIZE, piece)];
      Shape(g, d, inodes) && ByteAt(g, d, inodes, j, k) == if j == i && off <= k < off + |piece| then piece[k - off]
        else ByteAt(g, disk, inodes, j, k)
  {
    var s, t := Slot(i, off / BSIZE), Slot(j, k / BSIZE);
    var b := AddrOf(g, disk, inodes, s);
    var blk := Spliced(disk[b], off % BSIZE, piece);
    WriteKeepsInv(g, disk, inodes, owner, s, blk);
    if s != t {
      NamedOnce(g, disk, inodes, owner, {}, {}, s, t);
    }
    hide AddrOf, Inv, Spliced;
  }

  ghost function Firsts(i: int, n: int): set<Slot> {
    set k | 0 <= k < n :: Slot(i, k)
  }

  /** The slots of the first n entries of inode i's indirect block. */
  ghost function Entries(i: int, n: int): set<Slot> {
    set k | NDIRECT <= k < NDIRECT + n :: Slot(i, k)
  }

  function NoAddrs(): seq<int> {
    seq(NDIRECT + 1, _ => 0)
  }

  lemma WrittenBytes(g: Geo, disk: Disk, inodes: seq<Inode>, owner: map<int, Slot>, i: int, off: int, piece: seq<byte>)
    requires Inv(g, disk, inodes, owner, {}, {}) && 0 <= i < g.ninodes
    requires 0 <= off < MAXFILE * BSIZE && 0 < |piece| <= BSIZE - off % BSIZE
    requires AddrOf(g, disk, inodes, Slot(i, off / BSIZE)) != 0
    ensures InData(g, AddrOf(g, disk, inodes, Slot(i, off / BSIZE)))
    ensures var b := AddrOf(g, disk, inodes, Slot(i, off / BSIZE));
      var d := disk[b := Spliced(disk[b], off % BSIZE, piece)];
      && Shape(g, d, inodes)
      && (forall k :: 0 <= k < MAXFILE * BSIZE ==>
        ByteAt(g, d, inodes, i, k) == if off <= k < off + |piece| then piece[k - off]
          else ByteAt(g, disk, inodes, i, k))
      && forall j, k :: 0 <= j < g.ninodes && j != i && 0 <= k < MAXFILE * BSIZE ==>
        ByteAt(g, d, inodes, j, k) == ByteAt(g, disk, inodes, j, k)
  {
    hide Inv, ByteAt, AddrOf, Spliced;
    InvShape(g, disk, inodes, owner, {}, {});
    var b := AddrOf(g, disk, inodes, Slot(i, off / BSIZE));
    WrittenByte(g, disk, inodes, owner, i, off, piece, i, 0);
    var d := disk[b := Spliced(disk[b], off % BSIZE, piece)];
    forall j, k | 0 <= j < g.ninodes && 0 <= k < MAXFILE * BSIZE
      ensures ByteAt(g, d, inodes, j, k) == if j == i && off <= k < off + |piece| then piece[k - off]
        else ByteAt(g, disk, inodes, j, k)
    {
      WrittenByte(g, disk, inodes, owner, i, off, piece, j, k);
    }
  }

  /** A slot that names nothing may be skipped. */
  lemma SkipEmpty(g: Geo, disk: Disk, inodes: seq<Inode>, owner: map<int, Slot>, skip: set<Slot>, s: Slot)
    requires Inv(g, disk, inodes, owner, skip, {}) && ValidSlot(g, s) && AddrOf(g, disk, inodes, s) == 0
    ensures Inv(g, disk, inodes, owner, skip + {s}, {})
  {
    forall b | b in owner
      ensures BlockHasOwner(g, disk, inodes, owner, skip + {s}, b)
    {
      assert BlockHasOwner(g, disk, inodes, owner, skip, b);
    }
    hide AddrOf, BitOk;
  }

  /** An inode's size is not the block layer's business. */
  lemma SizeKeepsInv(g: Geo, disk: Disk, inodes: seq<Inode>, owner: map<int, Slot>, i: int, size: int)
    requires Inv(g, disk, inodes, owner, {}, {}) && 0 <= i < g.ninodes
    ensures Inv(g, disk, inodes[i := inodes[i].(size := size)], owner, {}, {})
    ensures forall t :: ValidSlot(g, t) ==>
      AddrOf(g, disk, inodes[i := inodes[i].(size := size)], t) == AddrOf(g, disk, inodes, t)
  {
    var inodes' := inodes[i := inodes[i].(size := size)];
    forall t | ValidSlot(g, t)
      ensures AddrOf(g, disk, inodes', t) == AddrOf(g, disk, inodes, t)
    {
      AddrFrame(g, disk, disk, inodes, inodes', t);
    }
    var none: set<Slot> := {};
    UnskipKeepsInv(g, disk, inodes, inodes', owner, none, none);
    assert none - none == {};
  }

  /** owner is o0 without the blocks of the slots in P. */
  ghost predicate Remaining(o0: map<int, Slot>, owner: map<int, Slot>, P: set<Slot>) {
    && (forall b :: b in owner ==> b in o0 && owner[b] == o0[b] && o0[b] !in P)
    && (forall b :: b in o0 && o0[b] !in P ==> b in owner)
  }

  lemma RemainingStep(g: Geo, disk: Disk, inodes: seq<Inode>, o0: map<int, Slot>, owner: map<int, Slot>,
      skip: set<Slot>, P: set<Slot>, s: Slot)
    requires Inv(g, disk, inodes, owner, skip, {}) && ValidSlot(g, s) && s !in skip && Remaining(o0, owner, P)
    ensures AddrOf(g, disk, inodes, s) == 0 ==> Remaining(o0, owner, P + {s})
    ensures AddrOf(g, disk, inodes, s) != 0 ==> Remaining(o0, owner - {AddrOf(g, disk, inodes, s)}, P + {s})
  {
    assert SlotOk(g, disk, inodes, owner, s);
    forall b | b in owner
      ensures owner[b] == s ==> b == AddrOf(g, disk, inodes, s)
    {
      assert BlockHasOwner(g, disk, inodes, owner, skip, b);
    }
    hide AddrOf, Inv;
  }

  /** Freeing a block of inode i leaves the data of the others alone. */
  lemma FreedKeepsData(g: Geo, disk: Disk, inodes: seq<Inode>, owner: map<int, Slot>, skip: set<Slot>, s: Slot,
      d0: Disk, i0: seq<Inode>, i: int)
    requires Inv(g, disk, inodes, owner, skip, {}) && ValidSlot(g, s) && s !in skip &&
      AddrOf(g, disk, inodes, s) != 0 && s.inum == i
    requires Shape(g, d0, i0) && forall t :: t in skip ==> t.inum == i
    requires forall t :: ValidSlot(g, t) && t.inum != i ==>
      AddrOf(g, disk, inodes, t) == AddrOf(g, d0, i0, t) && DataKept(g, d0, i0, disk, t)
    ensures InData(g, AddrOf(g, disk, inodes, s))
    ensures forall t :: ValidSlot(g, t) && t.inum != i ==>
      DataKept(g, d0, i0, Freed(g, disk, AddrOf(g, disk, inodes, s)), t)
  {
    var b := AddrOf(g, disk, inodes, s);
    assert SlotOk(g, disk, inodes, owner, s);
    assert BlockHasOwner(g, disk, inodes, owner, skip, b);
    forall t | ValidSlot(g, t) && t.inum != i
      ensures DataKept(g, d0, i0, Freed(g, disk, b), t)
    {
      NamedOnce(g, disk, inodes, owner, skip, {}, t, s);
      var c := AddrOf(g, disk, inodes, t);
      if 0 < c < g.size {
        FreedMarks(g, disk, inodes, b, c);
        BitBlocksAreMeta(g, b);
        assert DataKept(g, d0, i0, disk, t);
      }
      hide AddrOf, Freed, Inv;
    }
  }

  /** The state after a data block is allocated and named in an indirect block. */
  lemma EntryAllocated(g: Geo, d0: Disk, inodes: seq<Inode>, owner: map<int, Slot>, s: Slot, b: int)
    requires Inv(g, d0, inodes, owner, {}, {}) && ValidSlot(g, s) && NDIRECT <= s.k < MAXFILE
    requires InData(g, b) && !Marked(g, d0, b)
    requires AddrOf(g, d0, inodes, Slot(s.inum, MAXFILE)) != 0 && AddrOf(g, d0, inodes, s) == 0
    ensures var ind := AddrOf(g, d0, inodes, Slot(s.inum, MAXFILE));
      && InData(g, ind)
      && var d := WithEntry(Allocated(g, d0, b), ind, s.k - NDIRECT, b);
      && Inv(g, d, inodes, owner[b := s], {}, {})
      && (forall t :: ValidSlot(g, t) ==> AddrOf(g, d, inodes, t) == if t == s then b else AddrOf(g, d0, inodes, t))
      && (forall t :: ValidSlot(g, t) && t.k < MAXFILE ==> DataKept(g, d0, inodes, d, t))
      && IsZero(d[b])
  {
    var p := Slot(s.inum, MAXFILE);
    var ind := AddrOf(g, d0, inodes, p);
    AllocateKeepsInv(g, d0, inodes, owner, {}, {}, b);
    AllocatedKeepsAddrs(g, d0, inodes, owner, {}, {}, b);
    var d1 := Allocated(g, d0, b);
    assert {} + {b} == {b};
    LinkInIndirect(g, d1, inodes, owner, {}, {b}, s, b);
    assert {b} - {b} == {};
    var d := WithEntry(d1, ind, s.k - NDIRECT, b);
    NamedOnce(g, d0, inodes, owner, {}, {}, p, s);
    assert ind != b;
    hide Inv;
    forall t | ValidSlot(g, t) && t.k < MAXFILE
      ensures DataKept(g, d0, inodes, d, t)
    {
      NamedOnce(g, d0, inodes, owner, {}, {}, t, p);
      assert DataKept(g, d0, inodes, d1, t);
      hide AddrOf;
    }
    hide AddrOf;
  }

  lemma AllocatedOnly(g: Geo, disk: Disk, inodes: seq<Inode>, b: int)
    requires Shape(g, disk, inodes) && 0 <= b < g.size
    ensures Shape(g, Allocated(g, disk, b), inodes)
    ensures forall c :: 0 <= c < g.size ==> (Marked(g, Allocated(g, disk, b), c) <==> c == b || Marked(g, disk, c))
    ensures forall c :: 0 <= c < g.size && c != BitBlock(g, b) ==> Allocated(g, disk, b)[c] == disk[c]
  {
    hide Allocated, Marked;
    AllocatedMarks(g, disk, inodes, b, b);
    forall c | 0 <= c < g.size
      ensures Marked(g, Allocated(g, disk, b), c) <==> c == b || Marked(g, disk, c)
      ensures c != BitBlock(g, b) ==> Allocated(g, disk, b)[c] == disk[c]
    {
      AllocatedMarks(g, disk, inodes, b, c);
    }
  }

  lemma FreedOnly(g: Geo, disk: Disk, inodes: seq<Inode>, b: int)
    requires Shape(g, disk, inodes) && InData(g, b)
    ensures Shape(g, Freed(g, disk, b), inodes) && Freed(g, disk, b)[b] == ZeroBlock()
    ensures forall c :: 0 <= c < g.size ==> (Marked(g, Freed(g, disk, b), c) <==> c != b && Marked(g, disk, c))
    ensures forall c :: 0 <= c < g.size && c != b && c != BitBlock(g, b) ==> Freed(g, disk, b)[c] == disk[c]
    ensures MetaKept(g, disk, Freed(g, disk, b))
  {
    hide Freed, Marked;
    FreedMarks(g, disk, inodes, b, b);
    forall c | 0 <= c < g.size
      ensures Marked(g, Freed(g, disk, b), c) <==> c != b && Marked(g, disk, c)
      ensures c != b && c != BitBlock(g, b) ==> Freed(g, disk, b)[c] == disk[c]
    {
      FreedMarks(g, disk, inodes, b, c);
    }
  }

  /** Marking a block moves no slot and no data. */
  lemma AllocatedKeepsAddrs(g: Geo, disk: Disk, inodes: seq<Inode>, owner: map<int, Slot>, skip: set<Slot>,
      pending: set<int>, b: int)
    requires Inv(g, disk, inodes, owner, skip, pending) && InData(g, b)
    ensures Shape(g, Allocated(g, disk, b), inodes)
    ensures forall t :: ValidSlot(g, t) ==> AddrOf(g, Allocated(g, disk, b), inodes, t) == AddrOf(g, disk, inodes, t)
    ensures forall c :: InData(g, c) ==> Allocated(g, disk, b)[c] == disk[c]
    ensures forall t :: ValidSlot(g, t) && t !in skip ==> DataKept(g, disk, inodes, Allocated(g, disk, b), t)
  {
    AllocatedMarks(g, disk, inodes, b, b);
    BitBlocksAreMeta(g, b);
    forall t | ValidSlot(g, t)
      ensures AddrOf(g, Allocated(g, disk, b), inodes, t) == AddrOf(g, disk, inodes, t)
    {
      assert IndirectOk(g, inodes, t.inum);
      AddrFrame(g, disk, Allocated(g, disk, b), inodes, inodes, t);
    }
    forall t | ValidSlot(g, t) && t !in skip
      ensures DataKept(g, disk, inodes, Allocated(g, disk, b), t)
    {
      assert SlotOk(g, disk, inodes, owner, t);
      var c := AddrOf(g, disk, inodes, t);
      assert c != 0 ==> BlockHasOwner(g, disk, inodes, owner, skip, c);
    }
  }

  /** The loop of writei after tot bytes: they are in the file and nothing else has changed; while they
      stay below the old end the inode is as it was. */
  ghost predicate Writing(g: Geo, d0: Disk, i0: seq<Inode>, d1: Disk, i1: seq<Inode>, i: int, src: seq<byte>, off: int,
      tot: int)
    requires Shape(g, d0, i0) && Shape(g, d1, i1) && 0 <= i < g.ninodes && 0 <= off && 0 <= tot <= |src|
  {
    && (forall j :: 0 <= j < g.ninodes ==>
      i1[j].size == i0[j].size && i1[j].meta == i0[j].meta && (j != i ==> i1[j] == i0[j]))
    && (forall k :: 0 <= k < MAXFILE && k * BSIZE < Max(i0[i].size, if tot == 0 then 0 else off + tot) ==>
      AddrOf(g, d1, i1, Slot(i, k)) != 0)
    && (forall t :: ValidSlot(g, t) && t.inum != i ==> AddrOf(g, d1, i1, t) == AddrOf(g, d0, i0, t))
    && (forall k :: 0 <= k < MAXFILE * BSIZE ==> ByteAt(g, d1, i1, i, k) == if off <= k < off + tot then src[k - off]
      else ByteAt(g, d0, i0, i, k))
    && (forall j, k :: 0 <= j < g.ninodes && j != i && 0 <= k < MAXFILE * BSIZE ==>
      ByteAt(g, d1, i1, j, k) == ByteAt(g, d0, i0, j, k))
    && (off + tot <= i0[i].size ==> i1 == i0)
  }

  lemma WritingStep(g: Geo, d0: Disk, i0: seq<Inode>, d1: Disk, i1: seq<Inode>, d2: Disk, i2: seq<Inode>, i: int,
      src: seq<byte>, off: int, tot: int, m: int)
    requires Shape(g, d0, i0) && Shape(g, d1, i1) && Shape(g, d2, i2) && 0 <= i < g.ninodes &&
      0 <= off <= i0[i].size && 0 <= tot
    requires 0 < m <= BSIZE - (off + tot) % BSIZE && tot + m <= |src| && off + tot + m <= MAXFILE * BSIZE
    requires Writing(g, d0, i0, d1, i1, i, src, off, tot)
    requires forall j :: 0 <= j < g.ninodes ==>
      i2[j].size == i1[j].size && i2[j].meta == i1[j].meta && (j != i ==> i2[j] == i1[j])
    requires AddrOf(g, d2, i2, Slot(i, (off + tot) / BSIZE)) != 0
    requires forall t :: ValidSlot(g, t) && AddrOf(g, d1, i1, t) != 0 ==> AddrOf(g, d2, i2, t) != 0
    requires forall t :: ValidSlot(g, t) && t.inum != i ==> AddrOf(g, d2, i2, t) == AddrOf(g, d1, i1, t)
    requires forall k :: 0 <= k < MAXFILE * BSIZE ==>
      ByteAt(g, d2, i2, i, k) == if off + tot <= k < off + tot + m then src[tot..tot + m][k - (off + tot)]
        else ByteAt(g, d1, i1, i, k)
    requires forall j, k :: 0 <= j < g.ninodes && j != i && 0 <= k < MAXFILE * BSIZE ==>
      ByteAt(g, d2, i2, j, k) == ByteAt(g, d1, i1, j, k)
    requires off + tot + m <= i0[i].size && AddrOf(g, d1, i1, Slot(i, (off + tot) / BSIZE)) != 0 ==> i2 == i1
    ensures Writing(g, d0, i0, d2, i2, i, src, off, tot + m)
  {
    hide AddrOf, ByteAt;
    forall k | 0 <= k < MAXFILE && k * BSIZE < Max(i0[i].size, off + tot + m)
      ensures AddrOf(g, d2, i2, Slot(i, k)) != 0
    {
      if k * BSIZE < Max(i0[i].size, if tot == 0 then 0 else off + tot) {
        assert AddrOf(g, d1, i1, Slot(i, k)) != 0;
      } else {
        assert k == (off + tot) / BSIZE;
      }
    }
    if off + tot + m <= i0[i].size {
      var q := (off + tot) / BSIZE;
      assert q * BSIZE < i0[i].size;
      assert AddrOf(g, d1, i1, Slot(i, q)) != 0;
    }
  }

  ghost function Resized(inodes: seq<Inode>, i: int, size: int): seq<Inode>
    requires 0 <= i < |inodes|
  {
    inodes[i := inodes[i].(size := size)]
  }

  /** After the loop and the change of size, the files are what writei promises. */
  lemma WritingDone(g: Geo, d0: Disk, i0: seq<Inode>, d1: Disk, i1: seq<Inode>, owner: map<int, Slot>, i: int,
      src: seq<byte>, off: int, n: int)
    requires Shape(g, d0, i0) && Inv(g, d1, i1, owner, {}, {}) && 0 <= i < g.ninodes && 0 <= off && 0 <= n <= |src|
    requires NoHoles(g, d0, i0, i) && off <= i0[i].size && off + n <= MAXFILE * BSIZE
    requires Writing(g, d0, i0, d1, i1, i, src, off, n)
    ensures var i2 := if n > 0 && off + n > i1[i].size then Resized(i1, i, off + n) else i1;
      && Inv(g, d1, i2, owner, {}, {})
      && NoHoles(g, d1, i2, i) && FileBytes(g, d1, i2, i) == Spliced(FileBytes(g, d0, i0, i), off, src[..n])
      && (forall j :: 0 <= j < g.ninodes && j != i && NoHoles(g, d0, i0, j) ==>
        NoHoles(g, d1, i2, j) && FileBytes(g, d1, i2, j) == FileBytes(g, d0, i0, j) && i2[j] == i0[j])
      && (off + n <= i1[i].size ==> i2 == i0)
  {
    var grow := n > 0 && off + n > i1[i].size;
    var i2 := if grow then Resized(i1, i, off + n) else i1;
    if grow {
      SizeKeepsInv(g, d1, i1, owner, i, off + n);
    }
    forall j, k | 0 <= j < g.ninodes && 0 <= k < MAXFILE * BSIZE
      ensures ByteAt(g, d1, i2, j, k) == ByteAt(g, d1, i1, j, k)
    {
    }
    hide AddrOf, ByteAt, Inv;
    forall j | 0 <= j < g.ninodes && j != i && NoHoles(g, d0, i0, j)
      ensures NoHoles(g, d1, i2, j) && FileBytes(g, d1, i2, j) == FileBytes(g, d0, i0, j)
    {
    }
    assert NoHoles(g, d1, i2, i);
  }
}
