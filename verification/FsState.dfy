/** The block layer's state as a value: which block each inode slot names, which blocks
    the bitmap marks, and the invariant that ties them together. */
module FsState {
  import opened Bytes
  import opened FsLayout

  /** Block counts from the superblock. */
  datatype Geo = Geo(size: int, ninodes: int)

  /** size is in bytes; addrs are NDIRECT direct blocks and the indirect block. */
  datatype Inode = Inode(meta: int, size: int, addrs: seq<int>)

  /** A place that can name a block: file block k of inode inum, or for k == MAXFILE its indirect block. */
  datatype Slot = Slot(inum: int, k: int)

  type Disk = seq<Block>

  function BitBlock(g: Geo, b: int): int {
    b / BPB + g.ninodes / IPB + 3
  }

  /** The first block behind the bitmap. */
  function DataStart(g: Geo): int {
    g.ninodes / IPB + 3 + g.size / BPB + 1
  }

  ghost predicate GeoOk(g: Geo) {
    0 <= g.ninodes && DataStart(g) <= g.size < U32
  }

  ghost predicate Shape(g: Geo, disk: Disk, inodes: seq<Inode>) {
    && GeoOk(g) && |disk| == g.size && |inodes| == g.ninodes
    && (forall b :: 0 <= b < |disk| ==> |disk[b]| == BSIZE)
    && (forall i :: 0 <= i < |inodes| ==> |inodes[i].addrs| == NDIRECT + 1)
  }

  ghost predicate Marked(g: Geo, disk: Disk, b: int)
    requires GeoOk(g) && |disk| == g.size && 0 <= b < g.size && |disk[BitBlock(g, b)]| == BSIZE
  {
    BitAt(disk[BitBlock(g, b)], b % BPB)
  }

  ghost predicate ValidSlot(g: Geo, s: Slot) {
    0 <= s.inum < g.ninodes && 0 <= s.k <= MAXFILE
  }

  /** The block a slot names, 0 if none. */
  ghost function AddrOf(g: Geo, disk: Disk, inodes: seq<Inode>, s: Slot): int
    requires Shape(g, disk, inodes) && ValidSlot(g, s)
  {
    var a := inodes[s.inum].addrs;
    if s.k < NDIRECT then a[s.k]
    else if s.k == MAXFILE then a[NDIRECT]
    else if 0 < a[NDIRECT] < |disk| then Word(disk[a[NDIRECT]], s.k - NDIRECT)
    else 0
  }

  ghost predicate InData(g: Geo, b: int) {
    DataStart(g) <= b < g.size
  }

  /** s names no block, or one that it owns. Slots in skip are being taken apart. */
  ghost predicate SlotOk(g: Geo, disk: Disk, inodes: seq<Inode>, owner: map<int, Slot>, s: Slot)
    requires Shape(g, disk, inodes) && ValidSlot(g, s)
  {
    var b := AddrOf(g, disk, inodes, s);
    b != 0 ==> b in owner && owner[b] == s
  }

  ghost predicate BlockHasOwner(g: Geo, disk: Disk, inodes: seq<Inode>, owner: map<int, Slot>, skip: set<Slot>, b: int)
    requires Shape(g, disk, inodes) && b in owner
  {
    InData(g, b) && ValidSlot(g, owner[b]) && owner[b] !in skip && AddrOf(g, disk, inodes, owner[b]) == b
  }

  /** The bitmap marks a block exactly if it is metadata, owned, or just allocated; an unmarked block is all zeros. */
  ghost predicate BitOk(g: Geo, disk: Disk, owner: map<int, Slot>, pending: set<int>, b: int)
    requires GeoOk(g) && |disk| == g.size && 0 <= b < g.size && |disk[BitBlock(g, b)]| == BSIZE
  {
    && (Marked(g, disk, b) <==> b < DataStart(g) || b in owner || b in pending)
    && (!Marked(g, disk, b) ==> IsZero(disk[b]))
  }

  ghost predicate IndirectOk(g: Geo, inodes: seq<Inode>, i: int)
    requires 0 <= i < |inodes| && |inodes[i].addrs| == NDIRECT + 1
  {
    inodes[i].addrs[NDIRECT] == 0 || InData(g, inodes[i].addrs[NDIRECT])
  }

  /** Every named block has exactly one slot naming it, is marked, and free blocks are zero. */
  ghost predicate Inv(g: Geo, disk: Disk, inodes: seq<Inode>, owner: map<int, Slot>, skip: set<Slot>,
      pending: set<int>) {
    && Shape(g, disk, inodes)
    && (forall s :: ValidSlot(g, s) && s !in skip ==> SlotOk(g, disk, inodes, owner, s))
    && (forall b :: b in owner ==> BlockHasOwner(g, disk, inodes, owner, skip, b))
    && (forall b :: 0 <= b < g.size ==> BitOk(g, disk, owner, pending, b))
    && (forall i :: 0 <= i < |inodes| ==> IndirectOk(g, inodes, i))
    && pending !! owner.Keys && (forall b :: b in pending ==> InData(g, b))
  }

  lemma BitBlocksAreMeta(g: Geo, b: int)
    requires GeoOk(g) && 0 <= b < g.size
    ensures 3 <= BitBlock(g, b) < DataStart(g) <= g.size
    ensures 0 <= b % BPB < BPB
  {
  }

  lemma InvShape(g: Geo, disk: Disk, inodes: seq<Inode>, owner: map<int, Slot>, skip: set<Slot>, pending: set<int>)
    requires Inv(g, disk, inodes, owner, skip, pending)
    ensures Shape(g, disk, inodes)
    ensures forall i :: 0 <= i < |inodes| ==> IndirectOk(g, inodes, i)
    ensures forall b :: 0 <= b < g.size && !Marked(g, disk, b) ==> InData(g, b)
  {
    forall b | 0 <= b < g.size
      ensures !Marked(g, disk, b) ==> InData(g, b)
    {
      assert BitOk(g, disk, owner, pending, b);
    }
  }

  /** Two slots never name the same block. */
  lemma NamedOnce(g: Geo, disk: Disk, inodes: seq<Inode>, owner: map<int, Slot>, skip: set<Slot>, pending: set<int>,
      s: Slot, t: Slot)
    requires Inv(g, disk, inodes, owner, skip, pending)
    requires ValidSlot(g, s) && ValidSlot(g, t) && s !in skip && t !in skip && s != t
    ensures AddrOf(g, disk, inodes, s) == AddrOf(g, disk, inodes, t) ==> AddrOf(g, disk, inodes, s) == 0
    ensures AddrOf(g, disk, inodes, s) != 0 ==>
      InData(g, AddrOf(g, disk, inodes, s)) && Marked(g, disk, AddrOf(g, disk, inodes, s))
  {
    assert SlotOk(g, disk, inodes, owner, s) && SlotOk(g, disk, inodes, owner, t);
    var b := AddrOf(g, disk, inodes, s);
    if b != 0 {
      assert BlockHasOwner(g, disk, inodes, owner, skip, b);
      assert BitOk(g, disk, owner, pending, b);
    }
  }

  /** A slot reads the same when its inode's addresses and the indirect block it goes through are the same. */
  lemma AddrFrame(g: Geo, d0: Disk, d1: Disk, i0: seq<Inode>, i1: seq<Inode>, s: Slot)
    requires Shape(g, d0, i0) && Shape(g, d1, i1) && ValidSlot(g, s)
    requires i0[s.inum].addrs == i1[s.inum].addrs
    requires NDIRECT <= s.k < MAXFILE && 0 < i0[s.inum].addrs[NDIRECT] < g.size ==>
      d0[i0[s.inum].addrs[NDIRECT]] == d1[i0[s.inum].addrs[NDIRECT]]
    ensures AddrOf(g, d0, i0, s) == AddrOf(g, d1, i1, s)
  {
  }

  /** The boot block, the superblock and the inode blocks, which lie before the bitmap, are as they were. */
  ghost predicate MetaKept(g: Geo, d0: Disk, d1: Disk)
    requires GeoOk(g) && |d0| == |d1| == g.size
  {
    forall c :: 0 <= c < BitBlock(g, 0) && c < g.size ==> d1[c] == d0[c]
  }

  // ----- Allocation

  /** balloc's write. */
  ghost function Allocated(g: Geo, disk: Disk, b: int): Disk
    requires GeoOk(g) && |disk| == g.size && 0 <= b < g.size && |disk[BitBlock(g, b)]| == BSIZE
  {
    disk[BitBlock(g, b) := SetBit(disk[BitBlock(g, b)], b % BPB)]
  }

  lemma AllocatedMarks(g: Geo, disk: Disk, inodes: seq<Inode>, b: int, c: int)
    requires Shape(g, disk, inodes) && 0 <= b < g.size && 0 <= c < g.size
    ensures Shape(g, Allocated(g, disk, b), inodes)
    ensures Marked(g, Allocated(g, disk, b), c) <==> c == b || Marked(g, disk, c)
    ensures c != BitBlock(g, b) ==> Allocated(g, disk, b)[c] == disk[c]
    ensures MetaKept(g, disk, Allocated(g, disk, b))
  {
    SetBitAt(disk[BitBlock(g, b)], b % BPB, c % BPB);
    hide BitAt, SetBit;
    if BitBlock(g, b) == BitBlock(g, c) {
      assert b / BPB == c / BPB;
      assert b % BPB == c % BPB ==> b == c;
    }
  }

  lemma AllocateKeepsInv(g: Geo, disk: Disk, inodes: seq<Inode>, owner: map<int, Slot>, skip: set<Slot>,
      pending: set<int>, b: int)
    requires Inv(g, disk, inodes, owner, skip, pending) && InData(g, b) && !Marked(g, disk, b)
    ensures Inv(g, Allocated(g, disk, b), inodes, owner, skip, pending + {b})
    ensures IsZero(Allocated(g, disk, b)[b]) && b !in owner && b !in pending
  {
    var d := Allocated(g, disk, b);
    BitBlocksAreMeta(g, b);
    AllocatedMarks(g, disk, inodes, b, b);
    assert BitOk(g, disk, owner, pending, b);
    forall s | ValidSlot(g, s)
      ensures AddrOf(g, d, inodes, s) == AddrOf(g, disk, inodes, s)
    {
      assert IndirectOk(g, inodes, s.inum);
      AddrFrame(g, disk, d, inodes, inodes, s);
    }
    forall s | ValidSlot(g, s) && s !in skip
      ensures SlotOk(g, d, inodes, owner, s)
    {
      assert SlotOk(g, disk, inodes, owner, s);
    }
    forall c | c in owner
      ensures BlockHasOwner(g, d, inodes, owner, skip, c)
    {
      assert BlockHasOwner(g, disk, inodes, owner, skip, c);
    }
    forall c | 0 <= c < g.size
      ensures BitOk(g, d, owner, pending + {b}, c)
    {
      AllocatedMarks(g, disk, inodes, b, c);
      assert BitOk(g, disk, owner, pending, c);
      BitBlocksAreMeta(g, c);
    }
  }

  // ----- Naming a fresh block

  /** ip->addrs[j] = b. */
  function WithAddr(inodes: seq<Inode>, i: int, j: int, b: int): seq<Inode>
    requires 0 <= i < |inodes| && 0 <= j < |inodes[i].addrs|
  {
    inodes[i := inodes[i].(addrs := inodes[i].addrs[j := b])]
  }

  /** The address slot of an inode that a direct or indirect-pointer slot is. */
  function AddrIndex(k: int): int {
    if k == MAXFILE then NDIRECT else k
  }

  lemma LinkInInode(g: Geo, disk: Disk, inodes: seq<Inode>, owner: map<int, Slot>, skip: set<Slot>, pending: set<int>,
      s: Slot, b: int)
    requires Inv(g, disk, inodes, owner, skip, pending) && ValidSlot(g, s) && s !in skip
    requires s.k < NDIRECT || s.k == MAXFILE
    requires AddrOf(g, disk, inodes, s) == 0 && b in pending && IsZero(disk[b])
    ensures Inv(g, disk, WithAddr(inodes, s.inum, AddrIndex(s.k), b), owner[b := s], skip, pending - {b})
    ensures forall t :: ValidSlot(g, t) ==>
      AddrOf(g, disk, WithAddr(inodes, s.inum, AddrIndex(s.k), b), t) == if t == s then b
        else AddrOf(g, disk, inodes, t)
  {
    var inodes', owner' := WithAddr(inodes, s.inum, AddrIndex(s.k), b), owner[b := s];
    forall t | ValidSlot(g, t)
      ensures AddrOf(g, disk, inodes', t) == if t == s then b else AddrOf(g, disk, inodes, t)
    {
      if t.inum == s.inum && NDIRECT <= t.k < MAXFILE && s.k == MAXFILE {
        ZeroWord(disk[b], t.k - NDIRECT);
      }
    }
    forall t | ValidSlot(g, t) && t !in skip
      ensures SlotOk(g, disk, inodes', owner', t)
    {
      assert SlotOk(g, disk, inodes, owner, t);
    }
    forall c | c in owner'
      ensures BlockHasOwner(g, disk, inodes', owner', skip, c)
    {
      if c != b {
        assert BlockHasOwner(g, disk, inodes, owner, skip, c);
      }
    }
    forall c | 0 <= c < g.size
      ensures BitOk(g, disk, owner', pending - {b}, c)
    {
      assert BitOk(g, disk, owner, pending, c);
    }
    forall i | 0 <= i < |inodes'|
      ensures IndirectOk(g, inodes', i)
    {
      assert IndirectOk(g, inodes, i);
    }
  }

  /** a[bn] = b in the indirect block. */
  ghost function WithEntry(disk: Disk, ind: int, j: int, b: int): Disk
    requires 0 <= ind < |disk| && |disk[ind]| == BSIZE && 0 <= j < NINDIRECT
  {
    disk[ind := PutWord(disk[ind], j, b)]
  }

  lemma EntryAddrs(g: Geo, disk: Disk, inodes: seq<Inode>, owner: map<int, Slot>, skip: set<Slot>, pending: set<int>,
      s: Slot, b: int, t: Slot)
    requires Inv(g, disk, inodes, owner, skip, pending) && ValidSlot(g, s) && ValidSlot(g, t) && 0 <= b < U32
    requires NDIRECT <= s.k < MAXFILE && AddrOf(g, disk, inodes, Slot(s.inum, MAXFILE)) != 0
    requires Slot(s.inum, MAXFILE) !in skip && Slot(t.inum, MAXFILE) !in skip
    ensures InData(g, AddrOf(g, disk, inodes, Slot(s.inum, MAXFILE)))
    ensures var d := WithEntry(disk, AddrOf(g, disk, inodes, Slot(s.inum, MAXFILE)), s.k - NDIRECT, b);
      Shape(g, d, inodes) && AddrOf(g, d, inodes, t) == if t == s then b else AddrOf(g, disk, inodes, t)
  {
    hide PutWord, Word, BitOk;
    var ptr := Slot(s.inum, MAXFILE);
    var ind := AddrOf(g, disk, inodes, ptr);
    assert IndirectOk(g, inodes, s.inum);
    var d := WithEntry(disk, ind, s.k - NDIRECT, b);
    assert Shape(g, d, inodes);
    if NDIRECT <= t.k < MAXFILE {
      if t.inum == s.inum {
        PutWordWord(disk[ind], s.k - NDIRECT, b, t.k - NDIRECT);
      } else {
        NamedOnce(g, disk, inodes, owner, skip, pending, ptr, Slot(t.inum, MAXFILE));
        AddrFrame(g, disk, d, inodes, inodes, t);
      }
    }
  }

  lemma LinkInIndirect(g: Geo, disk: Disk, inodes: seq<Inode>, owner: map<int, Slot>, skip: set<Slot>,
      pending: set<int>, s: Slot, b: int)
    requires Inv(g, disk, inodes, owner, skip, pending) && ValidSlot(g, s) && s !in skip && skip == {}
    requires NDIRECT <= s.k < MAXFILE && AddrOf(g, disk, inodes, Slot(s.inum, MAXFILE)) != 0
    requires AddrOf(g, disk, inodes, s) == 0 && b in pending
    ensures InData(g, AddrOf(g, disk, inodes, Slot(s.inum, MAXFILE)))
    ensures var d := WithEntry(disk, AddrOf(g, disk, inodes, Slot(s.inum, MAXFILE)), s.k - NDIRECT, b);
      && Inv(g, d, inodes, owner[b := s], skip, pending - {b})
      && forall t :: ValidSlot(g, t) ==> AddrOf(g, d, inodes, t) == if t == s then b else AddrOf(g, disk, inodes, t)
  {
    var ptr := Slot(s.inum, MAXFILE);
    var ind := AddrOf(g, disk, inodes, ptr);
    assert InData(g, b);
    EntryAddrs(g, disk, inodes, owner, skip, pending, s, b, ptr);
    assert SlotOk(g, disk, inodes, owner, ptr);
    var d, owner' := WithEntry(disk, ind, s.k - NDIRECT, b), owner[b := s];
    forall t | ValidSlot(g, t)
      ensures AddrOf(g, d, inodes, t) == if t == s then b else AddrOf(g, disk, inodes, t)
    {
      EntryAddrs(g, disk, inodes, owner, skip, pending, s, b, t);
    }
    forall c | 0 <= c < g.size
      ensures BitOk(g, d, owner', pending - {b}, c)
    {
      assert BitOk(g, disk, owner, pending, c);
      BitBlocksAreMeta(g, c);
      assert BitOk(g, disk, owner, pending, ind);
    }
    hide AddrOf, WithEntry, BitOk;
    forall t | ValidSlot(g, t) && t !in skip
      ensures SlotOk(g, d, inodes, owner', t)
    {
      assert SlotOk(g, disk, inodes, owner, t);
    }
    forall c | c in owner'
      ensures BlockHasOwner(g, d, inodes, owner', skip, c)
    {
      if c != b {
        assert BlockHasOwner(g, disk, inodes, owner, skip, c);
      }
    }
  }

  // ----- Data

  /** Writing a data block changes no slot and no mark. */
  lemma WriteKeepsInv(g: Geo, disk: Disk, inodes: seq<Inode>, owner: map<int, Slot>, s: Slot, blk: Block)
    requires Inv(g, disk, inodes, owner, {}, {}) && ValidSlot(g, s) && s.k < MAXFILE && |blk| == BSIZE
    requires AddrOf(g, disk, inodes, s) != 0
    ensures InData(g, AddrOf(g, disk, inodes, s))
    ensures var d := disk[AddrOf(g, disk, inodes, s) := blk];
      && Inv(g, d, inodes, owner, {}, {})
      && forall t :: ValidSlot(g, t) ==> AddrOf(g, d, inodes, t) == AddrOf(g, disk, inodes, t)
  {
    var b := AddrOf(g, disk, inodes, s);
    assert SlotOk(g, disk, inodes, owner, s);
    assert BlockHasOwner(g, disk, inodes, owner, {}, b);
    var d := disk[b := blk];
    forall t | ValidSlot(g, t)
      ensures AddrOf(g, d, inodes, t) == AddrOf(g, disk, inodes, t)
    {
      NamedOnce(g, disk, inodes, owner, {}, {}, Slot(t.inum, MAXFILE), s);
      AddrFrame(g, disk, d, inodes, inodes, t);
    }
    forall t | ValidSlot(g, t)
      ensures SlotOk(g, d, inodes, owner, t)
    {
      assert SlotOk(g, disk, inodes, owner, t);
    }
    forall c | c in owner
      ensures BlockHasOwner(g, d, inodes, owner, {}, c)
    {
      assert BlockHasOwner(g, disk, inodes, owner, {}, c);
    }
    forall c | 0 <= c < g.size
      ensures BitOk(g, d, owner, {}, c)
    {
      assert BitOk(g, disk, owner, {}, c);
      BitBlocksAreMeta(g, c);
    }
  }

  // ----- Release

  /** bfree's two writes: zeros, then the mark. */
  ghost function Freed(g: Geo, disk: Disk, b: int): Disk
    requires GeoOk(g) && |disk| == g.size && InData(g, b) && |disk[BitBlock(g, b)]| == BSIZE
  {
    disk[b := ZeroBlock()][BitBlock(g, b) := ClearBit(disk[BitBlock(g, b)], b % BPB)]
  }

  lemma FreedMarks(g: Geo, disk: Disk, inodes: seq<Inode>, b: int, c: int)
    requires Shape(g, disk, inodes) && InData(g, b) && 0 <= c < g.size
    ensures Shape(g, Freed(g, disk, b), inodes)
    ensures Marked(g, Freed(g, disk, b), c) <==> c != b && Marked(g, disk, c)
    ensures MetaKept(g, disk, Freed(g, disk, b))
    ensures Freed(g, disk, b)[c] == if c == b then ZeroBlock() else if c == BitBlock(g, b) then Freed(g, disk, b)[c]
      else disk[c]
  {
    BitBlocksAreMeta(g, b);
    BitBlocksAreMeta(g, c);
    ClearBitAt(disk[BitBlock(g, b)], b % BPB, c % BPB);
    hide BitAt, ClearBit;
    if BitBlock(g, b) == BitBlock(g, c) {
      assert b / BPB == c / BPB;
      assert b % BPB == c % BPB ==> b == c;
    }
  }

  /** Freeing the block of slot s, which from then on is skipped until it is reset. */
  lemma FreeKeepsInv(g: Geo, disk: Disk, inodes: seq<Inode>, owner: map<int, Slot>, skip: set<Slot>, s: Slot)
    requires Inv(g, disk, inodes, owner, skip, {}) && ValidSlot(g, s) && s !in skip && AddrOf(g, disk, inodes, s) != 0
    requires forall t :: ValidSlot(g, t) && t.k == MAXFILE ==> t !in skip
    requires s.k == MAXFILE ==> forall t :: ValidSlot(g, t) && t.inum == s.inum && NDIRECT <= t.k < MAXFILE ==>
      t in skip
    ensures InData(g, AddrOf(g, disk, inodes, s)) && Marked(g, disk, AddrOf(g, disk, inodes, s))
    ensures var b := AddrOf(g, disk, inodes, s);
      && Inv(g, Freed(g, disk, b), inodes, owner - {b}, skip + {s}, {})
      && (forall t :: ValidSlot(g, t) && (s.k == MAXFILE && NDIRECT <= t.k < MAXFILE ==> t.inum != s.inum) ==>
        AddrOf(g, Freed(g, disk, b), inodes, t) == AddrOf(g, disk, inodes, t))
  {
    var b := AddrOf(g, disk, inodes, s);
    assert SlotOk(g, disk, inodes, owner, s);
    assert BlockHasOwner(g, disk, inodes, owner, skip, b);
    assert BitOk(g, disk, owner, {}, b);
    var d := Freed(g, disk, b);
    BitBlocksAreMeta(g, b);
    FreedMarks(g, disk, inodes, b, b);
    hide Freed;
    forall t | ValidSlot(g, t) && (s.k == MAXFILE && NDIRECT <= t.k < MAXFILE ==> t.inum != s.inum)
      ensures AddrOf(g, d, inodes, t) == AddrOf(g, disk, inodes, t)
    {
      var p := Slot(t.inum, MAXFILE);
      assert IndirectOk(g, inodes, t.inum);
      if p != s {
        NamedOnce(g, disk, inodes, owner, skip, {}, p, s);
      }
      var ind := AddrOf(g, disk, inodes, p);
      if ind != 0 {
        FreedMarks(g, disk, inodes, b, ind);
      }
      if p != s || t.k < NDIRECT || t.k == MAXFILE {
        AddrFrame(g, disk, d, inodes, inodes, t);
      }
    }
    forall t | ValidSlot(g, t) && t !in skip + {s}
      ensures SlotOk(g, d, inodes, owner - {b}, t)
    {
      assert SlotOk(g, disk, inodes, owner, t);
      NamedOnce(g, disk, inodes, owner, skip, {}, t, s);
    }
    forall c | c in owner - {b}
      ensures BlockHasOwner(g, d, inodes, owner - {b}, skip + {s}, c)
    {
      assert BlockHasOwner(g, disk, inodes, owner, skip, c);
    }
    forall c | 0 <= c < g.size
      ensures BitOk(g, d, owner - {b}, {}, c)
    {
      FreedMarks(g, disk, inodes, b, c);
      assert BitOk(g, disk, owner, {}, c);
      BitBlocksAreMeta(g, c);
    }
  }

  /** Slots that name nothing need not be skipped. */
  lemma UnskipKeepsInv(g: Geo, disk: Disk, i0: seq<Inode>, i1: seq<Inode>, owner: map<int, Slot>, skip: set<Slot>,
      gone: set<Slot>)
    requires Inv(g, disk, i0, owner, skip, {}) && Shape(g, disk, i1)
    requires forall t :: ValidSlot(g, t) ==> if t in gone then t in skip && AddrOf(g, disk, i1, t) == 0
      else AddrOf(g, disk, i1, t) == AddrOf(g, disk, i0, t)
    ensures Inv(g, disk, i1, owner, skip - gone, {})
  {
    forall t | ValidSlot(g, t) && t !in skip - gone
      ensures SlotOk(g, disk, i1, owner, t)
    {
      if t !in gone {
        assert SlotOk(g, disk, i0, owner, t);
      }
    }
    forall c | c in owner
      ensures BlockHasOwner(g, disk, i1, owner, skip - gone, c)
    {
      assert BlockHasOwner(g, disk, i0, owner, skip, c);
    }
    forall i | 0 <= i < |i1|
      ensures IndirectOk(g, i1, i)
    {
      assert IndirectOk(g, i0, i);
      var p := Slot(i, MAXFILE);
      assert AddrOf(g, disk, i1, p) == 0 || AddrOf(g, disk, i1, p) == AddrOf(g, disk, i0, p);
    }
  }
}
