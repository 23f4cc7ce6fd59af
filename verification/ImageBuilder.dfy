/** mkfs.c: the image builder, and that the kernel can read what it builds.
    While it works it keeps no bitmap, only freeblock, the first block not yet taken; the
    bitmap is written at the end. The proofs look at the image as it would be with every
    block below freeblock marked: that is a file system in the kernel's sense all along,
    taking the block at freeblock is an allocation in it, and writing the bitmap makes it
    the real one. */
module ImageBuilder {
  import opened Bytes
  import opened FsLayout
  import opened FsState
  import opened FileSystem

  /** The disk with the blocks below f marked. */
  ghost function MarkedTo(g: Geo, disk: Disk, f: int): (d: Disk)
    requires Blocks(g, disk) && 0 <= f <= g.size
    ensures Blocks(g, d)
    decreases f
  {
    if f == 0 then disk
    else
      var d := MarkedTo(g, disk, f - 1);
      BitBlocksAreMeta(g, f - 1);
      Allocated(g, d, f - 1)
  }

  function EmptyInodes(n: int): (s: seq<Inode>)
    requires 0 <= n
  {
    seq(n, _ => Inode(0, 0, NoAddrs()))
  }

  ghost predicate Blocks(g: Geo, disk: Disk) {
    GeoOk(g) && |disk| == g.size && forall b :: 0 <= b < |disk| ==> |disk[b]| == BSIZE
  }

  ghost predicate NoMarks(g: Geo, disk: Disk)
    requires Blocks(g, disk)
  {
    forall c :: 3 <= c < DataStart(g) ==> IsZero(disk[c])
  }

  lemma Unmarked(g: Geo, disk: Disk, c: int)
    requires Blocks(g, disk) && NoMarks(g, disk) && 0 <= c < g.size
    ensures !Marked(g, disk, c)
  {
    BitBlocksAreMeta(g, c);
  }

  lemma MarkOne(g: Geo, d: Disk, f: int, c: int)
    requires Blocks(g, d) && 0 <= f < g.size && 0 <= c < g.size
    ensures Blocks(g, Allocated(g, d, f)) && (Marked(g, Allocated(g, d, f), c) <==> c == f || Marked(g, d, c))
  {
    AllocatedMarks(g, d, EmptyInodes(g.ninodes), f, c);
    hide Marked, Allocated, BitBlock;
  }

  lemma {:induction false} MarkedToMarks(g: Geo, disk: Disk, f: int, c: int)
    requires Blocks(g, disk) && NoMarks(g, disk) && 0 <= f <= g.size && 0 <= c < g.size
    ensures Marked(g, MarkedTo(g, disk, f), c) <==> c < f
    decreases f
  {
    hide Marked, Allocated, BitBlock, IsZero, NoMarks, GeoOk;
    if f == 0 {
      Unmarked(g, disk, c);
    } else {
      MarkedToMarks(g, disk, f - 1, c);
      MarkOne(g, MarkedTo(g, disk, f - 1), f - 1, c);
    }
  }

  /** Marking concerns the bitmap only, so it commutes with writes elsewhere. */
  lemma {:induction false} MarkedToData(g: Geo, disk: Disk, f: int, b: int, blk: Block)
    requires Blocks(g, disk) && 0 <= f <= g.size && InData(g, b) && |blk| == BSIZE
    ensures MarkedTo(g, disk[b := blk], f) == MarkedTo(g, disk, f)[b := blk]
    ensures MarkedTo(g, disk, f)[b] == disk[b]
    decreases f
  {
    hide Allocated, BitBlock, InData, GeoOk, SetBit;
    if f > 0 {
      MarkedToData(g, disk, f - 1, b, blk);
      MarkThenWrite(g, MarkedTo(g, disk, f - 1), f - 1, b, blk);
    }
  }

  lemma MarkThenWrite(g: Geo, d: Disk, c: int, b: int, blk: Block)
    requires Blocks(g, d) && 0 <= c < g.size && InData(g, b) && |blk| == BSIZE
    ensures |d[BitBlock(g, c)]| == BSIZE
    ensures Allocated(g, d[b := blk], c) == Allocated(g, d, c)[b := blk]
    ensures Allocated(g, d, c)[b] == d[b]
  {
    BitBlocksAreMeta(g, c);
    hide SetBit;
  }

  /** Blocks gained by inode i at file block bn: what was there stays, and a new data block is zero. */
  ghost predicate Grown(g: Geo, d0: Disk, i0: seq<Inode>, d1: Disk, i1: seq<Inode>, i: int, bn: int)
    requires Shape(g, d0, i0) && Shape(g, d1, i1) && 0 <= i < g.ninodes && 0 <= bn < MAXFILE
  {
    && (forall t :: ValidSlot(g, t) && AddrOf(g, d0, i0, t) != 0 ==> AddrOf(g, d1, i1, t) == AddrOf(g, d0, i0, t))
    && (forall t :: ValidSlot(g, t) && t != Slot(i, bn) && t != Slot(i, MAXFILE) ==>
      AddrOf(g, d1, i1, t) == AddrOf(g, d0, i0, t))
    && (forall t :: ValidSlot(g, t) && t.k < MAXFILE ==> DataKept(g, d0, i0, d1, t))
    && (forall j :: 0 <= j < g.ninodes ==>
      i1[j].size == i0[j].size && i1[j].meta == i0[j].meta && (j != i ==> i1[j] == i0[j]))
    && var b := AddrOf(g, d1, i1, Slot(i, bn));
       AddrOf(g, d0, i0, Slot(i, bn)) == 0 && b != 0 ==> InData(g, b) && IsZero(d1[b])
  }

  lemma GrownTwice(g: Geo, d0: Disk, i0: seq<Inode>, d1: Disk, i1: seq<Inode>, d2: Disk, i2: seq<Inode>, i: int,
      bn: int)
    requires Shape(g, d0, i0) && Shape(g, d1, i1) && Shape(g, d2, i2) && 0 <= i < g.ninodes && 0 <= bn < MAXFILE
    requires Grown(g, d0, i0, d1, i1, i, bn) && Grown(g, d1, i1, d2, i2, i, bn)
    requires AddrOf(g, d1, i1, Slot(i, bn)) == 0 || (d1 == d2 && i1 == i2)
    ensures Grown(g, d0, i0, d2, i2, i, bn)
  {
    hide AddrOf;
    forall t | ValidSlot(g, t) && t.k < MAXFILE
      ensures DataKept(g, d0, i0, d2, t)
    {
      assert DataKept(g, d0, i0, d1, t) && DataKept(g, d1, i1, d2, t);
    }
  }

  /** Growing changes no byte of any file. */
  lemma GrownBytes(g: Geo, d0: Disk, i0: seq<Inode>, d1: Disk, i1: seq<Inode>, i: int, bn: int, j: int, k: int)
    requires Shape(g, d0, i0) && Shape(g, d1, i1) && 0 <= i < g.ninodes && 0 <= bn < MAXFILE
    requires Grown(g, d0, i0, d1, i1, i, bn) && 0 <= j < g.ninodes && 0 <= k < MAXFILE * BSIZE
    ensures ByteAt(g, d1, i1, j, k) == ByteAt(g, d0, i0, j, k)
  {
    assert DataKept(g, d0, i0, d1, Slot(j, k / BSIZE));
    hide AddrOf;
  }

  /** A fresh block becomes a direct block or the indirect block of inode i. */
  lemma SlotAllocated(g: Geo, d0: Disk, inodes: seq<Inode>, owner: map<int, Slot>, s: Slot, bn: int, b: int)
    requires Inv(g, d0, inodes, owner, {}, {}) && ValidSlot(g, s) &&
      ((s.k < NDIRECT && s.k == bn) || s.k == MAXFILE) && 0 <= bn < MAXFILE
    requires InData(g, b) && !Marked(g, d0, b) && AddrOf(g, d0, inodes, s) == 0
    ensures Inv(g, Allocated(g, d0, b), WithAddr(inodes, s.inum, AddrIndex(s.k), b), owner[b := s], {}, {})
    ensures Grown(g, d0, inodes, Allocated(g, d0, b), WithAddr(inodes, s.inum, AddrIndex(s.k), b), s.inum, bn)
    ensures AddrOf(g, Allocated(g, d0, b), WithAddr(inodes, s.inum, AddrIndex(s.k), b), s) == b
    ensures s.k == MAXFILE ==> NDIRECT <= bn ==>
      AddrOf(g, Allocated(g, d0, b), WithAddr(inodes, s.inum, AddrIndex(s.k), b), Slot(s.inum, bn)) == 0
  {
    AllocateKeepsInv(g, d0, inodes, owner, {}, {}, b);
    AllocatedKeepsAddrs(g, d0, inodes, owner, {}, {}, b);
    assert {} + {b} == {b} && {b} - {b} == {};
    LinkInInode(g, Allocated(g, d0, b), inodes, owner, {}, {b}, s, b);
    assert NDIRECT <= bn && AddrOf(g, d0, inodes, Slot(s.inum, MAXFILE)) == 0 ==>
      AddrOf(g, d0, inodes, Slot(s.inum, bn)) == 0;
    hide AddrOf, Inv;
  }

  /** What the loop of iappend keeps: the disk, marked up to freeblock, is a file system. */
  ghost predicate Building(g: Geo, disk: Disk, inodes: seq<Inode>, owner: map<int, Slot>, freeblock: int) {
    && Blocks(g, disk) && NoMarks(g, disk)
    && DataStart(g) <= freeblock <= g.size
    && Inv(g, MarkedTo(g, disk, freeblock), inodes, owner, {}, {})
  }

  /** The block at freeblock is taken for slot s, in the inode or its indirect block. */
  lemma BlockTaken(g: Geo, disk: Disk, inodes: seq<Inode>, owner: map<int, Slot>, f: int)
    requires Building(g, disk, inodes, owner, f) && f < g.size
    ensures InData(g, f) && !Marked(g, MarkedTo(g, disk, f), f)
    ensures MarkedTo(g, disk, f + 1) == Allocated(g, MarkedTo(g, disk, f), f)
  {
    MarkedToMarks(g, disk, f, f);
    BitBlocksAreMeta(g, f);
  }

  lemma BlockWritten(g: Geo, disk: Disk, f: int, b: int, blk: Block)
    requires Blocks(g, disk) && NoMarks(g, disk) && 0 <= f <= g.size && InData(g, b) && |blk| == BSIZE
    ensures Blocks(g, disk[b := blk]) && NoMarks(g, disk[b := blk])
    ensures MarkedTo(g, disk[b := blk], f) == MarkedTo(g, disk, f)[b := blk] && MarkedTo(g, disk, f)[b] == disk[b]
  {
    MarkedToData(g, disk, f, b, blk);
    hide Marked;
  }

  lemma GrownNot(g: Geo, disk: Disk, inodes: seq<Inode>, i: int, bn: int)
    requires Shape(g, disk, inodes) && 0 <= i < g.ninodes && 0 <= bn < MAXFILE
    ensures Grown(g, disk, inodes, disk, inodes, i, bn)
  {
  }

  lemma BuildingShape(g: Geo, disk: Disk, inodes: seq<Inode>, owner: map<int, Slot>, f: int)
    requires Building(g, disk, inodes, owner, f)
    ensures Shape(g, MarkedTo(g, disk, f), inodes)
    ensures forall i :: 0 <= i < |inodes| ==> IndirectOk(g, inodes, i)
  {
  }

  /** Since the state d0, i0, inode i may have gained blocks at file block fbn, and the image is still well built. */
  ghost predicate Taken(g: Geo, d0: Disk, i0: seq<Inode>, disk: Disk, i1: seq<Inode>, owner: map<int, Slot>, f: int,
      i: int, fbn: int) {
    && Building(g, disk, i1, owner, f) && Shape(g, d0, i0) && 0 <= i < g.ninodes && 0 <= fbn < MAXFILE
    && Grown(g, d0, i0, MarkedTo(g, disk, f), i1, i, fbn)
  }

  /** And x is its block there. */
  ghost predicate TakenAt(g: Geo, d0: Disk, i0: seq<Inode>, disk: Disk, i1: seq<Inode>, owner: map<int, Slot>, f: int,
      i: int, fbn: int, x: int) {
    Taken(g, d0, i0, disk, i1, owner, f, i, fbn) && x == AddrOf(g, MarkedTo(g, disk, f), i1, Slot(i, fbn)) != 0
  }

  /** The inode and its indirect pointer have no block at fbn yet. */
  ghost predicate Missing(g: Geo, disk: Disk, inodes: seq<Inode>, owner: map<int, Slot>, f: int, s: Slot)
  {
    && Building(g, disk, inodes, owner, f) && f < g.size && ValidSlot(g, s)
    && AddrOf(g, MarkedTo(g, disk, f), inodes, s) == 0
  }

  /** What rsect of the indirect block finds for file block fbn. */
  lemma EntryRead(g: Geo, disk: Disk, inodes: seq<Inode>, owner: map<int, Slot>, f: int, i: int, fbn: int)
    requires Building(g, disk, inodes, owner, f) && 0 <= i < g.ninodes && NDIRECT <= fbn < MAXFILE
    requires |inodes[i].addrs| == NDIRECT + 1 && inodes[i].addrs[NDIRECT] != 0
    ensures var ind := inodes[i].addrs[NDIRECT];
      InData(g, ind) && Word(disk[ind], fbn - NDIRECT) == AddrOf(g, MarkedTo(g, disk, f), inodes, Slot(i, fbn))
  {
    assert IndirectOk(g, inodes, i);
    MarkedToData(g, disk, f, inodes[i].addrs[NDIRECT], disk[inodes[i].addrs[NDIRECT]]);
  }

  /** iappend takes the block at f as inode i's direct block fbn, or as its indirect block. */
  lemma SlotTaken(g: Geo, disk: Disk, inodes: seq<Inode>, owner: map<int, Slot>, s: Slot, fbn: int, f: int)
    requires Missing(g, disk, inodes, owner, f, s) && 0 <= fbn < MAXFILE
    requires (s.k < NDIRECT && s.k == fbn) || s.k == MAXFILE
    ensures 0 <= s.inum < |inodes| && |inodes[s.inum].addrs| == NDIRECT + 1
    ensures Taken(g, MarkedTo(g, disk, f), inodes, disk, WithAddr(inodes, s.inum, AddrIndex(s.k), f), owner[f := s],
      f + 1, s.inum, fbn)
  {
    BlockTaken(g, disk, inodes, owner, f);
    SlotAllocated(g, MarkedTo(g, disk, f), inodes, owner, s, fbn, f);
    hide Inv, NoMarks, MarkedTo, Marked, AddrOf, Grown;
  }

  /** iappend takes the block at f as an entry of the indirect block, and writes that. */
  lemma EntryTaken(g: Geo, disk: Disk, inodes: seq<Inode>, owner: map<int, Slot>, s: Slot, f: int, ind: int)
    requires Missing(g, disk, inodes, owner, f, s) && NDIRECT <= s.k < MAXFILE
    requires ind == inodes[s.inum].addrs[NDIRECT] && InData(g, ind)
    ensures TakenAt(g, MarkedTo(g, disk, f), inodes, disk[ind := PutWord(disk[ind], s.k - NDIRECT, f)], inodes,
      owner[f := s], f + 1, s.inum, s.k, f)
  {
    hide Inv, MarkedTo, NoMarks, PutWord, Word, Marked, Allocated, IsZero, Grown, DataKept;
    BuildingShape(g, disk, inodes, owner, f);
    BlockTaken(g, disk, inodes, owner, f);
    EntryGrown(g, MarkedTo(g, disk, f), inodes, owner, s, f);
    EntryMarks(g, disk, s.k - NDIRECT, f, ind);
  }

  lemma EntryGrown(g: Geo, d0: Disk, inodes: seq<Inode>, owner: map<int, Slot>, s: Slot, b: int)
    requires Inv(g, d0, inodes, owner, {}, {}) && ValidSlot(g, s) && NDIRECT <= s.k < MAXFILE
    requires InData(g, b) && !Marked(g, d0, b)
    requires inodes[s.inum].addrs[NDIRECT] != 0 && AddrOf(g, d0, inodes, s) == 0
    ensures InData(g, inodes[s.inum].addrs[NDIRECT])
    ensures var d := WithEntry(Allocated(g, d0, b), inodes[s.inum].addrs[NDIRECT], s.k - NDIRECT, b);
      Inv(g, d, inodes, owner[b := s], {}, {}) && Grown(g, d0, inodes, d, inodes, s.inum, s.k) &&
        AddrOf(g, d, inodes, s) == b
  {
    EntryAllocated(g, d0, inodes, owner, s, b);
    var p := Slot(s.inum, MAXFILE);
    assert AddrOf(g, d0, inodes, p) == inodes[s.inum].addrs[NDIRECT];
  }

  lemma EntryMarks(g: Geo, disk: Disk, j: int, f: int, ind: int)
    requires Blocks(g, disk) && NoMarks(g, disk) && 0 <= f < g.size && 0 <= j < NINDIRECT && InData(g, ind)
    ensures var disk' := disk[ind := PutWord(disk[ind], j, f)];
      && Blocks(g, disk') && NoMarks(g, disk')
      && |MarkedTo(g, disk, f)[BitBlock(g, f)]| == BSIZE
      && MarkedTo(g, disk', f + 1) == WithEntry(Allocated(g, MarkedTo(g, disk, f), f), ind, j, f)
  {
    BitBlocksAreMeta(g, f);
    hide NoMarks, PutWord, Word, BitBlock;
    BlockWritten(g, disk, f + 1, ind, PutWord(disk[ind], j, f));
    BlockWritten(g, disk, f, ind, disk[ind]);
    MarkThenWrite(g, MarkedTo(g, disk, f), f, ind, disk[ind]);
  }

  /** Neither the pointer nor the entry was missing, or one was, or both. */
  lemma TakenTwice(g: Geo, d0: Disk, i0: seq<Inode>, disk1: Disk, i1: seq<Inode>, owner1: map<int, Slot>, f1: int,
                   disk2: Disk, owner2: map<int, Slot>, f2: int, i: int, fbn: int, x: int)
    requires Taken(g, d0, i0, disk1, i1, owner1, f1, i, fbn) && Missing(g, disk1, i1, owner1, f1, Slot(i, fbn))
    requires TakenAt(g, MarkedTo(g, disk1, f1), i1, disk2, i1, owner2, f2, i, fbn, x)
    ensures TakenAt(g, d0, i0, disk2, i1, owner2, f2, i, fbn, x)
  {
    GrownTwice(g, d0, i0, MarkedTo(g, disk1, f1), i1, MarkedTo(g, disk2, f2), i1, i, fbn);
    hide Inv, NoMarks, MarkedTo, AddrOf, Grown;
  }

  lemma SuperWords(size: int, nblocks: int, ninodes: int)
    requires 0 <= size < U32 && 0 <= nblocks < U32 && 0 <= ninodes < U32
    ensures var sb := SuperBlock(size, nblocks, ninodes);
      |sb| == BSIZE && Word(sb, 0) == size && Word(sb, 1) == nblocks && Word(sb, 2) == ninodes
  {
    var s0 := PutWord(ZeroBlock(), 0, size);
    var s1 := PutWord(s0, 1, nblocks);
    PutWordWord(ZeroBlock(), 0, size, 0);
    PutWordWord(s0, 1, nblocks, 0);
    PutWordWord(s0, 1, nblocks, 1);
    PutWordWord(s1, 2, ninodes, 0);
    PutWordWord(s1, 2, ninodes, 1);
    PutWordWord(s1, 2, ninodes, 2);
    hide PutWord, Word, ZeroBlock;
  }

  function SuperBlock(size: int, nblocks: int, ninodes: int): Block {
    PutWord(PutWord(PutWord(ZeroBlock(), 0, size), 1, nblocks), 2, ninodes)
  }

  /** mkfs's blank image, marked up to the first data block, is a file system of empty files. */
  lemma EmptyImage(g: Geo, disk: Disk, sb: Block)
    requires GeoOk(g) && |sb| == BSIZE && disk == seq(g.size, _ => ZeroBlock())[1 := sb]
    ensures Building(g, disk, EmptyInodes(g.ninodes), map[], DataStart(g))
    ensures forall i :: 0 <= i < g.ninodes ==> NoHoles(g, MarkedTo(g, disk, DataStart(g)), EmptyInodes(g.ninodes), i)
  {
    var d, inodes, f := MarkedTo(g, disk, DataStart(g)), EmptyInodes(g.ninodes), DataStart(g);
    var owner: map<int, Slot> := map[];
    forall b | 0 <= b < g.size
      ensures BitOk(g, d, owner, {}, b)
    {
      BitBlocksAreMeta(g, b);
      MarkedToMarks(g, disk, f, b);
      if b >= f {
        MarkedToData(g, disk, f, b, disk[b]);
      }
    }
    hide MarkedTo;
  }

  /** The loop of iappend after done bytes. */
  ghost predicate Appending(g: Geo, d0: Disk, i0: seq<Inode>, disk: Disk, i1: seq<Inode>, owner: map<int, Slot>,
      f: int, i: int, p: seq<byte>, done: int) {
    && Building(g, disk, i1, owner, f) && Shape(g, d0, i0) && 0 <= i < g.ninodes && 0 <= i0[i].size && 0 <= done <= |p|
    && Writing(g, d0, i0, MarkedTo(g, disk, f), i1, i, p, i0[i].size, done)
  }

  lemma HolelessSize(g: Geo, disk: Disk, inodes: seq<Inode>, i: int)
    requires Shape(g, disk, inodes) && 0 <= i < g.ninodes && NoHoles(g, disk, inodes, i)
    ensures 0 <= inodes[i].size <= MAXFILE * BSIZE
  {
  }

  lemma GrownAt(g: Geo, d0: Disk, i0: seq<Inode>, d1: Disk, i1: seq<Inode>, i: int, bn: int)
    requires Shape(g, d0, i0) && Shape(g, d1, i1) && 0 <= i < g.ninodes && 0 <= bn < MAXFILE &&
      Grown(g, d0, i0, d1, i1, i, bn)
    ensures forall t :: ValidSlot(g, t) && AddrOf(g, d0, i0, t) != 0 ==> AddrOf(g, d1, i1, t) == AddrOf(g, d0, i0, t)
    ensures forall t :: ValidSlot(g, t) && t != Slot(i, bn) && t != Slot(i, MAXFILE) ==>
      AddrOf(g, d1, i1, t) == AddrOf(g, d0, i0, t)
    ensures forall j :: 0 <= j < g.ninodes ==>
      i1[j].size == i0[j].size && i1[j].meta == i0[j].meta && (j != i ==> i1[j] == i0[j])
  {
    hide AddrOf;
  }

  lemma WritingSizes(g: Geo, d0: Disk, i0: seq<Inode>, d1: Disk, i1: seq<Inode>, i: int, src: seq<byte>, off: int,
      tot: int)
    requires Shape(g, d0, i0) && Shape(g, d1, i1) && 0 <= i < g.ninodes && 0 <= off && 0 <= tot <= |src|
    requires Writing(g, d0, i0, d1, i1, i, src, off, tot)
    ensures forall j :: 0 <= j < g.ninodes ==> i1[j].size == i0[j].size
  {
    hide AddrOf, ByteAt;
  }

  lemma AppendingNone(g: Geo, disk: Disk, inodes: seq<Inode>, owner: map<int, Slot>, f: int, i: int, p: seq<byte>)
    requires Building(g, disk, inodes, owner, f) && 0 <= i < g.ninodes && NoHoles(g, MarkedTo(g, disk, f), inodes, i)
    ensures |inodes| == g.ninodes && 0 <= inodes[i].size <= MAXFILE * BSIZE
    ensures Appending(g, MarkedTo(g, disk, f), inodes, disk, inodes, owner, f, i, p, 0)
  {
  }

  /** The bytes of the files after one turn of iappend's loop. */
  lemma ChunkBytes(g: Geo, d0: Disk, i0: seq<Inode>, d1: Disk, i1: seq<Inode>, d2: Disk, i2: seq<Inode>,
      owner: map<int, Slot>, i: int, p: seq<byte>, done: int, n1: int)
    requires Shape(g, d0, i0) && Shape(g, d1, i1) && Inv(g, d2, i2, owner, {}, {}) && 0 <= i < g.ninodes &&
      0 <= i0[i].size && 0 <= done
    requires 0 < n1 <= BSIZE - (i0[i].size + done) % BSIZE && done + n1 <= |p| && i0[i].size + done < MAXFILE * BSIZE
    requires Writing(g, d0, i0, d1, i1, i, p, i0[i].size, done)
    requires Grown(g, d1, i1, d2, i2, i, (i0[i].size + done) / BSIZE)
    requires AddrOf(g, d2, i2, Slot(i, (i0[i].size + done) / BSIZE)) != 0
    ensures var x := AddrOf(g, d2, i2, Slot(i, (i0[i].size + done) / BSIZE));
      && InData(g, x)
      && var d3 := d2[x := Spliced(d2[x], (i0[i].size + done) % BSIZE, p[done..done + n1])];
      && |d3[x]| == BSIZE
      && Inv(g, d3, i2, owner, {}, {})
      && Writing(g, d0, i0, d3, i2, i, p, i0[i].size, done + n1)
  {
    hide Inv, ByteAt, AddrOf, Spliced, Grown, Writing;
    var at := i0[i].size + done;
    var s, piece := Slot(i, at / BSIZE), p[done..done + n1];
    InvShape(g, d2, i2, owner, {}, {});
    var x := AddrOf(g, d2, i2, s);
    NamedOnce(g, d2, i2, owner, {}, {}, s, Slot(i, MAXFILE));
    GrownAt(g, d1, i1, d2, i2, i, at / BSIZE);
    WritingSizes(g, d0, i0, d1, i1, i, p, i0[i].size, done);
    WriteKeepsInv(g, d2, i2, owner, s, d2[x]);
    var blk := Spliced(d2[x], at % BSIZE, piece);
    WriteKeepsInv(g, d2, i2, owner, s, blk);
    var d3 := d2[x := blk];
    InvShape(g, d3, i2, owner, {}, {});
    forall j, k | 0 <= j < g.ninodes && 0 <= k < MAXFILE * BSIZE
      ensures ByteAt(g, d3, i2, j, k) == if j == i && at <= k < at + n1 then piece[k - at] else ByteAt(g, d1, i1, j, k)
    {
      GrownBytes(g, d1, i1, d2, i2, i, at / BSIZE, j, k);
      WrittenByte(g, d2, i2, owner, i, at, piece, j, k);
    }
    WritingStep(g, d0, i0, d1, i1, d3, i2, i, p, i0[i].size, done, n1);
  }

  /** One turn of iappend's loop. */
  lemma ChunkStored(g: Geo, d0: Disk, i0: seq<Inode>, disk1: Disk, i1: seq<Inode>, owner1: map<int, Slot>, f1: int,
      disk: Disk, i2: seq<Inode>, owner: map<int, Slot>, f: int, i: int, p: seq<byte>, done: int,
      n1: int, x: int)
    requires Appending(g, d0, i0, disk1, i1, owner1, f1, i, p, done)
    requires 0 < n1 <= BSIZE - (i0[i].size + done) % BSIZE && done + n1 <= |p| && i0[i].size + done < MAXFILE * BSIZE
    requires TakenAt(g, MarkedTo(g, disk1, f1), i1, disk, i2, owner, f, i, (i0[i].size + done) / BSIZE, x)
    ensures InData(g, x) && |disk| == g.size && |disk[x]| == BSIZE
    ensures Appending(g, d0, i0, disk[x := Spliced(disk[x], (i0[i].size + done) % BSIZE, p[done..done + n1])], i2,
      owner, f, i, p, done + n1)
  {
    hide Inv, Writing, Grown, MarkedTo, AddrOf, Spliced, NoMarks;
    ChunkBytes(g, d0, i0, MarkedTo(g, disk1, f1), i1, MarkedTo(g, disk, f), i2, owner, i, p, done, n1);
    BlockWritten(g, disk, f, x, disk[x]);
    BlockWritten(g, disk, f, x, Spliced(disk[x], (i0[i].size + done) % BSIZE, p[done..done + n1]));
  }

  /** After iappend's loop, the file with its new size is the old one and p, and the others are as they were. */
  lemma AppendDone(g: Geo, d0: Disk, i0: seq<Inode>, disk: Disk, i1: seq<Inode>, owner: map<int, Slot>, f: int, i: int,
      p: seq<byte>)
    requires Appending(g, d0, i0, disk, i1, owner, f, i, p, |p|) && NoHoles(g, d0, i0, i) &&
      i0[i].size + |p| <= MAXFILE * BSIZE
    ensures |i1| == |i0| && |MarkedTo(g, disk, f)| == g.size
    ensures var i2 := Resized(i1, i, i0[i].size + |p|);
      && Building(g, disk, i2, owner, f)
      && NoHoles(g, MarkedTo(g, disk, f), i2, i) &&
        FileBytes(g, MarkedTo(g, disk, f), i2, i) == FileBytes(g, d0, i0, i) + p
      && (forall j :: 0 <= j < g.ninodes && j != i && NoHoles(g, d0, i0, j) ==>
        NoHoles(g, MarkedTo(g, disk, f), i2, j) && FileBytes(g, MarkedTo(g, disk, f), i2, j) == FileBytes(g, d0, i0, j))
  {
    hide Inv, MarkedTo, NoMarks, Writing, FileBytes, NoHoles;
    InvShape(g, MarkedTo(g, disk, f), i1, owner, {}, {});
    HolelessSize(g, d0, i0, i);
    WritingDone(g, d0, i0, MarkedTo(g, disk, f), i1, owner, i, p, i0[i].size, |p|);
    WritingSizes(g, d0, i0, MarkedTo(g, disk, f), i1, i, p, i0[i].size, |p|);
    assert |p| == 0 ==> Resized(i1, i, i0[i].size + |p|) == i1;
  }

  /** The finished bitmap marks exactly the blocks below freeblock, and the others are zero. */
  lemma MarkedToAll(g: Geo, disk: Disk, inodes: seq<Inode>, owner: map<int, Slot>, f: int)
    requires Building(g, disk, inodes, owner, f)
    ensures forall b :: 0 <= b < g.size ==> (Marked(g, MarkedTo(g, disk, f), b) <==> b < f)
    ensures forall b :: f <= b < g.size ==> IsZero(MarkedTo(g, disk, f)[b])
  {
    var d := MarkedTo(g, disk, f);
    forall b | 0 <= b < g.size
      ensures (Marked(g, d, b) <==> b < f) && (f <= b ==> IsZero(d[b]))
    {
      MarkedToMarks(g, disk, f, b);
      BitBlocksAreMeta(g, b);
      assert BitOk(g, d, owner, {}, b);
    }
    hide Marked, IsZero, MarkedTo, Inv;
  }

  lemma MarkStep(g: Geo, disk: Disk, i: int, bb: int, buf: Block)
    requires Blocks(g, disk) && 0 <= i < BPB && i < g.size && bb == g.ninodes / IPB + 3 && |buf| == BSIZE
    requires 0 <= bb < g.size && disk[bb := buf] == MarkedTo(g, disk, i)
    ensures |SetBit(buf, i)| == BSIZE && disk[bb := SetBit(buf, i)] == MarkedTo(g, disk, i + 1)
  {
    hide BitAt;
    BitBlocksAreMeta(g, i);
    assert BitBlock(g, i) == bb && i % BPB == i;
    assert disk[bb := buf][bb := SetBit(buf, i)] == disk[bb := SetBit(buf, i)];
  }

  class Image {
    const g: Geo
    const nblocks: int
    var disk: Disk
    var inodes: seq<Inode>
    var freeblock: int
    var usedblocks: int
    ghost var owner: map<int, Slot>

    ghost predicate Valid()
      reads this
    {
      && Building(g, disk, inodes, owner, freeblock)
      && usedblocks == freeblock
      && Labelled()
    }

    /** The superblock is in its place. */
    ghost predicate Labelled()
      reads this
    {
      0 <= nblocks < U32 && 0 <= g.ninodes < U32 && 1 < |disk| && disk[1] == SuperBlock(g.size, nblocks, g.ninodes)
    }

    ghost function Marks(): (d: Disk)
      reads this
      requires Blocks(g, disk) && 0 <= freeblock <= g.size
      ensures Blocks(g, d)
    {
      MarkedTo(g, disk, freeblock)
    }

    /** Files and their bytes, as the kernel will see them. */
    ghost predicate FileOk(i: int)
      reads this
    {
      Valid() && 0 <= i < g.ninodes && NoHoles(g, Marks(), inodes, i)
    }

    ghost function Content(i: int): (s: seq<byte>)
      reads this
      requires FileOk(i)
      ensures |s| == inodes[i].size
    {
      FileBytes(g, Marks(), inodes, i)
    }

    /** mkfs: an empty image, with its superblock. */
    constructor (nblocks: int, ninodes: int, size: int)
      requires 0 <= nblocks && 0 <= ninodes < U32 && size < U32
      requires nblocks + ninodes / IPB + 3 + size / BPB + 1 == size
      ensures Valid() && g == Geo(size, ninodes) && this.nblocks == nblocks && freeblock == DataStart(g)
      ensures forall i :: 0 <= i < ninodes ==> FileOk(i) && Content(i) == []
    {
      var geo := Geo(size, ninodes);
      g := geo;
      this.nblocks := nblocks;
      var sb := SuperBlock(size, nblocks, ninodes);
      var zeroes := seq(size, _ => ZeroBlock());
      disk := zeroes[1 := sb];
      inodes := EmptyInodes(ninodes);
      usedblocks, freeblock := DataStart(geo), DataStart(geo);
      owner := map[];
      EmptyImage(geo, zeroes[1 := sb], sb);
      hide Inv, MarkedTo, SuperBlock, ZeroBlock, NoMarks;
    }

    /** din.addrs[j], taken if it is zero: j is fbn, or NDIRECT for the indirect block. */
    method AddrFor(i: int, j: int, fbn: int, din0: Inode) returns (ok: bool, din: Inode)
      requires 0 <= i < |inodes| && 0 <= fbn < MAXFILE && usedblocks == freeblock
      requires j == if fbn < NDIRECT then fbn else NDIRECT
      requires Building(g, disk, inodes[i := din0], owner, freeblock)
      modifies this`freeblock, this`usedblocks, this`owner
      ensures ok ==>
        Taken(g, old(Marks()), inodes[i := din0], disk, inodes[i := din], owner, freeblock, i, fbn) &&
        usedblocks == freeblock
      ensures ok ==> |din.addrs| == NDIRECT + 1 && din.addrs[j] != 0
      ensures !ok ==> freeblock == g.size
    {
      hide Inv, NoMarks, MarkedTo, Marked, Grown, IsZero, Word, BitBlock, InData;
      din := din0;
      ghost var cur, s := inodes[i := din0], if fbn < NDIRECT then Slot(i, fbn) else Slot(i, MAXFILE);
      BuildingShape(g, disk, cur, owner, freeblock);
      assert cur[i] == din0;
      if din.addrs[j] == 0 {
        if freeblock == g.size {
          return false, din;
        }
        SlotTaken(g, disk, cur, owner, s, fbn, freeblock);
        din := din.(addrs := din.addrs[j := freeblock]);
        assert inodes[i := din] == WithAddr(cur, i, j, freeblock);
        owner := owner[freeblock := s];
        freeblock, usedblocks := freeblock + 1, usedblocks + 1;
      } else {
        GrownNot(g, Marks(), cur, i, fbn);
      }
      ok := true;
    }

    /** The part of iappend that finds or takes the block of file block fbn. din is the inode read by rinode. */
    method BlockFor(i: int, fbn: int, din0: Inode) returns (ok: bool, din: Inode, x: int)
      requires 0 <= i < |inodes| && 0 <= fbn < MAXFILE && usedblocks == freeblock
      requires Building(g, disk, inodes[i := din0], owner, freeblock)
      modifies this`disk, this`freeblock, this`usedblocks, this`owner
      ensures ok ==>
        TakenAt(g, old(Marks()), inodes[i := din0], disk, inodes[i := din], owner, freeblock, i, fbn, x) &&
        usedblocks == freeblock
      ensures !ok ==> freeblock == g.size
      ensures old(Labelled()) ==> Labelled()
    {
      hide Inv, MarkedTo, Grown, NoMarks, Word, SuperBlock;
      ok, din := AddrFor(i, if fbn < NDIRECT then fbn else NDIRECT, fbn, din0);
      if !ok {
        return false, din, 0;
      }
      ghost var cur := inodes[i := din];
      assert cur[i] == din;
      BuildingShape(g, disk, cur, owner, freeblock);
      if fbn < NDIRECT {
        return true, din, din.addrs[fbn];
      }
      EntryRead(g, disk, cur, owner, freeblock, i, fbn);
      x := Word(disk[din.addrs[NDIRECT]], fbn - NDIRECT);
      if x == 0 {
        if freeblock == g.size {
          return false, din, 0;
        }
        ghost var disk0, owner0, f0 := disk, owner, freeblock;
        x := EntryFor(i, fbn, din);
        TakenTwice(g, old(Marks()), inodes[i := din0], disk0, cur, owner0, f0, disk, owner, freeblock, i, fbn, x);
      }
    }

    /** indirect[fbn-NDIRECT] = freeblock++, and the write of the indirect block. */
    method EntryFor(i: int, fbn: int, din: Inode) returns (x: int)
      requires 0 <= i < |inodes| && NDIRECT <= fbn < MAXFILE && usedblocks == freeblock
      requires Missing(g, disk, inodes[i := din], owner, freeblock, Slot(i, fbn))
      requires |din.addrs| == NDIRECT + 1 && InData(g, din.addrs[NDIRECT])
      modifies this`disk, this`freeblock, this`usedblocks, this`owner
      ensures TakenAt(g, old(Marks()), inodes[i := din], disk, inodes[i := din], owner, freeblock, i, fbn, x) &&
        usedblocks == freeblock
      ensures old(Labelled()) ==> Labelled()
    {
      hide Inv, Grown, NoMarks, MarkedTo, Word, PutWord, AddrOf, SuperBlock;
      ghost var cur := inodes[i := din];
      var ind := din.addrs[NDIRECT];
      x := freeblock;
      EntryTaken(g, disk, cur, owner, Slot(i, fbn), freeblock, ind);
      disk := disk[ind := PutWord(disk[ind], fbn - NDIRECT, x)];
      owner := owner[freeblock := Slot(i, fbn)];
      freeblock, usedblocks := freeblock + 1, usedblocks + 1;
    }

    /** iappend: p is added at the end of the file, and no other file changes. It stops where the source's
        assertion on the file's size fails, or where the image has no more blocks. */
    method IAppend(i: int, p: seq<byte>) returns (ok: bool)
      requires FileOk(i)
      modifies this
      ensures ok ==> FileOk(i) && Content(i) == old(Content(i)) + p
      ensures ok ==> forall j :: j != i && old(FileOk(j)) ==> FileOk(j) && Content(j) == old(Content(j))
      ensures !ok ==> |old(Content(i))| + |p| > MAXFILE * BSIZE || freeblock == g.size
    {
      hide SuperBlock, Inv, MarkedTo, NoMarks, Writing, FileBytes, Spliced, NoHoles;
      var din;
      ghost var d0 := Marks();
      BuildingShape(g, disk, inodes, owner, freeblock);
      var size0 := inodes[i].size;
      ok, din := AppendLoop(i, p);
      if ok {
        AppendDone(g, d0, inodes, disk, inodes[i := din], owner, freeblock, i, p);
        assert inodes[i := din][i] == din;
        assert inodes[i := din][i := din.(size := size0 + |p|)] == inodes[i := din.(size := size0 + |p|)];
        din := din.(size := size0 + |p|);
        inodes := inodes[i := din];
      }
    }

    method AppendLoop(i: int, p: seq<byte>) returns (ok: bool, din: Inode)
      requires FileOk(i)
      modifies this`disk, this`freeblock, this`usedblocks, this`owner
      ensures ok ==>
        Appending(g, old(Marks()), inodes, disk, inodes[i := din], owner, freeblock, i, p, |p|) &&
        usedblocks == freeblock
      ensures ok ==> inodes[i].size + |p| <= MAXFILE * BSIZE
      ensures !ok ==> inodes[i].size + |p| > MAXFILE * BSIZE || freeblock == g.size
      ensures Labelled()
    {
      hide SuperBlock, Inv, MarkedTo, NoMarks, Writing, TakenAt, NoHoles, AddrOf, Spliced;
      ghost var d0 := Marks();
      AppendingNone(g, disk, inodes, owner, freeblock, i, p);
      din := inodes[i];
      var off := din.size;
      var n, done := |p|, 0;
      assert inodes[i := din] == inodes;
      while n > 0
        invariant 0 <= n && done + n == |p| && off == inodes[i].size + done && off <= MAXFILE * BSIZE
        invariant usedblocks == freeblock && Labelled()
        invariant Appending(g, d0, inodes, disk, inodes[i := din], owner, freeblock, i, p, done)
      {
        var fbn := off / BSIZE;
        if !(fbn < MAXFILE) {
          return false, din;
        }
        ghost var disk1, cur1, owner1, f1 := disk, inodes[i := din], owner, freeblock;
        var x;
        ok, din, x := BlockFor(i, fbn, din);
        if !ok {
          return;
        }
        var n1 := Min(n, (fbn + 1) * BSIZE - off);
        ChunkStored(g, d0, inodes, disk1, cur1, owner1, f1, disk, inodes[i := din], owner, freeblock, i, p, done, n1,
          x);
        disk := disk[x := Spliced(disk[x], off - fbn * BSIZE, p[done..done + n1])];
        n, off, done := n - n1, off + n1, done + n1;
      }
      ok := true;
    }

    /** balloc: the bitmap is written last. From here on the kernel can mount the image. */
    method Balloc() returns (ok: bool)
      requires Valid()
      modifies this`disk
      ensures ok <==> usedblocks < BPB
      ensures ok ==> disk == old(Marks()) && Inv(g, disk, inodes, owner, {}, {}) && Labelled()
      ensures ok ==> forall b :: 0 <= b < g.size ==> (Marked(g, disk, b) <==> b < freeblock)
      ensures ok ==> forall b :: freeblock <= b < g.size ==> IsZero(disk[b])
    {
      hide Inv, Marked, SetBit, BitAt, SuperBlock;
      if !(usedblocks < BPB) {
        return false;
      }
      var buf := ZeroBlock();
      var i := 0;
      var bb := g.ninodes / IPB + 3;
      BuildingShape(g, disk, inodes, owner, freeblock);
      BitBlocksAreMeta(g, 0);
      assert disk[bb] == ZeroBlock();
      assert disk[bb := buf] == disk;
      while i < usedblocks
        invariant 0 <= i <= usedblocks && |buf| == BSIZE && disk == old(disk)
        invariant disk[bb := buf] == MarkedTo(g, disk, i)
      {
        MarkStep(g, disk, i, bb, buf);
        buf := SetBit(buf, i);
        i := i + 1;
      }
      MarkedToAll(g, disk, inodes, owner, freeblock);
      disk := disk[bb := buf];
      ok := true;
    }
  }

  /** The kernel mounts the finished image: it finds the disk's geometry in the superblock, and readi returns exactly
      the bytes that iappend was given. */
  method Mount(img: Image) returns (fs: Fs)
    requires img.Valid() && img.usedblocks < BPB
    modifies img`disk
    ensures fresh(fs) && fs.Valid() && fs.disk == img.disk && 1 < |fs.disk| && |fs.disk[1]| == BSIZE &&
      fs.g == Readsb(fs.disk)
    ensures forall i :: old(img.FileOk(i)) ==> fs.FileOk(i) && fs.Content(i) == old(img.Content(i))
  {
    hide Inv, NoHoles, FileBytes, MarkedTo, NoMarks, SuperBlock, Word;
    GeometryFits(img);
    var ok := img.Balloc();
    SuperWords(img.g.size, img.nblocks, img.g.ninodes);
    fs := new Fs(Readsb(img.disk), img.disk, img.inodes, img.owner);
  }

  lemma GeometryFits(img: Image)
    requires img.Valid()
    ensures 0 <= img.g.size < U32 && 0 <= img.g.ninodes < U32
  {
  }
}
