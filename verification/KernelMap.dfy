/** setupkvm (vm.c): every new page directory gets the same kernel map, in exactly 13 frames.
    The four entries of kmap are adjacent in the order in which they are mapped, apart
    from the hole below the devices, and the last one ends at 2^32. So the map after
    entry i is the kernel's map up to a bound, and the page tables that exist then are
    those of the entries so far: four for addresses up to PHYSTOP, the first of them
    shared by user memory and the I/O space, and eight for the devices. */
module KernelMap {
  import opened Bytes
  import opened PageTables
  import opened FramePool

  const USERTOP := 0xA0000
  const PHYSTOP := 0x100_0000
  const DEVSPACE := 0xFE00_0000

  /** An entry of kmap[]: addresses p to e, the same in physical memory. */
  datatype Kmap = Kmap(p: int, e: int, w: bool)

  function KmapTable(kdata: int): (t: seq<Kmap>)
    ensures |t| == 4
  {
    [Kmap(USERTOP, 0x10_0000, true), Kmap(0x10_0000, kdata * PGSIZE, false), Kmap(kdata * PGSIZE, PHYSTOP, true),
      Kmap(DEVSPACE, 0, true)]
  }

  /** The translation of page v outside user space that the comment above setupkvm lays out. */
  function KernelPte(kdata: int, v: int): Pte {
    if UPAGES <= v < NFRAMES then Pte(true, v, !(256 <= v < kdata), false)
    else if DEVSPACE / PGSIZE <= v < VPAGES then Pte(true, v, true, false)
    else NOPTE
  }

  /** Where the first i entries of kmap end, with the gap below the devices taken as part of the third. */
  function Bound(kdata: int, i: int): int {
    if i == 0 then UPAGES else if i == 1 then 256 else if i == 2 then kdata else if i == 3 then DEVSPACE / PGSIZE
      else VPAGES
  }

  /** Which page tables the first i entries of kmap need. */
  predicate Needs(kdata: int, i: int, j: int) {
    if i == 0 then false else if i == 1 then j == 0 else if i == 2 then 0 <= j <= (kdata - 1) / NPTE
      else 0 <= j < 4 || (i == 4 && 1016 <= j < NPTE)
  }

  /** The frames that the directory and those tables take. */
  function Taken(kdata: int, i: int): int {
    if i == 0 then 1 else if i == 1 then 2 else if i == 2 then 2 + (kdata - 1) / NPTE else if i == 3 then 5 else 13
  }

  ghost predicate MapTo(m: Mem, kdata: int, d: int, i: int) {
    forall v :: 0 <= v < VPAGES ==> Lookup(m, d, v) == if v < Bound(kdata, i) then KernelPte(kdata, v) else NOPTE
  }

  ghost predicate TablesTo(m: Mem, kdata: int, d: int, i: int) {
    forall j :: 0 <= j < NPTE ==> (Entry(m, d, j).p <==> Needs(kdata, i, j))
  }

  /** The whole kernel map, and the table that all user pages are in. */
  ghost predicate Ready(m: Mem, kdata: int, d: int) {
    && (forall v :: UPAGES <= v < VPAGES ==> Lookup(m, d, v) == KernelPte(kdata, v))
    && Entry(m, d, 0).p
  }

  lemma {:induction false} MissingEvery(m: Mem, d: int, i: int, n: int, p: bool)
    requires i <= n && forall j :: i <= j < n ==> Entry(m, d, j).p == p
    ensures Missing(m, d, i, n) == if p then 0 else n - i
    decreases n - i
  {
    if i < n {
      MissingEvery(m, d, i, n - 1, p);
    }
  }

  function First(kdata: int, i: int): int {
    if i == 0 then UPAGES else if i == 1 then 256 else if i == 2 then kdata else DEVSPACE / PGSIZE
  }

  function Last(kdata: int, i: int): int {
    if i == 0 then 255 else if i == 1 then kdata - 1 else if i == 2 then NFRAMES - 1 else VPAGES - 1
  }

  /** Each entry of kmap needs the frames that Taken says. */
  lemma KmapFrames(m: Mem, kdata: int, d: int, i: int)
    requires 256 < kdata < NFRAMES && 0 <= i < 4 && TablesTo(m, kdata, d, i)
    ensures Missing(m, d, First(kdata, i) / NPTE, Last(kdata, i) / NPTE + 1) == Taken(kdata, i + 1) - Taken(kdata, i)
    ensures Taken(kdata, i + 1) <= 13
  {
    var top := (kdata - 1) / NPTE;
    if i == 0 {
      MissingEvery(m, d, 0, 1, false);
    } else if i == 1 {
      MissingSplit(m, d, 0, 1, top + 1);
      MissingEvery(m, d, 0, 1, true);
      MissingEvery(m, d, 1, top + 1, false);
    } else if i == 2 {
      var mid := if kdata / NPTE <= top then top + 1 else kdata / NPTE;
      MissingSplit(m, d, kdata / NPTE, mid, 4);
      MissingEvery(m, d, kdata / NPTE, mid, true);
      MissingEvery(m, d, mid, 4, false);
    } else {
      MissingEvery(m, d, 1016, 1024, false);
    }
  }

  lemma KmapMaps(m0: Mem, m1: Mem, dirs: set<int>, kdata: int, d: int, i: int)
    requires 256 < kdata < NFRAMES && 0 <= i < 4 && d in dirs && MapTo(m0, kdata, d, i)
    requires Mapping(m0, m1, dirs, d, First(kdata, i), Last(kdata, i) + 1, First(kdata, i), KmapTable(kdata)[i].w,
      false)
    ensures MapTo(m1, kdata, d, i + 1)
  {
    hide Lookup;
  }

  lemma KmapTables(m0: Mem, m1: Mem, dirs: set<int>, kdata: int, d: int, i: int)
    requires 256 < kdata < NFRAMES && 0 <= i < 4 && d in dirs && TablesTo(m0, kdata, d, i)
    requires Tabled(m0, m1, dirs, d, First(kdata, i) / NPTE, Last(kdata, i) / NPTE + 1)
    ensures TablesTo(m1, kdata, d, i + 1)
  {
    hide Lookup, Entry;
  }

  /** The addresses that setupkvm computes from an entry of kmap, where the last one ends at 2^32. */
  lemma KmapRange(kdata: int, i: int)
    requires 256 < kdata < NFRAMES && 0 <= i < 4
    ensures var k := KmapTable(kdata)[i];
      && 0 <= k.p < U32 && k.p % PGSIZE == 0 && 0 < (k.e - k.p) % U32 && k.p + (k.e - k.p) % U32 <= U32
      && k.p / PGSIZE == First(kdata, i) && (k.p + (k.e - k.p) % U32 - 1) / PGSIZE == Last(kdata, i)
      && UPAGES <= First(kdata, i)
  {
  }

  /** setupkvm. A new directory costs 13 frames, and 0 is returned exactly if there are fewer;
      in that case the source gives back nothing, so the frames it got are lost. */
  method Setupkvm(s: Machine) returns (d: int)
    requires s.Valid()
    modifies s
    ensures s.Valid() && s.held == old(s.held)
    ensures d == 0 <==> |old(s.freelist)| < 13
    ensures d == 0 ==> s.freelist == []
    ensures d == 0 && |old(s.freelist)| > 0 ==> exists e :: e in s.dirs && e !in old(s.dirs)
    ensures d == 0 ==> s.dirs >= old(s.dirs) && SameMaps(old(s.mem), s.mem, old(s.dirs))
    ensures d != 0 ==> |s.freelist| == |old(s.freelist)| - 13
    ensures d != 0 ==> d !in old(s.dirs) && s.dirs == old(s.dirs) + {d} && SameMaps(old(s.mem), s.mem, old(s.dirs))
    ensures d != 0 ==> Ready(s.mem, s.kdata, d) && forall v :: 0 <= v < UPAGES ==> Lookup(s.mem, d, v) == NOPTE
    ensures d != 0 ==> Kept(old(s.mem), s.mem, old(s.owner), s.owner, old(s.held), d)
    ensures |old(s.freelist)| == 0 ==> s.owner == old(s.owner) && s.dirs == old(s.dirs)
  {
    hide Lookup, Entry, MapTo, TablesTo, SameMaps, Kept, OnlyRange, Mapping, Tabled, KmapTable, Owned, Shared, Missing,
      KernelPte;
    d := s.Kalloc();
    if d == 0 {
      NothingDone(s, d);
      return;
    }
    NewDirectory(s, d);
    ghost var n0 := |old(s.freelist)|;
    var i := 0;
    while i < 4
      invariant 0 <= i <= 4 && s.Valid() && s.held == old(s.held) && s.dirs == old(s.dirs) + {d}
      invariant MapTo(s.mem, s.kdata, d, i) && TablesTo(s.mem, s.kdata, d, i)
      invariant |s.freelist| == n0 - Taken(s.kdata, i)
      invariant SameMaps(old(s.mem), s.mem, old(s.dirs)) &&
        Kept(old(s.mem), s.mem, old(s.owner), s.owner, old(s.held), d)
    {
      ghost var m2, o2 := s.mem, s.owner;
      var k := KmapTable(s.kdata)[i];
      KmapRange(s.kdata, i);
      KmapFrames(s.mem, s.kdata, d, i);
      KmapFree(s.mem, s.kdata, d, i);
      var r := s.Mappages(d, k.p, (k.e - k.p) % U32, k.p, k.w, false);
      OthersSame(old(s.mem), m2, s.mem, old(s.dirs), d, First(s.kdata, i), Last(s.kdata, i));
      if r.Remap? {
        assert false;
      } else if r.NoMemory? {
        return 0;
      }
      KmapMaps(m2, s.mem, s.dirs, s.kdata, d, i);
      KmapTables(m2, s.mem, s.dirs, s.kdata, d, i);
      KeptStep(old(s.mem), m2, s.mem, old(s.owner), o2, s.owner, old(s.held), d);
      i := i + 1;
    }
    MapDone(s.mem, s.kdata, d);
  }

  lemma NothingDone(s: Machine, d: int)
    requires s.Valid()
    ensures SameMaps(s.mem, s.mem, s.dirs) && Kept(s.mem, s.mem, s.owner, s.owner, s.held, d)
  {
  }

  /** mappages finds none of an entry's pages mapped. */
  lemma KmapFree(m: Mem, kdata: int, d: int, i: int)
    requires 256 < kdata < NFRAMES && 0 <= i < 4 && MapTo(m, kdata, d, i)
    ensures forall v :: First(kdata, i) <= v <= Last(kdata, i) ==> !Lookup(m, d, v).p
  {
    hide Lookup;
  }

  lemma OthersSame(m0: Mem, m1: Mem, m2: Mem, dirs: set<int>, d: int, lo: int, hi: int)
    requires SameMaps(m0, m1, dirs) && OnlyRange(m1, m2, dirs + {d}, d, lo, hi) && d !in dirs
    ensures SameMaps(m0, m2, dirs)
  {
    hide Lookup;
  }

  lemma MapDone(m: Mem, kdata: int, d: int)
    requires MapTo(m, kdata, d, 4) && TablesTo(m, kdata, d, 4)
    ensures Ready(m, kdata, d) && forall v :: 0 <= v < UPAGES ==> Lookup(m, d, v) == NOPTE
  {
    assert Needs(kdata, 4, 0);
    hide Lookup, Entry;
  }

  /** memset(pgdir, 0, PGSIZE). */
  method NewDirectory(s: Machine, d: int)
    requires s.Valid() && d in s.held
    modifies s`mem, s`dirs, s`owner, s`held
    ensures s.Valid() && d !in old(s.dirs) && s.dirs == old(s.dirs) + {d} && s.held == old(s.held) - {d}
    ensures MapTo(s.mem, s.kdata, d, 0) && TablesTo(s.mem, s.kdata, d, 0)
    ensures SameMaps(old(s.mem), s.mem, old(s.dirs)) && Kept(old(s.mem), s.mem, old(s.owner), s.owner, s.held, d)
  {
    AddDir(s.first, s.mem, s.dirs, s.owner, d);
    PoolUse(s.first, s.freelist, s.held, s.owner, d, Root(d));
    s.mem := s.mem[d := ZeroTable()];
    s.dirs, s.owner, s.held := s.dirs + {d}, s.owner[d := Root(d)], s.held - {d};
    hide Lookup, Entry;
  }
}
