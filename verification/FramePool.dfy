/** kalloc.c's free list, and walkpgdir and mappages on top of it.
    A machine's frames are free, held by the kernel, or owned: a page directory, a page
    table or a user page of some directory. Valid says that these are disjoint and
    together are the pool. mappages is proved for its two uses: mapping kernel ranges of
    any length, where nothing changes hands, and mapping one held frame as a user page. */
module FramePool {
  import opened Bytes
  import opened PageTables

  /** The pages [lo, hi] of directory d are translated to frames from f on; every other translation is as before. */
  ghost predicate MapsRange(m0: Mem, m1: Mem, dirs: set<int>, d: int, lo: int, hi: int, f: int, w: bool, u: bool) {
    forall c, v :: c in dirs && 0 <= v < VPAGES ==>
      Lookup(m1, c, v) == if c == d && lo <= v <= hi then Pte(true, f + (v - lo), w, u) else Lookup(m0, c, v)
  }

  /** The pages [lo, a) were not mapped and now are, and no other translation has changed. */
  ghost predicate Mapping(m0: Mem, m1: Mem, dirs: set<int>, d: int, lo: int, a: int, f: int, w: bool, u: bool) {
    && MapsRange(m0, m1, dirs, d, lo, a - 1, f, w, u)
    && forall v :: lo <= v < a ==> !Lookup(m0, d, v).p
  }

  /** Translations outside the pages [lo, hi] of d are as they were. */
  ghost predicate OnlyRange(m0: Mem, m1: Mem, dirs: set<int>, d: int, lo: int, hi: int) {
    forall c, v :: c in dirs && 0 <= v < VPAGES && !(c == d && lo <= v <= hi) ==> Lookup(m1, c, v) == Lookup(m0, c, v)
  }

  /** The page tables [i, n) of d exist, and the other directory entries are as they were. */
  ghost predicate Tabled(m0: Mem, m1: Mem, dirs: set<int>, d: int, i: int, n: int) {
    && (forall c, j :: c in dirs && 0 <= j < NPTE && !(c == d && i <= j < n) ==> Entry(m1, c, j) == Entry(m0, c, j))
    && (forall j :: i <= j < n ==> Entry(m1, d, j).p)
  }

  lemma MapStep(m0: Mem, m1: Mem, m2: Mem, dirs: set<int>, d: int, lo: int, a: int, f: int, w: bool, u: bool,
      reached: int)
    requires d in dirs && 0 <= lo <= a < VPAGES && reached == if a == lo then lo / NPTE else (a - 1) / NPTE + 1
    requires Mapping(m0, m1, dirs, d, lo, a, f, w, u) && Tabled(m0, m1, dirs, d, lo / NPTE, reached)
    ensures Lookup(m1, d, a) == Lookup(m0, d, a)
    ensures Mapping(m1, m2, dirs, d, a, a + 1, f + (a - lo), w, u) ==> Mapping(m0, m2, dirs, d, lo, a + 1, f, w, u)
    ensures Tabled(m1, m2, dirs, d, a / NPTE, a / NPTE + 1) ==> Tabled(m0, m2, dirs, d, lo / NPTE, a / NPTE + 1)
    ensures a / NPTE == reached ==> Entry(m1, d, reached) == Entry(m0, d, reached)
    ensures a / NPTE != reached ==> a / NPTE + 1 == reached && Entry(m1, d, a / NPTE).p
  {
    hide Lookup, Entry;
  }

  lemma MapNone(m: Mem, dirs: set<int>, d: int, lo: int, f: int, w: bool, u: bool)
    ensures Mapping(m, m, dirs, d, lo, lo, f, w, u) && Tabled(m, m, dirs, d, lo / NPTE, lo / NPTE)
  {
    hide Lookup, Entry;
  }

  lemma MappingRange(m0: Mem, m1: Mem, dirs: set<int>, d: int, lo: int, a: int, last: int, f: int, w: bool, u: bool)
    requires Mapping(m0, m1, dirs, d, lo, a, f, w, u) && a <= last + 1
    ensures OnlyRange(m0, m1, dirs, d, lo, last)
  {
    hide Lookup;
  }

  ghost predicate SameMaps(m0: Mem, m1: Mem, dirs: set<int>) {
    forall c, v :: c in dirs && 0 <= v < VPAGES ==> Lookup(m1, c, v) == Lookup(m0, c, v)
  }

  /** User pages keep their bytes. */
  ghost predicate SamePages(m0: Mem, m1: Mem, owner: map<int, Ref>) {
    |m0| == |m1| == NFRAMES && forall f :: f in owner && owner[f].User? && 0 <= f < NFRAMES ==> m1[f] == m0[f]
  }

  /** Frames held by the kernel keep what they hold. */
  ghost predicate SameHeld(m0: Mem, m1: Mem, held: set<int>) {
    |m0| == |m1| == NFRAMES && forall f :: f in held && 0 <= f < NFRAMES ==> m1[f] == m0[f]
  }

  /** How many of the page tables i..n of d do not exist. */
  ghost function Missing(m: Mem, d: int, i: int, n: int): (k: int)
    ensures k >= 0
    decreases n - i
  {
    if i >= n then 0 else (if Entry(m, d, n - 1).p then 0 else 1) + Missing(m, d, i, n - 1)
  }

  lemma {:induction false} MissingSplit(m: Mem, d: int, i: int, j: int, n: int)
    requires i <= j <= n
    ensures Missing(m, d, i, n) == Missing(m, d, i, j) + Missing(m, d, j, n)
    decreases n - j
  {
    if j < n {
      MissingSplit(m, d, i, j, n - 1);
    }
  }

  lemma MissingNone(m: Mem, d: int, i: int)
    ensures Missing(m, d, i, i) == 0
  {
  }

  lemma MissingStep(m: Mem, d: int, i: int, reached: int, k: int, n: int)
    requires i <= reached && (k == reached || k + 1 == reached) && i <= k < n
    ensures Missing(m, d, i, k + 1) == Missing(m, d, i, reached) + if k == reached && !Entry(m, d, k).p then 1 else 0
    ensures Missing(m, d, i, k + 1) <= Missing(m, d, i, n)
  {
    MissingSplit(m, d, i, k + 1, n);
    hide Entry;
  }

  lemma EntryOfLookup(m: Mem, d: int, v: int)
    ensures Entry(m, d, v / NPTE).p ==> Lookup(m, d, v) == Entry(m, Entry(m, d, v / NPTE).frame, v % NPTE)
    ensures !Entry(m, d, v / NPTE).p ==> Lookup(m, d, v) == NOPTE
  {
  }

  lemma PoolTake(first: int, free: seq<int>, held: set<int>, owner: map<int, Ref>)
    requires Shared(first, free, held, owner) && free != []
    ensures Shared(first, free[1..], held + {free[0]}, owner)
    ensures InPool(first, free[0]) && free[0] !in owner && free[0] !in held
  {
    assert free == [free[0]] + free[1..];
  }

  lemma PoolUse(first: int, free: seq<int>, held: set<int>, owner: map<int, Ref>, f: int, r: Ref)
    requires Shared(first, free, held, owner) && f in held
    ensures Shared(first, free, held - {f}, owner[f := r])
  {
  }

  lemma PoolGive(first: int, free: seq<int>, held: set<int>, owner: map<int, Ref>, f: int)
    requires Shared(first, free, held, owner) && f in held
    ensures Shared(first, [f] + free, held - {f}, owner)
  {
    var free' := [f] + free;
    assert forall i :: 0 < i < |free'| ==> free'[i] == free[i - 1];
  }

  lemma PoolDrop(first: int, free: seq<int>, held: set<int>, owner: map<int, Ref>, gone: set<int>)
    requires Shared(first, free, held, owner) && forall f :: f in gone ==> f in owner && InPool(first, f)
    ensures Shared(first, free, held + gone, owner - gone)
  {
  }

  /** Conservation: which frames are free is decided by which are owned or held. */
  lemma SameFree(first: int, free0: seq<int>, free1: seq<int>, held: set<int>, owner: map<int, Ref>)
    requires Shared(first, free0, held, owner) && Shared(first, free1, held, owner)
    ensures |free0| == |free1| && forall f :: f in free0 <==> f in free1
  {
    assert forall f :: f in free0 <==> f in free1;
    SetSize(free0);
    SetSize(free1);
    assert Elements(free0) == Elements(free1);
  }

  function Elements(s: seq<int>): set<int> {
    set x | x in s
  }

  lemma {:induction false} SetSize(s: seq<int>)
    requires forall i, j :: 0 <= i < j < |s| ==> s[i] != s[j]
    ensures |Elements(s)| == |s|
  {
    if s != [] {
      SetSize(s[1..]);
      assert s == [s[0]] + s[1..];
      assert Elements(s) == {s[0]} + Elements(s[1..]);
    }
  }

  /** What building up directory d does not touch: other frames' owners, user pages and held frames. */
  ghost predicate Kept(m0: Mem, m1: Mem, o0: map<int, Ref>, o1: map<int, Ref>, held: set<int>, d: int) {
    && SamePages(m0, m1, o0) && SameHeld(m0, m1, held)
    && (forall f :: f in o0 ==> f in o1 && o1[f] == o0[f])
    && (forall f :: f in o1 && f !in o0 ==> o1[f].d == d)
  }

  lemma KeptStep(m0: Mem, m1: Mem, m2: Mem, o0: map<int, Ref>, o1: map<int, Ref>, o2: map<int, Ref>, held: set<int>,
      d: int)
    requires Kept(m0, m1, o0, o1, held, d) && Kept(m1, m2, o1, o2, held, d)
    ensures Kept(m0, m2, o0, o2, held, d)
  {
  }

  lemma PageSpan(la: int, size: int)
    requires 0 <= la < U32 && 0 < size && la + size <= U32
    ensures (la + size - 1) % U32 / PGSIZE == (la + size - 1) / PGSIZE < VPAGES
    ensures la / PGSIZE <= (la + size - 1) / PGSIZE
    ensures la % PGSIZE == 0 && size == PGSIZE ==> la / PGSIZE == (la + size - 1) / PGSIZE
  {
  }

  datatype MapResult = Done | NoMemory | Remap

  class Machine {
    // frame numbers: the first one behind the kernel, and that of the symbol data
    const first: int
    const kdata: int
    var mem: Mem
    var freelist: seq<int>
    // the page directories there are, what every frame is used for, and the frames kalloc has handed to someone else
    ghost var dirs: set<int>
    ghost var owner: map<int, Ref>
    ghost var held: set<int>

    ghost predicate Valid()
      reads this
    {
      && 256 < kdata <= first < NFRAMES
      && Owned(first, mem, dirs, owner)
      && Shared(first, freelist, held, owner)
    }

    /** kinit, with physical memory as it finds it. */
    constructor (end: int, data: int, mem: Mem)
      requires |mem| == NFRAMES && 0x10_0000 < data <= end < (NFRAMES - 1) * PGSIZE && data % PGSIZE == 0
      ensures Valid() && dirs == {} && owner == map[] && held == {}
      ensures kdata == data / PGSIZE && first == (end + PGSIZE - 1) / PGSIZE
      ensures |freelist| == NFRAMES - first && forall f :: f in freelist <==> first <= f < NFRAMES
    {
      first, kdata := (end + PGSIZE - 1) / PGSIZE, data / PGSIZE;
      this.mem := mem;
      freelist := [];
      dirs, owner, held := {}, map[], {};
      new;
      var p := first;
      while p + 1 <= NFRAMES
        invariant first <= p <= NFRAMES && |this.mem| == NFRAMES
        invariant dirs == {} && owner == map[] && held == {}
        invariant |freelist| == p - first && forall i :: 0 <= i < |freelist| ==> freelist[i] == p - 1 - i
      {
        var ok := Kfree(p);
        p := p + 1;
      }
      forall f | first <= f < NFRAMES
        ensures f in freelist
      {
        assert freelist[NFRAMES - 1 - f] == f;
      }
    }

    /** kfree, which panics on an address outside the pool. */
    method Kfree(f: int) returns (ok: bool)
      requires |mem| == NFRAMES && 256 <= first
      modifies this`mem, this`freelist
      ensures ok <==> InPool(first, f)
      ensures ok ==> mem == old(mem)[f := Filled(1)] && freelist == [f] + old(freelist)
      ensures !ok ==> mem == old(mem) && freelist == old(freelist)
    {
      if f < first || f >= NFRAMES {
        return false;
      }
      mem := mem[f := Filled(1)];
      freelist := [f] + freelist;
      ok := true;
    }

    /** kalloc: 0 exactly if no frame is free. */
    method Kalloc() returns (f: int)
      requires Valid()
      modifies this`freelist, this`held
      ensures Valid()
      ensures f == 0 <==> old(freelist) == []
      ensures f == 0 ==> freelist == old(freelist) && held == old(held)
      ensures f != 0 ==>
        InPool(first, f) && f !in owner && f !in old(held) && old(freelist) == [f] + freelist && held == old(held) + {f}
    {
      if freelist == [] {
        return 0;
      }
      PoolTake(first, freelist, held, owner);
      f := freelist[0];
      freelist := freelist[1..];
      held := held + {f};
    }

    /** kfree of a frame that kalloc returned and nobody uses. */
    method FreeHeld(f: int)
      requires Valid() && f in held
      modifies this`mem, this`freelist, this`held
      ensures Valid() && freelist == [f] + old(freelist) && held == old(held) - {f}
      ensures mem == old(mem)[f := Filled(1)] && SameMaps(old(mem), mem, dirs) && SamePages(old(mem), mem, owner)
      ensures forall c, i :: c in dirs && 0 <= i < NPTE ==> Entry(mem, c, i) == Entry(old(mem), c, i)
    {
      hide Entry, Lookup;
      StoreUnowned(first, mem, dirs, owner, f, Filled(1));
      PoolGive(first, freelist, held, owner, f);
      var ok := Kfree(f);
      held := held - {f};
    }

    /** walkpgdir: the frame of the page table for page v, made if create is set, 0 if there is none. */
    method Walk(d: int, v: int, create: bool) returns (t: int)
      requires Valid() && d in dirs && 0 <= v < VPAGES
      modifies this`mem, this`freelist, this`owner, this`held
      ensures Valid() && SameMaps(old(mem), mem, dirs) && SamePages(old(mem), mem, old(owner)) && held == old(held)
      ensures t == 0 <==> !old(Entry(mem, d, v / NPTE).p) && (!create || old(freelist) == [])
      ensures t != 0 ==> Entry(mem, d, v / NPTE).p && t == Entry(mem, d, v / NPTE).frame
      ensures forall c, i :: c in dirs && 0 <= i < NPTE && (c != d || i != v / NPTE) ==>
        Entry(mem, c, i) == Entry(old(mem), c, i)
      ensures t == 0 || old(Entry(mem, d, v / NPTE).p) ==>
        mem == old(mem) && freelist == old(freelist) && owner == old(owner)
      ensures t != 0 && !old(Entry(mem, d, v / NPTE).p) ==>
        && old(freelist) == [t] + freelist && owner == old(owner)[t := Tab(d, v / NPTE)] && t !in old(owner)
        && SameHeld(old(mem), mem, held)
    {
      hide Entry, Lookup, SetEntry;
      var pde := Entry(mem, d, v / NPTE);
      if pde.p {
        TabOwned(first, mem, dirs, owner, d, v / NPTE);
        return pde.frame;
      }
      if !create {
        return 0;
      }
      t := Kalloc();
      if t == 0 {
        return 0;
      }
      DirOwned(first, mem, dirs, owner, d);
      AddTable(first, mem, dirs, owner, d, v / NPTE, t);
      PoolUse(first, freelist, held, owner, t, Tab(d, v / NPTE));
      mem := mem[t := ZeroTable()];
      mem := SetEntry(mem, d, v / NPTE, Pte(true, t, true, true));
      owner := owner[t := Tab(d, v / NPTE)];
      held := held - {t};
    }

    /** mappages. la + size may be 2^32, where the last page's address is found although the sum wraps.
        A kernel range needs no frames of its own; a user page is one held frame. */
    method Mappages(d: int, la: int, size: int, pa: int, w: bool, u: bool) returns (r: MapResult)
      requires Valid() && d in dirs
      requires 0 <= la < U32 && 0 < size && la + size <= U32 && 0 <= pa && pa % PGSIZE == 0
      requires !u ==> UPAGES <= la / PGSIZE
      requires u ==> w && la % PGSIZE == 0 && size == PGSIZE && la / PGSIZE < UPAGES && HoldsPage(pa / PGSIZE)
      modifies this`mem, this`freelist, this`owner, this`held
      ensures Valid() && Kept(old(mem), mem, old(owner), owner, old(held), d)
      ensures OnlyRange(old(mem), mem, dirs, d, la / PGSIZE, (la + size - 1) / PGSIZE)
      ensures r.Done? ==> Mapping(old(mem), mem, dirs, d, la / PGSIZE, (la + size - 1) / PGSIZE + 1, pa / PGSIZE, w, u)
      ensures r.Done? ==> Tabled(old(mem), mem, dirs, d, la / PGSIZE / NPTE, (la + size - 1) / PGSIZE / NPTE + 1)
      ensures r.Done? ==>
        |freelist| == |old(freelist)| - Missing(old(mem), d, la / PGSIZE / NPTE, (la + size - 1) / PGSIZE / NPTE + 1)
      ensures r.Remap? ==> exists v :: la / PGSIZE <= v <= (la + size - 1) / PGSIZE && Lookup(old(mem), d, v).p
      ensures r.NoMemory? ==>
        freelist == [] &&
        |old(freelist)| < Missing(old(mem), d, la / PGSIZE / NPTE, (la + size - 1) / PGSIZE / NPTE + 1)
      ensures r.Done? && u ==>
        held == old(held) - {pa / PGSIZE} && pa / PGSIZE in owner && owner[pa / PGSIZE] == User(d, la / PGSIZE)
      ensures r.Done? && u && old(Entry(mem, d, la / PGSIZE / NPTE)).p ==>
        owner == old(owner)[pa / PGSIZE := User(d, la / PGSIZE)]
      ensures !(r.Done? && u) ==> held == old(held)
    {
      PageSpan(la, size);
      hide Valid, Mapping, Tabled, Kept, OnlyRange, Lookup, HoldsPage;
      r := MapLoop(d, la / PGSIZE, (la + size - 1) % U32 / PGSIZE, pa / PGSIZE, w, u);
    }

    /** mappages' loop, from page lo up to and including page last. */
    method MapLoop(d: int, lo: int, last: int, f0: int, w: bool, u: bool) returns (r: MapResult)
      requires Valid() && d in dirs && 0 <= lo <= last < VPAGES
      requires !u ==> UPAGES <= lo
      requires u ==> w && lo == last < UPAGES && HoldsPage(f0)
      modifies this`mem, this`freelist, this`owner, this`held
      ensures Valid() && Kept(old(mem), mem, old(owner), owner, old(held), d)
      ensures OnlyRange(old(mem), mem, dirs, d, lo, last)
      ensures r.Done? ==>
        Mapping(old(mem), mem, dirs, d, lo, last + 1, f0, w, u) &&
        Tabled(old(mem), mem, dirs, d, lo / NPTE, last / NPTE + 1)
      ensures r.Done? ==> |freelist| == |old(freelist)| - Missing(old(mem), d, lo / NPTE, last / NPTE + 1)
      ensures r.Remap? ==> exists v :: lo <= v <= last && Lookup(old(mem), d, v).p
      ensures r.NoMemory? ==> freelist == [] && |old(freelist)| < Missing(old(mem), d, lo / NPTE, last / NPTE + 1)
      ensures r.Done? && u ==> held == old(held) - {f0} && f0 in owner && owner[f0] == User(d, lo)
      ensures r.Done? && u && old(Entry(mem, d, lo / NPTE)).p ==> owner == old(owner)[f0 := User(d, lo)]
      ensures !(r.Done? && u) ==> held == old(held)
    {
      hide Entry, Lookup, SetEntry, Missing, KindOk, Valid, Mapping, Tabled, OnlyRange, Kept, HoldsPage;
      ghost var m0, o0, h0, n0 := mem, owner, held, |freelist|;
      var a, f := lo, f0;
      ghost var reached := lo / NPTE;
      MissingNone(m0, d, reached);
      MapNone(m0, dirs, d, lo, f0, w, u);
      SameNow(d);
      while true
        invariant Valid() && lo <= a <= last && f == f0 + (a - lo)
        invariant Mapping(m0, mem, dirs, d, lo, a, f0, w, u)
        invariant Tabled(m0, mem, dirs, d, lo / NPTE, reached) && |freelist| == n0 - Missing(m0, d, lo / NPTE, reached)
        invariant reached == if a == lo then lo / NPTE else (a - 1) / NPTE + 1
        invariant Kept(m0, mem, o0, owner, h0, d) && held == h0
        invariant u ==> HoldsPage(f) && a == lo && mem == m0 && owner == o0
        decreases last - a
      {
        MissingStep(m0, d, lo / NPTE, reached, a / NPTE, last / NPTE + 1);
        ghost var m1, o1 := mem, owner;
        r := MapPage(d, a, f, w, u);
        MapStep(m0, m1, mem, dirs, d, lo, a, f0, w, u, reached);
        KeptStep(m0, m1, mem, o0, o1, owner, h0, d);
        if !r.Done? {
          MappingRange(m0, mem, dirs, d, lo, a, last, f0, w, u);
          return;
        }
        reached := a / NPTE + 1;
        if a == last {
          MappingRange(m0, mem, dirs, d, lo, a + 1, last, f0, w, u);
          break;
        }
        a, f := a + 1, f + 1;
      }
    }

    lemma HeldFrames()
      requires Valid()
      ensures |mem| == NFRAMES && forall f :: f in held ==> InPool(first, f) && f !in owner
    {
    }

    lemma SameNow(d: int)
      requires Valid()
      ensures Kept(mem, mem, owner, owner, held, d)
    {
    }

    /** One turn of mappages' loop. */
    method MapPage(d: int, a: int, f: int, w: bool, u: bool) returns (r: MapResult)
      requires Valid() && d in dirs && 0 <= a < VPAGES
      requires !u ==> UPAGES <= a
      requires u ==> w && a < UPAGES && HoldsPage(f)
      modifies this`mem, this`freelist, this`owner, this`held
      ensures Valid() && Kept(old(mem), mem, old(owner), owner, old(held), d)
      ensures r.Done? <==> !old(Lookup(mem, d, a)).p && (old(Entry(mem, d, a / NPTE)).p || old(freelist) != [])
      ensures r.Remap? <==> old(Lookup(mem, d, a)).p
      ensures r.Done? ==> Mapping(old(mem), mem, dirs, d, a, a + 1, f, w, u)
      ensures r.Done? ==> Tabled(old(mem), mem, dirs, d, a / NPTE, a / NPTE + 1)
      ensures !r.Done? ==> mem == old(mem) && owner == old(owner) && freelist == old(freelist)
      ensures r.Done? ==> |freelist| == |old(freelist)| - (if old(Entry(mem, d, a / NPTE)).p then 0 else 1)
      ensures r.Done? && old(Entry(mem, d, a / NPTE)).p ==> freelist == old(freelist)
      ensures r.Done? && u ==> held == old(held) - {f} && f in owner && owner[f] == User(d, a)
      ensures r.Done? && u && old(Entry(mem, d, a / NPTE)).p ==> owner == old(owner)[f := User(d, a)]
      ensures !(r.Done? && u) ==> held == old(held)
    {
      hide Lookup, SetEntry, Missing, Owned, Shared, Names;
      HeldFrames();
      var pgtab := Walk(d, a, true);
      HeldFrames();
      EntryOfLookup(mem, d, a);
      EntryOfLookup(old(mem), d, a);
      if pgtab == 0 {
        return NoMemory;
      }
      if Entry(mem, pgtab, a % NPTE).p {
        return Remap;
      }
      SetPte(first, mem, dirs, owner, d, a, Pte(true, f, w, u));
      TabOwned(first, mem, dirs, owner, d, a / NPTE);
      if u {
        MapUser(first, mem, dirs, owner, d, a, f);
        PoolUse(first, freelist, held, owner, f, User(d, a));
      } else {
        MapKernel(first, mem, dirs, owner, d, a, Pte(true, f, w, u));
      }
      mem := SetEntry(mem, pgtab, a % NPTE, Pte(true, f, w, u));
      if u {
        held, owner := held - {f}, owner[f := User(d, a)];
      }
      r := Done;
    }

    /** f is a frame of plain bytes, fresh from kalloc. */
    ghost predicate HoldsPage(f: int)
      reads this
    {
      f in held && 0 <= f < |mem| && mem[f].Bytes? && |mem[f].bytes| == PGSIZE
    }
  }

}
