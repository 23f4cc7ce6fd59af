/** User memory (vm.c): allocuvm, deallocuvm and freevm.
    What a loop over pages has done so far is said by four relations between the state
    before it and now: pages added, pages lost, and the same for the owners of frames.
    Each turn of a loop extends its relation by one page; a failed allocuvm followed by
    deallocuvm over the same range composes to no change at all, and freevm is
    deallocuvm over the whole user range followed by the page tables and the directory. */
module VirtualMemory {
  import opened Bytes
  import opened PageTables
  import opened FramePool
  import opened KernelMap

  /** The page number of PGROUNDUP(x). */
  function PageUp(x: int): int {
    (x + PGSIZE - 1) / PGSIZE
  }

  /** The contents of user page v. */
  ghost function PageOf(m: Mem, d: int, v: int): Frame {
    var f := Lookup(m, d, v).frame;
    if 0 <= f < |m| then m[f] else Filled(0)
  }

  /** The same pages are mapped, to the same frames. */
  ghost predicate SameView(m0: Mem, m1: Mem, dirs: set<int>) {
    forall c, v :: c in dirs && 0 <= v < VPAGES ==>
      Lookup(m1, c, v) == Lookup(m0, c, v) || (!Lookup(m1, c, v).p && !Lookup(m0, c, v).p)
  }

  /** None of the pages [lo, hi) is mapped. */
  ghost predicate Unmapped(m: Mem, d: int, lo: int, hi: int) {
    forall v :: lo <= v < hi ==> !Lookup(m, d, v).p
  }

  /** The user pages [lo, hi) of d are new and zero, and no other translation has changed. */
  ghost predicate NewPages(m0: Mem, m1: Mem, dirs: set<int>, d: int, lo: int, hi: int) {
    && OnlyRange(m0, m1, dirs, d, lo, hi - 1)
    && forall v :: lo <= v < hi ==> Lookup(m1, d, v).p && PageOf(m1, d, v) == Filled(0)
  }

  /** Only user pages [lo, hi) of d have been given frames. */
  ghost predicate NewOwners(o0: map<int, Ref>, o1: map<int, Ref>, d: int, lo: int, hi: int) {
    && (forall f :: f in o0 ==> f in o1 && o1[f] == o0[f])
    && (forall f :: f in o1 && f !in o0 ==> o1[f].User? && o1[f].d == d && lo <= o1[f].v < hi)
  }

  ghost predicate InRange(r: Ref, d: int, lo: int, hi: int) {
    r.User? && r.d == d && lo <= r.v < hi
  }

  /** The frames of user pages [lo, hi) of d have been given back, and no others. */
  ghost predicate LostOwners(o0: map<int, Ref>, o1: map<int, Ref>, d: int, lo: int, hi: int) {
    && (forall f :: f in o1 ==> f in o0 && o1[f] == o0[f])
    && (forall f :: f in o0 ==> (f in o1 <==> !InRange(o0[f], d, lo, hi)))
  }

  ghost predicate LostPages(m0: Mem, m1: Mem, dirs: set<int>, d: int, lo: int, hi: int) {
    && OnlyRange(m0, m1, dirs, d, lo, hi - 1)
    && Unmapped(m1, d, lo, hi)
  }

  lemma PoolFreed(first: int, free: seq<int>, held: set<int>, owner: map<int, Ref>, f: int)
    requires Shared(first, free, held, owner) && f in owner && InPool(first, f)
    ensures Shared(first, [f] + free, held, owner - {f})
  {
    var free' := [f] + free;
    assert forall i :: 0 < i < |free'| ==> free'[i] == free[i - 1];
  }

  /** deallocuvm. oldsz is a user address: that is all its callers pass. */
  method Deallocuvm(s: Machine, d: int, oldsz: int, newsz: int) returns (r: int)
    requires s.Valid() && d in s.dirs && 0 <= oldsz <= USERTOP && 0 <= newsz < U32
    modifies s`mem, s`freelist, s`owner, s`held
    ensures s.Valid() && s.held == old(s.held) && SamePages(old(s.mem), s.mem, s.owner)
    ensures r == if newsz >= oldsz then oldsz else newsz
    ensures newsz >= oldsz ==> s.mem == old(s.mem) && s.freelist == old(s.freelist) && s.owner == old(s.owner)
    ensures newsz < oldsz ==> LostPages(old(s.mem), s.mem, s.dirs, d, PageUp(newsz), PageUp(oldsz))
    ensures newsz < oldsz ==> LostOwners(old(s.owner), s.owner, d, PageUp(newsz), PageUp(oldsz))
    ensures TablesSame(old(s.mem), s.mem, s.dirs)
    ensures forall c, i :: c in s.dirs && 0 <= i < NPTE ==> Entry(s.mem, c, i) == Entry(old(s.mem), c, i)
  {
    if newsz >= oldsz {
      LostNone(s, d, 0);
      return oldsz;
    }
    hide Lookup, Entry, LostPages, LostOwners, Owned, Shared, SetEntry;
    var a := PageUp(newsz);
    LostNone(s, d, a);
    while a * PGSIZE < oldsz
      invariant PageUp(newsz) <= a <= PageUp(oldsz) <= UPAGES && s.Valid() && s.held == old(s.held)
      invariant LostPages(old(s.mem), s.mem, s.dirs, d, PageUp(newsz), a) && SamePages(old(s.mem), s.mem, s.owner)
      invariant LostOwners(old(s.owner), s.owner, d, PageUp(newsz), a)
      invariant forall c, i :: c in s.dirs && 0 <= i < NPTE ==> Entry(s.mem, c, i) == Entry(old(s.mem), c, i)
    {
      ghost var m1, o1 := s.mem, s.owner;
      FreePage(s, d, a);
      LostStep(old(s.mem), m1, s.mem, old(s.owner), o1, s.owner, s.dirs, d, PageUp(newsz), a);
      a := a + 1;
    }
    r := newsz;
  }

  lemma LostNone(s: Machine, d: int, a: int)
    requires s.Valid()
    ensures LostPages(s.mem, s.mem, s.dirs, d, a, a) && LostOwners(s.owner, s.owner, d, a, a) &&
      SamePages(s.mem, s.mem, s.owner)
  {
  }

  lemma LostStep(m0: Mem, m1: Mem, m2: Mem, o0: map<int, Ref>, o1: map<int, Ref>, o2: map<int, Ref>, dirs: set<int>,
      d: int, lo: int, a: int)
    requires lo <= a && 0 <= a < VPAGES && d in dirs
    requires LostPages(m0, m1, dirs, d, lo, a) && LostOwners(o0, o1, d, lo, a) && SamePages(m0, m1, o1)
    requires LostPages(m1, m2, dirs, d, a, a + 1) && LostOwners(o1, o2, d, a, a + 1) && SamePages(m1, m2, o2)
    requires 0 <= lo
    ensures LostPages(m0, m2, dirs, d, lo, a + 1) && LostOwners(o0, o2, d, lo, a + 1) && SamePages(m0, m2, o2)
  {
    hide Lookup;
    forall f | f in o0
      ensures InRange(o0[f], d, lo, a + 1) <==> InRange(o0[f], d, lo, a) || InRange(o0[f], d, a, a + 1)
    {
    }
  }

  /** One turn of deallocuvm's loop: kfree first, then *pte = 0. */
  method FreePage(s: Machine, d: int, a: int)
    requires s.Valid() && d in s.dirs && 0 <= a < UPAGES
    modifies s`mem, s`freelist, s`owner, s`held
    ensures s.Valid() && s.held == old(s.held) && SamePages(old(s.mem), s.mem, s.owner)
    ensures LostPages(old(s.mem), s.mem, s.dirs, d, a, a + 1) && LostOwners(old(s.owner), s.owner, d, a, a + 1)
    ensures forall c, i :: c in s.dirs && 0 <= i < NPTE ==> Entry(s.mem, c, i) == Entry(old(s.mem), c, i)
  {
    hide Lookup, SetEntry, Missing;
    var t := s.Walk(d, a, false);
    EntryOfLookup(s.mem, d, a);
    if t != 0 && Entry(s.mem, t, a % NPTE).p {
      var pa := Entry(s.mem, t, a % NPTE).frame;
      UnmapUser(s.first, s.mem, s.dirs, s.owner, d, a, pa, Filled(1));
      TabOwned(s.first, s.mem, s.dirs, s.owner, d, a / NPTE);
      PoolFreed(s.first, s.freelist, s.held, s.owner, pa);
      ghost var m0 := s.mem;
      var ok := s.Kfree(pa);
      s.mem := SetEntry(s.mem, t, a % NPTE, NOPTE);
      s.owner := s.owner - {pa};
    } else {
      NotOwned(s, d, a);
    }
  }

  lemma NotOwned(s: Machine, d: int, a: int)
    requires s.Valid() && d in s.dirs && 0 <= a < UPAGES && !Lookup(s.mem, d, a).p
    ensures forall f :: f in s.owner ==> s.owner[f] != User(d, a)
  {
    hide Lookup;
    forall f | f in s.owner
      ensures s.owner[f] != User(d, a)
    {
      assert Names(s.mem, s.dirs, s.owner[f], f);
    }
  }

  // ----- allocuvm

  /** The new size, 0 for failure, or the panic of mappages. */
  datatype Alloc = Size(n: int) | Panic

  datatype PageResult = Got | NoFrame | Remapped

  lemma NewNone(s: Machine, d: int, a: int)
    requires s.Valid()
    ensures NewPages(s.mem, s.mem, s.dirs, d, a, a) && NewOwners(s.owner, s.owner, d, a, a) &&
      SamePages(s.mem, s.mem, s.owner)
    ensures TablesSame(s.mem, s.mem, s.dirs) && Unmapped(s.mem, d, a, a)
  {
  }

  /** Some page of [lo, hi) is mapped, and there are frames enough to get as far as the first one. */
  ghost predicate Clash(m: Mem, d: int, lo: int, hi: int, frames: int) {
    exists v :: lo <= v < hi && Lookup(m, d, v).p && Unmapped(m, d, lo, v) && frames > v - lo
  }

  lemma NoClash(m: Mem, d: int, lo: int, a: int, hi: int)
    requires lo <= a <= hi && Unmapped(m, d, lo, a)
    ensures !Clash(m, d, lo, hi, a - lo)
    ensures a == hi ==> forall frames :: !Clash(m, d, lo, hi, frames)
  {
    hide Lookup;
  }

  /** A page that mappages found mapped was mapped before allocuvm began. */
  lemma WasMapped(m0: Mem, m1: Mem, dirs: set<int>, d: int, lo: int, a: int, hi: int)
    requires 0 <= lo <= a < hi <= UPAGES && d in dirs && NewPages(m0, m1, dirs, d, lo, a) && Lookup(m1, d, a).p
    requires Unmapped(m0, d, lo, a)
    ensures !Unmapped(m0, d, lo, hi) && forall frames :: frames > a - lo ==> Clash(m0, d, lo, hi, frames)
  {
    hide Lookup;
    assert Lookup(m0, d, a).p;
  }

  lemma NewPageStep(m0: Mem, m1: Mem, m2: Mem, o0: map<int, Ref>, o1: map<int, Ref>, o2: map<int, Ref>, s: Machine,
      d: int, lo: int, a: int)
    requires 0 <= lo <= a < UPAGES && d in s.dirs && Owned(s.first, m1, s.dirs, o1)
    requires NewPages(m0, m1, s.dirs, d, lo, a) && NewOwners(o0, o1, d, lo, a) && SamePages(m0, m1, o0)
    requires Unmapped(m0, d, lo, a) && TablesSame(m0, m1, s.dirs) && Entry(m1, d, 0).p
    requires OnlyRange(m1, m2, s.dirs, d, a, a) && Lookup(m2, d, a).p && PageOf(m2, d, a) == Filled(0) &&
      !Lookup(m1, d, a).p
    requires NewOwners(o1, o2, d, a, a + 1) && SamePages(m1, m2, o1) && TablesSame(m1, m2, s.dirs)
    ensures NewPages(m0, m2, s.dirs, d, lo, a + 1) && NewOwners(o0, o2, d, lo, a + 1) && SamePages(m0, m2, o0)
    ensures Unmapped(m0, d, lo, a + 1) && TablesSame(m0, m2, s.dirs) && Entry(m2, d, 0).p
  {
    hide Lookup, Entry;
    NewStep(s.first, m0, m1, m2, o0, o1, o2, s.dirs, d, lo, a);
    assert Lookup(m1, d, a) == Lookup(m0, d, a);
  }

  /** deallocuvm after a failed allocuvm takes back exactly what that had added. */
  lemma RolledBack(s: Machine, m0: Mem, m1: Mem, free0: seq<int>, o0: map<int, Ref>, o1: map<int, Ref>, d: int,
      lo: int, a: int, hi: int)
    requires s.Valid() && d in s.dirs && 0 <= lo <= a < hi <= UPAGES && Owned(s.first, m0, s.dirs, o0) &&
      Shared(s.first, free0, s.held, o0)
    requires NewPages(m0, m1, s.dirs, d, lo, a) && NewOwners(o0, o1, d, lo, a) && SamePages(m0, m1, o0)
    requires LostPages(m1, s.mem, s.dirs, d, lo, hi) && LostOwners(o1, s.owner, d, lo, hi) &&
      SamePages(m1, s.mem, s.owner)
    requires TablesSame(m0, m1, s.dirs) && TablesSame(m1, s.mem, s.dirs)
    ensures TablesSame(m0, s.mem, s.dirs) && LostPages(m0, s.mem, s.dirs, d, lo, hi) &&
      OnlyRange(m0, s.mem, s.dirs, d, lo, hi - 1)
    ensures LostOwners(o0, s.owner, d, lo, hi) && SamePages(m0, s.mem, s.owner)
    ensures Unmapped(m0, d, lo, hi) ==>
      SameView(m0, s.mem, s.dirs) && s.owner == o0 && |s.freelist| == |free0| && SamePages(m0, s.mem, o0)
  {
    if Unmapped(m0, d, lo, hi) {
      forall f | f in o0
        ensures f in s.owner && s.owner[f] == o0[f]
      {
        assert Names(m0, s.dirs, o0[f], f);
      }
      forall f | f in s.owner
        ensures f in o0
      {
        assert f in o1 && !InRange(o1[f], d, lo, hi);
      }
      assert s.owner == o0;
      SameFree(s.first, free0, s.freelist, s.held, o0);
    }
    hide Lookup;
  }

  lemma NewStep(first: int, m0: Mem, m1: Mem, m2: Mem, o0: map<int, Ref>, o1: map<int, Ref>, o2: map<int, Ref>,
      dirs: set<int>, d: int, lo: int, a: int)
    requires 0 <= lo <= a < UPAGES && d in dirs && Owned(first, m1, dirs, o1)
    requires NewPages(m0, m1, dirs, d, lo, a) && NewOwners(o0, o1, d, lo, a) && SamePages(m0, m1, o0)
    requires NewPages(m1, m2, dirs, d, a, a + 1) && NewOwners(o1, o2, d, a, a + 1) && SamePages(m1, m2, o1)
    ensures NewPages(m0, m2, dirs, d, lo, a + 1) && NewOwners(o0, o2, d, lo, a + 1) && SamePages(m0, m2, o0)
  {
    forall v | lo <= v < a
      ensures Lookup(m2, d, v) == Lookup(m1, d, v) && PageOf(m2, d, v) == PageOf(m1, d, v)
    {
      PageOwned(first, m1, dirs, o1, d, v);
    }
    hide Lookup, Entry;
  }

  lemma PageOwned(first: int, m: Mem, dirs: set<int>, owner: map<int, Ref>, d: int, v: int)
    requires Owned(first, m, dirs, owner) && d in dirs && 0 <= v < UPAGES && Lookup(m, d, v).p
    ensures |m| == NFRAMES
    ensures var f := Lookup(m, d, v).frame;
      f in owner && owner[f] == User(d, v) && InPool(first, f) && m[f].Bytes? && |m[f].bytes| == PGSIZE &&
        Lookup(m, d, v).w && Lookup(m, d, v).u
  {
    assert Names(m, dirs, User(d, v), Lookup(m, d, v).frame);
    hide Lookup;
  }

  /** kalloc, a store of the whole frame, mappages: a turn of allocuvm's loop, or of copyuvm's.
      As the page table for user addresses exists, mappages needs no memory of its own. */
  method NewPage(s: Machine, d: int, a: int, x: Frame) returns (r: PageResult)
    requires s.Valid() && d in s.dirs && 0 <= a < UPAGES && Entry(s.mem, d, 0).p && x.Bytes? && |x.bytes| == PGSIZE
    modifies s`mem, s`freelist, s`owner, s`held
    ensures s.Valid() && SamePages(old(s.mem), s.mem, old(s.owner))
    ensures r.NoFrame? <==> old(s.freelist) == []
    ensures r.NoFrame? ==>
      s.mem == old(s.mem) && s.freelist == old(s.freelist) && s.owner == old(s.owner) && s.held == old(s.held)
    ensures r.Remapped? ==> Lookup(old(s.mem), d, a).p
    ensures r.Got? ==> !Lookup(old(s.mem), d, a).p && s.held == old(s.held) && |s.freelist| == |old(s.freelist)| - 1
    ensures r.Got? ==>
      OnlyRange(old(s.mem), s.mem, s.dirs, d, a, a) && Lookup(s.mem, d, a).p && PageOf(s.mem, d, a) == x
    ensures r.Got? ==> NewOwners(old(s.owner), s.owner, d, a, a + 1)
    ensures r.Got? ==> TablesSame(old(s.mem), s.mem, s.dirs)
  {
    hide Lookup, Entry, Owned, Shared, Missing, Names;
    var f := s.Kalloc();
    if f == 0 {
      NewNone(s, d, a);
      return NoFrame;
    }
    FrameStored(s, f, x);
    s.mem := s.mem[f := x];
    ghost var m1, o1, free1 := s.mem, s.owner, |s.freelist|;
    MissingEvery(s.mem, d, 0, 1, true);
    PageAddress(a, f);
    var m := s.Mappages(d, a * PGSIZE, PGSIZE, f * PGSIZE, true, true);
    if m.Remap? {
      return Remapped;
    }
    PageMapped(old(s.mem), m1, s.mem, s.dirs, o1, s.owner, s.held + {f}, d, a, f, x);
    r := Got;
  }

  lemma PageAddress(a: int, f: int)
    requires 0 <= a < UPAGES && 0 <= f
    ensures a * PGSIZE / PGSIZE == a == (a * PGSIZE + PGSIZE - 1) / PGSIZE && f * PGSIZE / PGSIZE == f
    ensures a / NPTE == 0 && a * PGSIZE % PGSIZE == 0 && f * PGSIZE % PGSIZE == 0
  {
  }

  lemma FrameStored(s: Machine, f: int, x: Frame)
    requires s.Valid() && f in s.held
    ensures InPool(s.first, f) && |s.mem| == NFRAMES && f !in s.owner
    ensures Owned(s.first, s.mem[f := x], s.dirs, s.owner) && SamePages(s.mem, s.mem[f := x], s.owner)
    ensures SameMaps(s.mem, s.mem[f := x], s.dirs)
    ensures forall c, i :: c in s.dirs && 0 <= i < NPTE ==> Entry(s.mem[f := x], c, i) == Entry(s.mem, c, i)
  {
    StoreUnowned(s.first, s.mem, s.dirs, s.owner, f, x);
    hide Lookup, Entry;
  }

  /** No page table has appeared or gone. */
  ghost predicate TablesSame(m0: Mem, m1: Mem, dirs: set<int>) {
    forall c, i :: c in dirs && 0 <= i < NPTE ==> (Entry(m1, c, i).p <==> Entry(m0, c, i).p)
  }

  lemma PageMapped(m0: Mem, m1: Mem, m2: Mem, dirs: set<int>, o1: map<int, Ref>, o2: map<int, Ref>, held: set<int>,
      d: int, a: int, f: int, x: Frame)
    requires d in dirs && 0 <= a < UPAGES && SameMaps(m0, m1, dirs) && 0 <= f < NFRAMES == |m1| && m1[f] == x &&
      f in held
    requires forall c, i :: c in dirs && 0 <= i < NPTE ==> Entry(m1, c, i) == Entry(m0, c, i)
    requires Kept(m1, m2, o1, o2, held, d) && Mapping(m1, m2, dirs, d, a, a + 1, f, true, true)
    requires Tabled(m1, m2, dirs, d, 0, 1) && Entry(m0, d, 0).p
    ensures OnlyRange(m0, m2, dirs, d, a, a) && Lookup(m2, d, a).p && PageOf(m2, d, a) == x && !Lookup(m0, d, a).p
    ensures TablesSame(m0, m2, dirs)
  {
    hide Lookup, Entry;
  }

  /** allocuvm. The result of mappages is not looked at, which is right because it never fails here. It panics
      exactly if it comes to a page that is mapped. When none is, it is all or nothing: out of memory, everything is
      as before. */
  method Allocuvm(s: Machine, d: int, oldsz: int, newsz: int) returns (r: Alloc)
    requires s.Valid() && d in s.dirs && Entry(s.mem, d, 0).p && 0 <= oldsz < U32 && 0 <= newsz < U32
    modifies s`mem, s`freelist, s`owner, s`held
    ensures s.Valid() && (!r.Panic? ==> TablesSame(old(s.mem), s.mem, s.dirs))
    ensures newsz > USERTOP ==> r == Size(0)
    ensures newsz <= USERTOP && newsz < oldsz ==> r == Size(oldsz)
    ensures newsz > USERTOP || newsz < oldsz ==>
      s.mem == old(s.mem) && s.freelist == old(s.freelist) && s.owner == old(s.owner) && s.held == old(s.held)
    ensures oldsz <= newsz <= USERTOP ==>
      (r.Panic? <==> Clash(old(s.mem), d, PageUp(oldsz), PageUp(newsz), |old(s.freelist)|))
    ensures oldsz <= newsz <= USERTOP ==> r.Panic? || r == Size(0) || r == Size(newsz)
    ensures r.Panic? ==> !Unmapped(old(s.mem), d, PageUp(oldsz), PageUp(newsz))
    ensures oldsz <= newsz <= USERTOP && 0 < newsz && r == Size(0) ==>
      && LostPages(old(s.mem), s.mem, s.dirs, d, PageUp(oldsz), PageUp(newsz)) && s.held == old(s.held)
      && LostOwners(old(s.owner), s.owner, d, PageUp(oldsz), PageUp(newsz)) && SamePages(old(s.mem), s.mem, s.owner)
    ensures oldsz <= newsz <= USERTOP && r == Size(newsz) && newsz != 0 ==>
      Unmapped(old(s.mem), d, PageUp(oldsz), PageUp(newsz))
    ensures oldsz <= newsz <= USERTOP && Unmapped(old(s.mem), d, PageUp(oldsz), PageUp(newsz)) ==>
      var n := PageUp(newsz) - PageUp(oldsz);
      && s.held == old(s.held) && SamePages(old(s.mem), s.mem, old(s.owner))
      && (r == Size(newsz) || r == Size(0))
      && (|old(s.freelist)| >= n ==>
          && r == Size(newsz) && |s.freelist| == |old(s.freelist)| - n
          && NewPages(old(s.mem), s.mem, s.dirs, d, PageUp(oldsz), PageUp(newsz))
          && NewOwners(old(s.owner), s.owner, d, PageUp(oldsz), PageUp(newsz)))
      && (|old(s.freelist)| < n ==>
          && r == Size(0) && OnlyRange(old(s.mem), s.mem, s.dirs, d, PageUp(oldsz), PageUp(newsz) - 1) &&
            |s.freelist| == |old(s.freelist)| && SameView(old(s.mem), s.mem, s.dirs) && s.owner == old(s.owner))
  {
    hide Lookup, Entry, Owned, Shared, Missing, Names, NewPages, NewOwners, SamePages, SameMaps, TablesSame, Unmapped,
      LostPages, LostOwners, Clash;
    NewNone(s, d, PageUp(oldsz));
    if newsz > USERTOP {
      return Size(0);
    }
    if newsz < oldsz {
      return Size(oldsz);
    }
    ghost var lo, hi := PageUp(oldsz), PageUp(newsz);
    var a := PageUp(oldsz);
    while a * PGSIZE < newsz
      invariant lo <= a <= hi <= UPAGES && s.Valid() && s.held == old(s.held) && Entry(s.mem, d, 0).p
      invariant NewPages(old(s.mem), s.mem, s.dirs, d, lo, a) && NewOwners(old(s.owner), s.owner, d, lo, a) &&
        SamePages(old(s.mem), s.mem, old(s.owner))
      invariant Unmapped(old(s.mem), d, lo, a) && |s.freelist| == |old(s.freelist)| - (a - lo) &&
        TablesSame(old(s.mem), s.mem, s.dirs)
    {
      ghost var m1, o1 := s.mem, s.owner;
      var got := NewPage(s, d, a, Filled(0));
      if got.NoFrame? {
        NoClash(old(s.mem), d, lo, a, hi);
        var _ := Deallocuvm(s, d, newsz, oldsz);
        RolledBack(s, old(s.mem), m1, old(s.freelist), old(s.owner), o1, d, lo, a, hi);
        return Size(0);
      }
      if got.Remapped? {
        WasMapped(old(s.mem), m1, s.dirs, d, lo, a, hi);
        return Panic;
      }
      NewPageStep(old(s.mem), m1, s.mem, old(s.owner), o1, s.owner, s, d, lo, a);
      a := a + 1;
    }
    NoClash(old(s.mem), d, lo, a, hi);
    r := Size(newsz);
  }

  // ----- freevm

  /** Everything that d used has been given back, and nothing else. */
  ghost predicate DirOwnersLost(o0: map<int, Ref>, o1: map<int, Ref>, d: int) {
    && (forall f :: f in o1 ==> f in o0 && o1[f] == o0[f])
    && (forall f :: f in o0 ==> (f in o1 <==> o0[f].d != d))
  }

  /** freevm: the user pages, the page tables and the directory, each exactly once. */
  method Freevm(s: Machine, d: int)
    requires s.Valid() && d in s.dirs
    modifies s
    ensures s.Valid() && s.dirs == old(s.dirs) - {d} && s.held == old(s.held)
    ensures DirOwnersLost(old(s.owner), s.owner, d)
    ensures SameMaps(old(s.mem), s.mem, s.dirs) && SamePages(old(s.mem), s.mem, s.owner)
  {
    hide Lookup, Entry, Owned, Shared, SameMaps, SamePages, LostPages, LostOwners;
    var _ := Deallocuvm(s, d, USERTOP, 0);
    ghost var m1, h1 := s.mem, s.held;
    ghost var gone := GiveUp(s, d, old(s.mem), old(s.owner));
    FreeTables(s, d, h1, gone);
    SamesStep(old(s.mem), m1, s.mem, s.dirs, s.owner);
  }

  /** The directory's frames pass to the kernel. */
  ghost method GiveUp(s: Machine, d: int, m0: Mem, o0: map<int, Ref>) returns (gone: set<int>)
    requires s.Valid() && d in s.dirs
    requires LostPages(m0, s.mem, s.dirs, d, 0, UPAGES) && LostOwners(o0, s.owner, d, 0, UPAGES) &&
      SamePages(m0, s.mem, s.owner)
    modifies s`dirs, s`owner, s`held
    ensures s.Valid() && s.dirs == old(s.dirs) - {d} && s.held == old(s.held) + gone && gone !! old(s.held)
    ensures DirOwnersLost(o0, s.owner, d) && SameMaps(m0, s.mem, s.dirs) && SamePages(m0, s.mem, s.owner)
    ensures IsDirFrames(s.mem, d, 0, gone) && d in gone && DistinctTables(s.mem, d)
  {
    gone := set f | f in s.owner && s.owner[f].d == d;
    DropDir(s.first, s.mem, s.dirs, s.owner, d, gone);
    forall i, j | 0 <= i < NPTE && 0 <= j < NPTE && Entry(s.mem, d, i).p && Entry(s.mem, d, j).p
      ensures Entry(s.mem, d, i).frame == Entry(s.mem, d, j).frame ==> i == j
      ensures Entry(s.mem, d, i).frame != d
    {
      TabOwned(s.first, s.mem, s.dirs, s.owner, d, i);
      TabOwned(s.first, s.mem, s.dirs, s.owner, d, j);
      DirOwned(s.first, s.mem, s.dirs, s.owner, d);
    }
    PoolDrop(s.first, s.freelist, s.held, s.owner, gone);
    assert forall f :: f in s.held ==> f !in gone;
    s.dirs, s.owner, s.held := s.dirs - {d}, s.owner - gone, s.held + gone;
    hide Lookup, Entry;
  }

  /** left is d's own frame and the frames of its page tables from the i-th on. */
  ghost predicate IsDirFrames(m: Mem, d: int, i: int, left: set<int>) {
    forall f :: f in left <==> f == d || exists j :: i <= j < NPTE && Entry(m, d, j).p && Entry(m, d, j).frame == f
  }

  ghost predicate DistinctTables(m: Mem, d: int) {
    && (forall i, j :: 0 <= i < j < NPTE && Entry(m, d, i).p && Entry(m, d, j).p ==>
      Entry(m, d, i).frame != Entry(m, d, j).frame)
    && (forall i :: 0 <= i < NPTE && Entry(m, d, i).p ==> Entry(m, d, i).frame != d)
  }

  /** The loop of freevm, and the kfree of the directory itself. */
  method FreeTables(s: Machine, d: int, ghost h0: set<int>, ghost gone: set<int>)
    requires s.Valid() && d !in s.dirs && s.held == h0 + gone && gone !! h0
    requires IsDirFrames(s.mem, d, 0, gone) && DistinctTables(s.mem, d)
    modifies s`mem, s`freelist, s`held
    ensures s.Valid() && s.held == h0
    ensures SameMaps(old(s.mem), s.mem, s.dirs) && SamePages(old(s.mem), s.mem, s.owner)
  {
    hide Owned, Shared, Lookup, Entry, SameMaps, SamePages;
    ghost var left := gone;
    SamesNow(s);
    var i := 0;
    while i < NPTE
      invariant 0 <= i <= NPTE && s.Valid() && s.held == h0 + left && left !! h0
      invariant IsDirFrames(s.mem, d, i, left) && DistinctTables(s.mem, d)
      invariant SameMaps(old(s.mem), s.mem, s.dirs) && SamePages(old(s.mem), s.mem, s.owner)
    {
      ghost var m1 := s.mem;
      var pde := Entry(s.mem, d, i);
      if pde.p {
        s.HeldFrames();
        assert pde.frame in left;
        s.FreeHeld(pde.frame);
        TablesLeft(m1, s.mem, d, i, left);
        left := left - {pde.frame};
        SamesStep(old(s.mem), m1, s.mem, s.dirs, s.owner);
      }
      i := i + 1;
    }
    ghost var m2 := s.mem;
    assert forall f :: f in left <==> f == d;
    assert h0 + left - {d} == h0;
    s.FreeHeld(d);
    SamesStep(old(s.mem), m2, s.mem, s.dirs, s.owner);
  }

  lemma SamesNow(s: Machine)
    requires s.Valid()
    ensures SameMaps(s.mem, s.mem, s.dirs) && SamePages(s.mem, s.mem, s.owner)
  {
  }

  lemma SamesStep(m0: Mem, m1: Mem, m2: Mem, dirs: set<int>, owner: map<int, Ref>)
    requires SameMaps(m0, m1, dirs) && SamePages(m0, m1, owner) && SameMaps(m1, m2, dirs) && SamePages(m1, m2, owner)
    ensures SameMaps(m0, m2, dirs) && SamePages(m0, m2, owner)
  {
    hide Lookup;
  }

  /** Freeing one table leaves the directory readable, and the other tables. */
  lemma TablesLeft(m1: Mem, m2: Mem, d: int, i: int, left: set<int>)
    requires 0 <= i < NPTE && Entry(m1, d, i).p && IsDirFrames(m1, d, i, left) && DistinctTables(m1, d)
    requires 0 <= Entry(m1, d, i).frame < |m1| && m2 == m1[Entry(m1, d, i).frame := Filled(1)]
    ensures IsDirFrames(m2, d, i + 1, left - {Entry(m1, d, i).frame}) && DistinctTables(m2, d)
  {
    forall j
      ensures Entry(m2, d, j) == Entry(m1, d, j)
    {
    }
    hide Entry;
  }
}
