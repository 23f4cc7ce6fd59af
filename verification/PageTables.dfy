/** Page tables and the frames they are made of (vm.c, kalloc.c), as values: frame and page numbers
    stand for page-aligned physical and virtual addresses. */
module PageTables {

  const PGSIZE := 4096
  const NPTE := 1024
  // frame numbers below PHYSTOP, page numbers below USERTOP, and all page numbers
  const NFRAMES := 4096
  const UPAGES := 160
  const VPAGES := 0x10_0000

  /** A page table or page directory entry: frame is its address field. */
  datatype Pte = Pte(p: bool, frame: int, w: bool, u: bool)

  /** A frame holds a table or plain bytes, whichever was stored last. */
  datatype Frame = Table(ptes: seq<Pte>) | Bytes(bytes: seq<bv8>)

  type Mem = seq<Frame>

  const NOPTE := Pte(false, 0, false, false)

  function ZeroTable(): (f: Frame)
    ensures f.Table? && |f.ptes| == NPTE && forall j :: 0 <= j < NPTE ==> f.ptes[j] == NOPTE
  {
    Table(seq(NPTE, _ => NOPTE))
  }

  function Filled(x: bv8): (f: Frame)
    ensures f.Bytes? && |f.bytes| == PGSIZE && forall j :: 0 <= j < PGSIZE ==> f.bytes[j] == x
  {
    Bytes(seq(PGSIZE, _ => x))
  }

  /** Entry j of the table in frame t. */
  function Entry(m: Mem, t: int, j: int): Pte {
    if 0 <= t < |m| && m[t].Table? && 0 <= j < |m[t].ptes| then m[t].ptes[j] else NOPTE
  }

  /** What the hardware's two-level walk finds for page v: section 4.3 of the Intel SDM, Volume 3A. */
  function Lookup(m: Mem, d: int, v: int): Pte {
    var pde := Entry(m, d, v / NPTE);
    if pde.p then Entry(m, pde.frame, v % NPTE) else NOPTE
  }

  function SetEntry(m: Mem, t: int, j: int, e: Pte): Mem {
    if 0 <= t < |m| && m[t].Table? && 0 <= j < |m[t].ptes| then m[t := Table(m[t].ptes[j := e])] else m
  }

  // ----- Ownership

  /** A reason for a frame to be in use: as page directory d, as d's i-th page table, as d's user page v. */
  datatype Ref = Root(d: int) | Tab(d: int, i: int) | User(d: int, v: int)

  /** Frame f is in use for r. */
  ghost predicate Names(m: Mem, dirs: set<int>, r: Ref, f: int) {
    && r.d in dirs
    && match r
       case Root(d) => f == d
       case Tab(d, i) => 0 <= i < NPTE && Entry(m, d, i).p && Entry(m, d, i).frame == f
       case User(d, v) => 0 <= v < UPAGES && Lookup(m, d, v).p && Lookup(m, d, v).frame == f
  }

  predicate InPool(first: int, f: int) {
    256 <= first <= f < NFRAMES
  }

  ghost predicate KindOk(x: Frame, r: Ref) {
    if r.User? then x.Bytes? && |x.bytes| == PGSIZE else x.Table? && |x.ptes| == NPTE
  }

  /** Every frame in use is in use once, comes from the pool, and holds what its use says. */
  ghost predicate Owned(first: int, m: Mem, dirs: set<int>, owner: map<int, Ref>) {
    && |m| == NFRAMES
    && (forall r, f :: Names(m, dirs, r, f) ==> f in owner && owner[f] == r)
    && (forall f :: f in owner ==> InPool(first, f) && Names(m, dirs, owner[f], f) && KindOk(m[f], owner[f]))
    && (forall d, v :: d in dirs && 0 <= v < UPAGES && Lookup(m, d, v).p ==> Lookup(m, d, v).w && Lookup(m, d, v).u)
  }

  /** The pool is exactly the free frames, the frames in use and the frames held by the kernel. */
  ghost predicate Shared(first: int, free: seq<int>, held: set<int>, owner: map<int, Ref>) {
    && (forall i, j :: 0 <= i < j < |free| ==> free[i] != free[j])
    && (forall f :: f in free ==> InPool(first, f) && f !in owner && f !in held)
    && (forall f :: f in held ==> InPool(first, f) && f !in owner)
    && (forall f :: InPool(first, f) ==> f in free || f in owner || f in held)
  }

  /** No frame is in use twice: what one directory uses, no other does. */
  lemma OwnedApart(first: int, m: Mem, dirs: set<int>, owner: map<int, Ref>, r: Ref, s: Ref, f: int)
    requires Owned(first, m, dirs, owner) && Names(m, dirs, r, f) && Names(m, dirs, s, f)
    ensures r == s
  {
  }

  lemma DirOwned(first: int, m: Mem, dirs: set<int>, owner: map<int, Ref>, d: int)
    requires Owned(first, m, dirs, owner) && d in dirs
    ensures d in owner && owner[d] == Root(d) && InPool(first, d) && m[d].Table? && |m[d].ptes| == NPTE
  {
    assert Names(m, dirs, Root(d), d);
  }

  lemma TabOwned(first: int, m: Mem, dirs: set<int>, owner: map<int, Ref>, d: int, i: int)
    requires Owned(first, m, dirs, owner) && d in dirs && 0 <= i < NPTE && Entry(m, d, i).p
    ensures var t := Entry(m, d, i).frame;
      t in owner && owner[t] == Tab(d, i) && InPool(first, t) && m[t].Table? && |m[t].ptes| == NPTE
  {
    assert Names(m, dirs, Tab(d, i), Entry(m, d, i).frame);
  }

  /** Storing into a frame that is not in use changes no translation. */
  lemma StoreUnowned(first: int, m: Mem, dirs: set<int>, owner: map<int, Ref>, f: int, x: Frame)
    requires Owned(first, m, dirs, owner) && f !in owner && 0 <= f < NFRAMES
    ensures Owned(first, m[f := x], dirs, owner)
    ensures forall d, i :: d in dirs && 0 <= i < NPTE ==> Entry(m[f := x], d, i) == Entry(m, d, i)
    ensures forall d, v :: d in dirs && 0 <= v < VPAGES ==> Lookup(m[f := x], d, v) == Lookup(m, d, v)
  {
    var m' := m[f := x];
    forall d, i | d in dirs && 0 <= i < NPTE
      ensures Entry(m', d, i) == Entry(m, d, i)
    {
      DirOwned(first, m, dirs, owner, d);
    }
    forall d, v | d in dirs && 0 <= v < VPAGES
      ensures Lookup(m', d, v) == Lookup(m, d, v)
    {
      assert Entry(m', d, v / NPTE) == Entry(m, d, v / NPTE);
      if Entry(m, d, v / NPTE).p {
        TabOwned(first, m, dirs, owner, d, v / NPTE);
      }
    }
    forall r, c | Names(m', dirs, r, c) || Names(m, dirs, r, c)
      ensures Names(m, dirs, r, c) && Names(m', dirs, r, c)
    {
    }
  }

  /** So does storing other bytes into a user page. */
  lemma StorePage(first: int, m: Mem, dirs: set<int>, owner: map<int, Ref>, f: int, x: Frame)
    requires Owned(first, m, dirs, owner) && f in owner && owner[f].User? && x.Bytes? && |x.bytes| == PGSIZE
    ensures 0 <= f < |m| && Owned(first, m[f := x], dirs, owner)
    ensures forall d, i :: d in dirs && 0 <= i < NPTE ==> Entry(m[f := x], d, i) == Entry(m, d, i)
    ensures forall d, v :: d in dirs && 0 <= v < VPAGES ==> Lookup(m[f := x], d, v) == Lookup(m, d, v)
  {
    var m' := m[f := x];
    forall d, i | d in dirs && 0 <= i < NPTE
      ensures Entry(m', d, i) == Entry(m, d, i)
    {
      DirOwned(first, m, dirs, owner, d);
    }
    forall d, v | d in dirs && 0 <= v < VPAGES
      ensures Lookup(m', d, v) == Lookup(m, d, v)
    {
      assert Entry(m', d, v / NPTE) == Entry(m, d, v / NPTE);
      if Entry(m, d, v / NPTE).p {
        TabOwned(first, m, dirs, owner, d, v / NPTE);
      }
    }
    forall r, c | Names(m', dirs, r, c) || Names(m, dirs, r, c)
      ensures Names(m, dirs, r, c) && Names(m', dirs, r, c)
    {
    }
  }

  /** memset and the store into the directory: walkpgdir with create. */
  ghost function WithTable(m: Mem, d: int, i: int, t: int): Mem
    requires 0 <= t < |m|
  {
    SetEntry(m[t := ZeroTable()], d, i, Pte(true, t, true, true))
  }

  lemma AddTable(first: int, m: Mem, dirs: set<int>, owner: map<int, Ref>, d: int, i: int, t: int)
    requires Owned(first, m, dirs, owner) && d in dirs && 0 <= i < NPTE && !Entry(m, d, i).p
    requires t !in owner && InPool(first, t)
    ensures var m' := WithTable(m, d, i, t);
      && Owned(first, m', dirs, owner[t := Tab(d, i)])
      && (forall e, j :: e in dirs && 0 <= j < NPTE ==>
        Entry(m', e, j) == if e == d && j == i then Pte(true, t, true, true) else Entry(m, e, j))
      && (forall e, v :: e in dirs && 0 <= v < VPAGES ==> Lookup(m', e, v) == Lookup(m, e, v))
      && (forall f :: 0 <= f < NFRAMES && f != d && f != t ==> m'[f] == m[f])
  {
    var m1 := m[t := ZeroTable()];
    StoreUnowned(first, m, dirs, owner, t, ZeroTable());
    DirOwned(first, m, dirs, owner, d);
    var m', owner' := WithTable(m, d, i, t), owner[t := Tab(d, i)];
    forall e, j | e in dirs && 0 <= j < NPTE
      ensures Entry(m', e, j) == if e == d && j == i then Pte(true, t, true, true) else Entry(m, e, j)
    {
      DirOwned(first, m, dirs, owner, e);
    }
    forall e, v | e in dirs && 0 <= v < VPAGES
      ensures Lookup(m', e, v) == Lookup(m, e, v)
    {
      var k := v / NPTE;
      assert Entry(m', e, k) == if e == d && k == i then Pte(true, t, true, true) else Entry(m, e, k);
      if Entry(m, e, k).p {
        TabOwned(first, m, dirs, owner, e, k);
      }
    }
    forall r, c | Names(m', dirs, r, c) || Names(m, dirs, r, c)
      ensures r == Tab(d, i) ==> Names(m', dirs, r, c) && c == t
      ensures r != Tab(d, i) ==> Names(m, dirs, r, c) && Names(m', dirs, r, c)
    {
    }
  }

  /** The store through the pte pointer that walkpgdir returned for page v. */
  ghost function WithPte(m: Mem, d: int, v: int, e: Pte): Mem {
    SetEntry(m, Entry(m, d, v / NPTE).frame, v % NPTE, e)
  }

  /** One page translation changes, and no other, in any directory. */
  lemma SetPte(first: int, m: Mem, dirs: set<int>, owner: map<int, Ref>, d: int, v: int, e: Pte)
    requires Owned(first, m, dirs, owner) && d in dirs && 0 <= v < VPAGES && Entry(m, d, v / NPTE).p
    ensures var m' := WithPte(m, d, v, e);
      && |m'| == NFRAMES
      && (forall c, i :: c in dirs && 0 <= i < NPTE ==> Entry(m', c, i) == Entry(m, c, i))
      && (forall c, u :: c in dirs && 0 <= u < VPAGES ==> Lookup(m', c, u) == if c == d && u == v then e
        else Lookup(m, c, u))
      && (forall f :: f in owner ==> KindOk(m'[f], owner[f]))
      && (forall f :: 0 <= f < NFRAMES && f != Entry(m, d, v / NPTE).frame ==> m'[f] == m[f])
  {
    var m', t := WithPte(m, d, v, e), Entry(m, d, v / NPTE).frame;
    TabOwned(first, m, dirs, owner, d, v / NPTE);
    forall c, i | c in dirs && 0 <= i < NPTE
      ensures Entry(m', c, i) == Entry(m, c, i)
    {
      DirOwned(first, m, dirs, owner, c);
    }
    forall c, u | c in dirs && 0 <= u < VPAGES
      ensures Lookup(m', c, u) == if c == d && u == v then e else Lookup(m, c, u)
    {
      var k := u / NPTE;
      assert Entry(m', c, k) == Entry(m, c, k);
      if Entry(m, c, k).p {
        TabOwned(first, m, dirs, owner, c, k);
        assert k == v / NPTE && u % NPTE == v % NPTE ==> u == v;
      }
    }
  }

  /** A held frame becomes user page v. */
  lemma MapUser(first: int, m: Mem, dirs: set<int>, owner: map<int, Ref>, d: int, v: int, f: int)
    requires Owned(first, m, dirs, owner) && d in dirs && 0 <= v < UPAGES && Entry(m, d, v / NPTE).p &&
      !Lookup(m, d, v).p
    requires InPool(first, f) && f !in owner && KindOk(m[f], User(d, v))
    ensures Owned(first, WithPte(m, d, v, Pte(true, f, true, true)), dirs, owner[f := User(d, v)])
  {
    var e := Pte(true, f, true, true);
    var m', owner' := WithPte(m, d, v, e), owner[f := User(d, v)];
    SetPte(first, m, dirs, owner, d, v, e);
    TabOwned(first, m, dirs, owner, d, v / NPTE);
    forall r, c | Names(m', dirs, r, c) || Names(m, dirs, r, c)
      ensures r == User(d, v) ==> Names(m', dirs, r, c) && c == f
      ensures r != User(d, v) ==> Names(m, dirs, r, c) && Names(m', dirs, r, c)
    {
    }
    hide Lookup, Entry, SetEntry;
  }

  /** A kernel page is mapped: nothing changes hands. */
  lemma MapKernel(first: int, m: Mem, dirs: set<int>, owner: map<int, Ref>, d: int, v: int, e: Pte)
    requires Owned(first, m, dirs, owner) && d in dirs && UPAGES <= v < VPAGES && Entry(m, d, v / NPTE).p
    ensures Owned(first, WithPte(m, d, v, e), dirs, owner)
  {
    var m' := WithPte(m, d, v, e);
    SetPte(first, m, dirs, owner, d, v, e);
    forall r, c | Names(m', dirs, r, c) || Names(m, dirs, r, c)
      ensures Names(m, dirs, r, c) && Names(m', dirs, r, c)
    {
    }
    hide Lookup, Entry, SetEntry;
  }

  /** A user page is unmapped and its frame refilled, in the code's order: kfree first. */
  lemma UnmapUser(first: int, m: Mem, dirs: set<int>, owner: map<int, Ref>, d: int, v: int, f: int, junk: Frame)
    requires Owned(first, m, dirs, owner) && d in dirs && 0 <= v < UPAGES && Lookup(m, d, v).p &&
      Lookup(m, d, v).frame == f
    ensures f in owner && owner[f] == User(d, v)
    ensures Entry(m, d, v / NPTE).p && Entry(m, d, v / NPTE).frame != f && InPool(first, f)
    ensures var m' := WithPte(m[f := junk], d, v, NOPTE);
      && Owned(first, m', dirs, owner - {f})
      && (forall c, i :: c in dirs && 0 <= i < NPTE ==> Entry(m', c, i) == Entry(m, c, i))
      && (forall c, u :: c in dirs && 0 <= u < VPAGES ==> Lookup(m', c, u) == if c == d && u == v then NOPTE
        else Lookup(m, c, u))
      && (forall g :: 0 <= g < NFRAMES && g != f && g != Entry(m, d, v / NPTE).frame ==> m'[g] == m[g])
      && m'[f] == junk
  {
    assert Names(m, dirs, User(d, v), f);
    TabOwned(first, m, dirs, owner, d, v / NPTE);
    var t := Entry(m, d, v / NPTE).frame;
    var m1 := WithPte(m, d, v, NOPTE);
    SetPte(first, m, dirs, owner, d, v, NOPTE);
    DirOwned(first, m, dirs, owner, d);
    assert WithPte(m[f := junk], d, v, NOPTE) == m1[f := junk];
    forall r, c | Names(m1, dirs, r, c) || Names(m, dirs, r, c)
      ensures r == User(d, v) ==> !Names(m1, dirs, r, c) && c == f
      ensures r != User(d, v) ==> Names(m, dirs, r, c) && Names(m1, dirs, r, c) && c != f
    {
    }
    UnmapOwned(first, m, m1, dirs, owner, User(d, v), f);
    StoreUnowned(first, m1, dirs, owner - {f}, f, junk);
    hide Lookup, Entry, SetEntry;
  }

  /** Taking a frame out of the map of owners. */
  lemma UnmapOwned(first: int, m: Mem, m1: Mem, dirs: set<int>, owner: map<int, Ref>, r0: Ref, f: int)
    requires Owned(first, m, dirs, owner) && |m1| == NFRAMES && Names(m, dirs, r0, f)
    requires forall r, c :: Names(m1, dirs, r, c) ==> Names(m, dirs, r, c) && r != r0
    requires forall r, c :: Names(m, dirs, r, c) && r != r0 ==> Names(m1, dirs, r, c)
    requires forall c :: c in owner ==> KindOk(m1[c], owner[c])
    requires forall d, v :: d in dirs && 0 <= v < UPAGES && Lookup(m1, d, v).p ==> Lookup(m1, d, v) == Lookup(m, d, v)
    ensures Owned(first, m1, dirs, owner - {f})
  {
    forall c | Names(m, dirs, r0, c)
      ensures c == f
    {
    }
    hide Lookup, Entry;
  }

  /** A held frame, zeroed, becomes a page directory. */
  lemma AddDir(first: int, m: Mem, dirs: set<int>, owner: map<int, Ref>, d: int)
    requires Owned(first, m, dirs, owner) && InPool(first, d) && d !in owner
    ensures var m' := m[d := ZeroTable()];
      && d !in dirs
      && Owned(first, m', dirs + {d}, owner[d := Root(d)])
      && (forall i :: 0 <= i < NPTE ==> Entry(m', d, i) == NOPTE)
      && (forall v :: 0 <= v < VPAGES ==> Lookup(m', d, v) == NOPTE)
      && (forall c, v :: c in dirs && 0 <= v < VPAGES ==> Lookup(m', c, v) == Lookup(m, c, v))
      && (forall c, i :: c in dirs && 0 <= i < NPTE ==> Entry(m', c, i) == Entry(m, c, i))
  {
    var m' := m[d := ZeroTable()];
    if d in dirs {
      DirOwned(first, m, dirs, owner, d);
    }
    StoreUnowned(first, m, dirs, owner, d, ZeroTable());
    forall v | 0 <= v < VPAGES
      ensures Lookup(m', d, v) == NOPTE
    {
      assert Entry(m', d, v / NPTE) == NOPTE;
    }
    forall r, c | Names(m', dirs + {d}, r, c) || Names(m', dirs, r, c)
      ensures Names(m', dirs, r, c) || (r == Root(d) && c == d)
      ensures Names(m', dirs + {d}, r, c)
    {
    }
    hide Lookup, Entry;
  }

  /** A directory without user pages is given up: its frames are the kernel's to free. */
  lemma DropDir(first: int, m: Mem, dirs: set<int>, owner: map<int, Ref>, d: int, gone: set<int>)
    requires Owned(first, m, dirs, owner) && d in dirs
    requires forall v :: 0 <= v < UPAGES ==> !Lookup(m, d, v).p
    requires forall f :: f in gone <==> f in owner && owner[f].d == d
    ensures Owned(first, m, dirs - {d}, owner - gone)
    ensures d in gone && forall f :: f in gone <==>
      f == d || exists i :: 0 <= i < NPTE && Entry(m, d, i).p && Entry(m, d, i).frame == f
  {
    forall r, c | Names(m, dirs, r, c)
      ensures r.d != d ==> Names(m, dirs - {d}, r, c) && c !in gone
    {
    }
    forall r, c | Names(m, dirs - {d}, r, c)
      ensures r.d != d && Names(m, dirs, r, c)
    {
    }
    DirOwned(first, m, dirs, owner, d);
    forall f | f in gone && f != d
      ensures exists i :: 0 <= i < NPTE && Entry(m, d, i).p && Entry(m, d, i).frame == f
    {
      assert Names(m, dirs, owner[f], f);
      assert owner[f].Tab?;
      assert Entry(m, d, owner[f].i).p;
    }
    forall i | 0 <= i < NPTE && Entry(m, d, i).p
      ensures Entry(m, d, i).frame in gone
    {
      TabOwned(first, m, dirs, owner, d, i);
    }
    hide Lookup, Entry;
  }
}
