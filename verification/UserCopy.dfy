/** fork's copyuvm, and copyout through uva2ka (vm.c).
    copyuvm copies the heap pages and then the stack pages of a directory to a fresh one,
    page by page onto new frames; if it runs out of frames it gives the fresh directory
    up. copyout writes bytes at a user address, a page or part of a page at a time, and
    stops at the first page that is not there. Both are about user bytes: what some
    process would read at some address, through its own page table. */
module UserCopy {
  import opened Bytes
  import opened PageTables
  import opened FramePool
  import opened KernelMap
  import opened VirtualMemory

  /** The user pages of a process with heap end sz and stack size stk. */
  predicate UserSet(sz: int, stk: int, v: int) {
    2 <= v < PageUp(sz) || UPAGES - stk / PGSIZE <= v < UPAGES
  }

  /** Pages [lo, hi) of c are new, with the bytes that d's have; no other translation has changed. */
  ghost predicate CopiedPages(m0: Mem, m1: Mem, dirs: set<int>, c: int, d: int, lo: int, hi: int) {
    && OnlyRange(m0, m1, dirs, c, lo, hi - 1)
    && forall v :: lo <= v < hi ==> Lookup(m1, c, v).p && PageOf(m1, c, v) == PageOf(m0, d, v)
  }

  /** What the copy loops of copyuvm keep. */
  ghost predicate Copying(m0: Mem, m1: Mem, o0: map<int, Ref>, o1: map<int, Ref>, dirs: set<int>, c: int, d: int,
      lo: int, a: int) {
    && CopiedPages(m0, m1, dirs, c, d, lo, a) && NewOwners(o0, o1, c, lo, a) && SamePages(m0, m1, o0) &&
      TablesSame(m0, m1, dirs)
  }

  lemma CopyNone(s: Machine, c: int, d: int, a: int)
    requires s.Valid()
    ensures Copying(s.mem, s.mem, s.owner, s.owner, s.dirs, c, d, a, a)
  {
  }

  lemma CopyStep(first: int, m0: Mem, m1: Mem, m2: Mem, o0: map<int, Ref>, o1: map<int, Ref>, o2: map<int, Ref>,
      dirs: set<int>, c: int, d: int, lo: int, a: int)
    requires 0 <= lo <= a < UPAGES && c in dirs && d in dirs && c != d && Owned(first, m0, dirs, o0) &&
      Owned(first, m1, dirs, o1)
    requires Copying(m0, m1, o0, o1, dirs, c, d, lo, a) && Lookup(m0, d, a).p
    requires OnlyRange(m1, m2, dirs, c, a, a) && Lookup(m2, c, a).p && PageOf(m2, c, a) == PageOf(m1, d, a)
    requires NewOwners(o1, o2, c, a, a + 1) && SamePages(m1, m2, o1) && TablesSame(m1, m2, dirs)
    ensures Copying(m0, m2, o0, o2, dirs, c, d, lo, a + 1)
  {
    PageOwned(first, m0, dirs, o0, d, a);
    forall v | lo <= v < a
      ensures Lookup(m2, c, v) == Lookup(m1, c, v) && PageOf(m2, c, v) == PageOf(m1, c, v)
    {
      PageOwned(first, m1, dirs, o1, c, v);
    }
    hide Lookup, Entry;
  }

  /** A copy loop of copyuvm. */
  method CopyPages(s: Machine, c: int, d: int, lo: int, hi: int) returns (ok: bool)
    requires s.Valid() && c in s.dirs && d in s.dirs && c != d && 0 <= lo <= hi <= UPAGES && Entry(s.mem, c, 0).p
    requires Unmapped(s.mem, c, lo, hi) && forall v :: lo <= v < hi ==> Lookup(s.mem, d, v).p
    modifies s`mem, s`freelist, s`owner, s`held
    ensures s.Valid() && s.held == old(s.held)
    ensures ok <==> |old(s.freelist)| >= hi - lo
    ensures ok ==>
      Copying(old(s.mem), s.mem, old(s.owner), s.owner, s.dirs, c, d, lo, hi) &&
      |s.freelist| == |old(s.freelist)| - (hi - lo)
    ensures !ok ==>
      OnlyRange(old(s.mem), s.mem, s.dirs, c, lo, hi - 1) && NewOwners(old(s.owner), s.owner, c, lo, hi) &&
      SamePages(old(s.mem), s.mem, old(s.owner))
  {
    hide Lookup, Entry, Owned, Shared, Missing, Copying, OnlyRange, NewOwners, SamePages, TablesSame;
    ghost var m0 := s.mem;
    CopyNone(s, c, d, lo);
    var i := lo;
    while i < hi
      invariant lo <= i <= hi && s.Valid() && s.held == old(s.held) && Entry(s.mem, c, 0).p
      invariant Copying(m0, s.mem, old(s.owner), s.owner, s.dirs, c, d, lo, i)
      invariant |s.freelist| == |old(s.freelist)| - (i - lo)
    {
      ghost var m1, o1 := s.mem, s.owner;
      CopyFacts(m0, m1, old(s.owner), o1, s.dirs, c, d, lo, i, hi);
      PageOwned(s.first, s.mem, s.dirs, s.owner, d, i);
      var t := s.Walk(d, i, false);
      EntryOfLookup(s.mem, d, i);
      var pa := Entry(s.mem, t, i % NPTE).frame;
      var got := NewPage(s, c, i, s.mem[pa]);
      if got.NoFrame? {
        return false;
      }
      CopyStep(s.first, m0, m1, s.mem, old(s.owner), o1, s.owner, s.dirs, c, d, lo, i);
      TablePresent(m1, s.mem, s.dirs, c);
      i := i + 1;
    }
    ok := true;
  }

  lemma TablePresent(m0: Mem, m1: Mem, dirs: set<int>, c: int)
    requires TablesSame(m0, m1, dirs) && c in dirs && Entry(m0, c, 0).p
    ensures Entry(m1, c, 0).p
  {
  }

  lemma CopyFacts(m0: Mem, m1: Mem, o0: map<int, Ref>, o1: map<int, Ref>, dirs: set<int>, c: int, d: int, lo: int,
      i: int, hi: int)
    requires Copying(m0, m1, o0, o1, dirs, c, d, lo, i) && c in dirs && d in dirs && c != d &&
      0 <= lo <= i < hi <= UPAGES
    requires Unmapped(m0, c, lo, hi) && forall v :: lo <= v < hi ==> Lookup(m0, d, v).p
    ensures Lookup(m1, d, i).p && Lookup(m1, d, i) == Lookup(m0, d, i) && !Lookup(m1, c, i).p
    ensures OnlyRange(m0, m1, dirs, c, lo, hi - 1) && NewOwners(o0, o1, c, lo, hi) && SamePages(m0, m1, o0)
  {
    hide Lookup, Entry;
  }

  /** The pages of a process are all there, with the kernel map. */
  ghost predicate Present(m: Mem, kdata: int, d: int, sz: int, stk: int) {
    && Ready(m, kdata, d)
    && forall v :: 0 <= v < UPAGES && UserSet(sz, stk, v) ==> Lookup(m, d, v).p
  }

  function UserPages(sz: int, stk: int): int {
    PageUp(sz) - 2 + stk / PGSIZE
  }

  /** copyuvm: the child has the same user pages with the same bytes, in frames of its own, and the parent is untouched.
      It fails exactly for want of frames; the frames are all given back then, unless setupkvm itself failed. */
  method Copyuvm(s: Machine, d: int, sz: int, stk: int) returns (c: int)
    requires s.Valid() && d in s.dirs && Present(s.mem, s.kdata, d, sz, stk)
    requires 0x2000 <= sz && 0 <= stk && stk % PGSIZE == 0 && PageUp(sz) <= UPAGES - stk / PGSIZE
    modifies s
    ensures s.Valid() && s.held == old(s.held)
    ensures c == 0 <==> |old(s.freelist)| < 13 + UserPages(sz, stk)
    ensures c != 0 ==>
      c !in old(s.dirs) && s.dirs == old(s.dirs) + {c} && SameMaps(old(s.mem), s.mem, old(s.dirs)) &&
      SamePages(old(s.mem), s.mem, old(s.owner))
    ensures c != 0 ==> Ready(s.mem, s.kdata, c) && |s.freelist| == |old(s.freelist)| - 13 - UserPages(sz, stk)
    ensures c != 0 ==> forall v :: 0 <= v < UPAGES ==> (Lookup(s.mem, c, v).p <==> UserSet(sz, stk, v))
    ensures c != 0 ==> forall v :: 0 <= v < UPAGES && UserSet(sz, stk, v) ==>
      PageOf(s.mem, c, v) == PageOf(old(s.mem), d, v)
    ensures c == 0 && |old(s.freelist)| >= 13 ==>
      s.dirs == old(s.dirs) && s.owner == old(s.owner) && |s.freelist| == |old(s.freelist)|
    ensures c == 0 && |old(s.freelist)| >= 13 ==>
      SameMaps(old(s.mem), s.mem, old(s.dirs)) && SamePages(old(s.mem), s.mem, old(s.owner))
    ensures c == 0 && |old(s.freelist)| < 13 ==>
      s.freelist == [] && SameMaps(old(s.mem), s.mem, old(s.dirs)) && s.dirs >= old(s.dirs)
    ensures c == 0 && 0 < |old(s.freelist)| < 13 ==> exists e :: e in s.dirs && e !in old(s.dirs)
    ensures |old(s.freelist)| == 0 ==> s.dirs == old(s.dirs) && s.owner == old(s.owner)
  {
    hide Lookup, Entry, Owned, Shared, Copying, OnlyRange, NewOwners, SamePages, TablesSame, SameMaps, Kept, Ready,
      Unmapped, OnlyDir, DirOwnersLost, Present;
    ghost var m0, o0, dirs0 := s.mem, s.owner, s.dirs;
    var low := UPAGES - stk / PGSIZE;
    c := Setupkvm(s);
    if c == 0 {
      return;
    }
    ghost var m1, o1 := s.mem, s.owner;
    FreshDir(m0, m1, o0, o1, dirs0, old(s.held), s.kdata, c, d, sz, stk);
    var ok := CopyPages(s, c, d, 2, PageUp(sz));
    ghost var m2, o2 := s.mem, s.owner;
    if ok {
      HeapCopied(m1, m2, o1, o2, s.dirs, s.kdata, c, d, sz, stk);
    }
    OnlyDirStep(m0, m1, m2, o0, o1, o2, dirs0, c, 2, PageUp(sz));
    if ok {
      ok := CopyPages(s, c, d, low, UPAGES);
      OnlyDirStep(m0, m2, s.mem, o0, o2, s.owner, dirs0, c, low, UPAGES);
      if ok {
        AllCopied(s.first, m0, m1, m2, s.mem, o0, o1, o2, s.owner, dirs0, s.kdata, c, d, sz, stk);
        return;
      }
    }
    ghost var m3, o3 := s.mem, s.owner;
    Freevm(s, c);
    OnlyDirFreed(s.first, m0, m3, s.mem, o0, o3, s.owner, dirs0, c);
    SameFree(s.first, old(s.freelist), s.freelist, s.held, o0);
    return 0;
  }

  /** Since m0, only directory c, which is none of dirs, has come to use frames. */
  ghost predicate OnlyDir(m0: Mem, m1: Mem, o0: map<int, Ref>, o1: map<int, Ref>, dirs: set<int>, c: int) {
    && SameMaps(m0, m1, dirs) && SamePages(m0, m1, o0)
    && (forall f :: f in o0 ==> f in o1 && o1[f] == o0[f])
    && (forall f :: f in o1 && f !in o0 ==> o1[f].d == c)
  }

  lemma OnlyDirStep(m0: Mem, m1: Mem, m2: Mem, o0: map<int, Ref>, o1: map<int, Ref>, o2: map<int, Ref>, dirs: set<int>,
      c: int, lo: int, hi: int)
    requires OnlyDir(m0, m1, o0, o1, dirs, c) && c !in dirs
    requires OnlyRange(m1, m2, dirs + {c}, c, lo, hi - 1) || exists d ::
      Copying(m1, m2, o1, o2, dirs + {c}, c, d, lo, hi)
    requires (NewOwners(o1, o2, c, lo, hi) && SamePages(m1, m2, o1)) || exists d ::
      Copying(m1, m2, o1, o2, dirs + {c}, c, d, lo, hi)
    ensures OnlyDir(m0, m2, o0, o2, dirs, c)
  {
    hide Lookup, Entry;
  }

  lemma OnlyDirFreed(first: int, m0: Mem, m1: Mem, m2: Mem, o0: map<int, Ref>, o1: map<int, Ref>, o2: map<int, Ref>,
      dirs: set<int>, c: int)
    requires Owned(first, m0, dirs, o0) && OnlyDir(m0, m1, o0, o1, dirs, c) && c !in dirs
    requires DirOwnersLost(o1, o2, c) && SameMaps(m1, m2, dirs) && SamePages(m1, m2, o2)
    ensures o2 == o0 && SameMaps(m0, m2, dirs) && SamePages(m0, m2, o0)
  {
    hide Lookup, Entry;
    forall f | f in o0
      ensures o0[f].d != c && f in o2 && o2[f] == o0[f]
    {
      assert Names(m0, dirs, o0[f], f);
    }
    forall f | f in o2
      ensures f in o0
    {
      assert f in o1 && o1[f].d != c;
    }
    assert o2 == o0;
  }

  /** The state between setupkvm and the first copy loop. */
  lemma FreshDir(m0: Mem, m1: Mem, o0: map<int, Ref>, o1: map<int, Ref>, dirs: set<int>, held: set<int>, kdata: int,
      c: int, d: int, sz: int, stk: int)
    requires d in dirs && c !in dirs && Present(m0, kdata, d, sz, stk) && Ready(m1, kdata, c)
    requires SameMaps(m0, m1, dirs) && Kept(m0, m1, o0, o1, held, c)
    requires forall v :: 0 <= v < UPAGES ==> Lookup(m1, c, v) == NOPTE
    requires 0 <= stk && PageUp(sz) <= UPAGES - stk / PGSIZE
    ensures OnlyDir(m0, m1, o0, o1, dirs, c) && Entry(m1, c, 0).p
    ensures Unmapped(m1, c, 0, UPAGES) && Unmapped(m1, c, 2, PageUp(sz))
    ensures forall v :: 0 <= v < UPAGES && UserSet(sz, stk, v) ==> Lookup(m1, d, v).p
  {
    hide Lookup, Entry;
  }

  /** The state between the two copy loops. */
  lemma HeapCopied(m1: Mem, m2: Mem, o1: map<int, Ref>, o2: map<int, Ref>, dirs: set<int>, kdata: int, c: int, d: int,
      sz: int, stk: int)
    requires Copying(m1, m2, o1, o2, dirs, c, d, 2, PageUp(sz)) && c in dirs && d in dirs && c != d &&
      Unmapped(m1, c, 0, UPAGES) && Entry(m1, c, 0).p
    requires forall v :: 0 <= v < UPAGES && UserSet(sz, stk, v) ==> Lookup(m1, d, v).p
    requires 0x2000 <= sz && 0 <= stk && PageUp(sz) <= UPAGES - stk / PGSIZE
    ensures Entry(m2, c, 0).p && Unmapped(m2, c, UPAGES - stk / PGSIZE, UPAGES)
    ensures forall v :: UPAGES - stk / PGSIZE <= v < UPAGES ==> Lookup(m2, d, v).p
  {
    hide Lookup, Entry;
  }

  /** The child after both copy loops. */
  lemma AllCopied(first: int, m0: Mem, m1: Mem, m2: Mem, m3: Mem, o0: map<int, Ref>, o1: map<int, Ref>, o2: map<int,
      Ref>, o3: map<int, Ref>,
                  dirs: set<int>, kdata: int, c: int, d: int, sz: int, stk: int)
    requires Owned(first, m0, dirs, o0) && Owned(first, m1, dirs + {c}, o1) && Owned(first, m2, dirs + {c}, o2)
    requires d in dirs && c !in dirs && Present(m0, kdata, d, sz, stk) && OnlyDir(m0, m1, o0, o1, dirs, c)
    requires Ready(m1, kdata, c) && Unmapped(m1, c, 0, UPAGES) && OnlyDir(m0, m3, o0, o3, dirs, c)
    requires 0x2000 <= sz && 0 <= stk && PageUp(sz) <= UPAGES - stk / PGSIZE
    requires Copying(m1, m2, o1, o2, dirs + {c}, c, d, 2, PageUp(sz)) &&
      Copying(m2, m3, o2, o3, dirs + {c}, c, d, UPAGES - stk / PGSIZE, UPAGES)
    ensures Ready(m3, kdata, c) && SameMaps(m0, m3, dirs) && SamePages(m0, m3, o0)
    ensures forall v :: 0 <= v < UPAGES ==> (Lookup(m3, c, v).p <==> UserSet(sz, stk, v))
    ensures forall v :: 0 <= v < UPAGES && UserSet(sz, stk, v) ==> PageOf(m3, c, v) == PageOf(m0, d, v)
  {
    var low := UPAGES - stk / PGSIZE;
    forall v | 2 <= v < PageUp(sz)
      ensures Lookup(m3, c, v) == Lookup(m2, c, v) && PageOf(m3, c, v) == PageOf(m0, d, v)
    {
      PageOwned(first, m2, dirs + {c}, o2, c, v);
      PageOwned(first, m0, dirs, o0, d, v);
    }
    forall v | low <= v < UPAGES
      ensures PageOf(m3, c, v) == PageOf(m0, d, v)
    {
      PageOwned(first, m0, dirs, o0, d, v);
      PageOwned(first, m1, dirs + {c}, o1, d, v);
    }
    hide Lookup, Entry;
  }

  // ----- uva2ka and copyout

  /** The byte at user address x. */
  ghost function UserByte(m: Mem, d: int, x: int): bv8 {
    var f := PageOf(m, d, x / PGSIZE);
    if Lookup(m, d, x / PGSIZE).p && f.Bytes? && 0 <= x % PGSIZE < |f.bytes| then f.bytes[x % PGSIZE] else 0
  }

  /** Below USERTOP, or on a page that the kernel maps: where walkpgdir finds a page table. */
  ghost predicate Walkable(m: Mem, d: int, va: int) {
    0 <= va < U32 && (USERTOP <= va ==> Lookup(m, d, va / PGSIZE).p)
  }

  lemma WalkableRange(m: Mem, d: int, va: int)
    requires Walkable(m, d, va)
    ensures 0 <= va < U32
  {
  }

  /** uva2ka: 0 unless user code may use the page. Below USERTOP the page table it goes through is always there. */
  method Uva2ka(s: Machine, d: int, va: int) returns (pa: int)
    requires s.Valid() && d in s.dirs && Ready(s.mem, s.kdata, d) && Walkable(s.mem, d, va)
    ensures pa != 0 <==> va < USERTOP && Lookup(s.mem, d, va / PGSIZE).p
    ensures pa != 0 ==>
      pa == Lookup(s.mem, d, va / PGSIZE).frame && pa in s.owner && s.owner[pa] == User(d, va / PGSIZE)
  {
    hide Lookup, Owned, Shared;
    var v := va / PGSIZE;
    var pgtab := Entry(s.mem, d, v / NPTE).frame;
    EntryOfLookup(s.mem, d, v);
    var pte := Entry(s.mem, pgtab, v % NPTE);
    if va >= USERTOP {
      KernelPage(s.mem, s.kdata, d, v);
    } else if pte.p {
      PageOwned(s.first, s.mem, s.dirs, s.owner, d, v);
    }
    if !pte.p {
      return 0;
    }
    if !pte.u {
      return 0;
    }
    return pte.frame;
  }

  /** Pages from USERTOP on are the kernel's. */
  lemma KernelPage(m: Mem, kdata: int, d: int, v: int)
    requires Ready(m, kdata, d) && UPAGES <= v < VPAGES
    ensures !Lookup(m, d, v).u && Lookup(m, d, UPAGES).p
  {
    hide Lookup;
  }

  /** All the pages of n bytes at va are user pages of d. */
  ghost predicate AllThere(m: Mem, d: int, va: int, n: int) {
    n == 0 || (va + n <= USERTOP && forall v :: va / PGSIZE <= v && v * PGSIZE < va + n ==> Lookup(m, d, v).p)
  }

  /** copyout: the bytes at va are p afterwards, exactly if all their pages are there, and no other byte of any process
      changes. */
  method Copyout(s: Machine, d: int, va: int, p: seq<bv8>) returns (ok: bool)
    requires s.Valid() && d in s.dirs && Ready(s.mem, s.kdata, d) && Walkable(s.mem, d, va)
    modifies s`mem
    ensures s.Valid() && SameMaps(old(s.mem), s.mem, s.dirs) && Ready(s.mem, s.kdata, d)
    ensures ok <==> AllThere(old(s.mem), d, va, |p|)
    ensures ok ==> forall x :: va <= x < va + |p| ==> UserByte(s.mem, d, x) == p[x - va]
    ensures forall c, x :: c in s.dirs && 0 <= x < USERTOP && !(c == d && va <= x < va + |p|) ==>
      UserByte(s.mem, c, x) == UserByte(old(s.mem), c, x)
  {
    hide Lookup, Entry, Owned, Shared, UserByte, Ready, SameMaps, CopiedTo, AllThere, Walkable;
    var at, len := va, |p|;
    ghost var m0 := s.mem;
    CopiedNone(m0, s.dirs, d, va, p);
    WalkableRange(m0, d, va);
    while len > 0
      invariant 0 <= len <= |p| && s.Valid() && Ready(s.mem, s.kdata, d)
      invariant len > 0 ==> at == va + (|p| - len) && (at == va || (at % PGSIZE == 0 && at <= USERTOP))
      invariant CopiedTo(m0, s.mem, s.dirs, d, va, p, |p| - len) && (len == |p| || va + (|p| - len) <= USERTOP)
    {
      var va0 := at / PGSIZE * PGSIZE;
      assert va0 / PGSIZE == at / PGSIZE && at - va0 == at % PGSIZE;
      NextWalkable(m0, s.mem, s.kdata, s.dirs, d, va, p, |p| - len, at);
      var pa0 := Uva2ka(s, d, va0);
      if pa0 == 0 {
        CopyBlocked(m0, s.mem, s.dirs, d, va, p, |p| - len);
        return false;
      }
      var n := PGSIZE - (at - va0);
      if n > len {
        n := len;
      }
      ghost var m1 := s.mem;
      var chunk := p[|p| - len..|p| - len + n];
      ChunkCopied(s.first, s.mem, s.kdata, s.dirs, s.owner, d, at, chunk);
      s.mem := s.mem[pa0 := Stored(s.mem[pa0], at - va0, chunk)];
      CopiedStep(m0, m1, s.mem, s.dirs, d, va, p, |p| - len, n);
      len, at := len - n, va0 + PGSIZE;
    }
    CopiedAll(m0, s.mem, s.dirs, d, va, p);
    ok := true;
  }

  /** memmove into a frame. */
  function Stored(f: Frame, off: int, chunk: seq<bv8>): Frame
    requires f.Bytes? && 0 <= off && off + |chunk| <= |f.bytes|
  {
    Bytes(f.bytes[..off] + chunk + f.bytes[off + |chunk|..])
  }

  /** The first k bytes of p have been copied, and their pages are mapped. */
  ghost predicate CopiedTo(m0: Mem, m1: Mem, dirs: set<int>, d: int, va: int, p: seq<bv8>, k: int)
    requires 0 <= k <= |p|
  {
    && SameMaps(m0, m1, dirs)
    && (forall c, x :: c in dirs && 0 <= x < USERTOP ==>
      UserByte(m1, c, x) == if c == d && va <= x < va + k then p[x - va] else UserByte(m0, c, x))
    && (forall v :: va / PGSIZE <= v && v * PGSIZE < va + k && 0 < k ==> Lookup(m0, d, v).p)
  }

  lemma CopiedNone(m: Mem, dirs: set<int>, d: int, va: int, p: seq<bv8>)
    ensures CopiedTo(m, m, dirs, d, va, p, 0)
  {
  }

  lemma CopiedStep(m0: Mem, m1: Mem, m2: Mem, dirs: set<int>, d: int, va: int, p: seq<bv8>, k: int, n: int)
    requires 0 <= va && 0 <= k && 0 < n && k + n <= |p| && d in dirs && va + k < USERTOP &&
      (va + k) % PGSIZE + n <= PGSIZE
    requires k == 0 || (va + k) % PGSIZE == 0
    requires CopiedTo(m0, m1, dirs, d, va, p, k) && SameMaps(m1, m2, dirs) && Lookup(m1, d, (va + k) / PGSIZE).p
    requires forall c, x :: c in dirs && 0 <= x < USERTOP ==>
      UserByte(m2, c, x) == if c == d && va + k <= x < va + k + n then p[k..k + n][x - (va + k)] else UserByte(m1, c, x)
    ensures CopiedTo(m0, m2, dirs, d, va, p, k + n)
  {
    hide Lookup, UserByte;
    var at := va + k;
    forall v | va / PGSIZE <= v && v * PGSIZE < at + n
      ensures Lookup(m0, d, v).p
    {
      assert v <= at / PGSIZE;
      if v != at / PGSIZE {
        assert v * PGSIZE < va + k;
      }
    }
  }

  /** The next page to be copied to has a page table: it is a user page, or the first one behind them, or the first of
      all. */
  lemma NextWalkable(m0: Mem, m1: Mem, kdata: int, dirs: set<int>, d: int, va: int, p: seq<bv8>, k: int, at: int)
    requires Walkable(m0, d, va) && d in dirs && 0 <= k < |p| && CopiedTo(m0, m1, dirs, d, va, p, k) &&
      Ready(m1, kdata, d)
    requires at == va + k && (at == va || (at % PGSIZE == 0 && at <= USERTOP))
    ensures 0 <= at && Walkable(m1, d, at / PGSIZE * PGSIZE) && (at / PGSIZE * PGSIZE < USERTOP <==> at < USERTOP)
  {
    KernelPage(m1, kdata, d, UPAGES);
    hide Lookup, UserByte, Ready;
  }

  lemma CopyBlocked(m0: Mem, m1: Mem, dirs: set<int>, d: int, va: int, p: seq<bv8>, k: int)
    requires 0 <= va && 0 <= k < |p| && d in dirs && CopiedTo(m0, m1, dirs, d, va, p, k)
    requires va + k < USERTOP ==> !Lookup(m1, d, (va + k) / PGSIZE).p
    ensures !AllThere(m0, d, va, |p|)
    ensures SameMaps(m0, m1, dirs)
    ensures forall c, x :: c in dirs && 0 <= x < USERTOP && !(c == d && va <= x < va + |p|) ==>
      UserByte(m1, c, x) == UserByte(m0, c, x)
  {
    hide Lookup, UserByte;
    var v := (va + k) / PGSIZE;
    assert va + k < USERTOP ==> !Lookup(m0, d, v).p;
  }

  lemma CopiedAll(m0: Mem, m1: Mem, dirs: set<int>, d: int, va: int, p: seq<bv8>)
    requires d in dirs && 0 <= va && (p == [] || va + |p| <= USERTOP) && CopiedTo(m0, m1, dirs, d, va, p, |p|)
    ensures AllThere(m0, d, va, |p|)
    ensures SameMaps(m0, m1, dirs)
    ensures forall x :: va <= x < va + |p| ==> UserByte(m1, d, x) == p[x - va]
    ensures forall c, x :: c in dirs && 0 <= x < USERTOP && !(c == d && va <= x < va + |p|) ==>
      UserByte(m1, c, x) == UserByte(m0, c, x)
  {
    hide Lookup, UserByte;
  }

  /** Bytes stored in one user page show in that page only. */
  lemma ChunkCopied(first: int, m: Mem, kdata: int, dirs: set<int>, owner: map<int, Ref>, d: int, at: int,
      chunk: seq<bv8>)
    requires Owned(first, m, dirs, owner) && d in dirs && 0 <= at < USERTOP && Lookup(m, d, at / PGSIZE).p &&
      at % PGSIZE + |chunk| <= PGSIZE
    ensures var f := Lookup(m, d, at / PGSIZE).frame;
      && 0 <= f < |m| && m[f].Bytes? && |m[f].bytes| == PGSIZE
      && var m' := m[f := Stored(m[f], at % PGSIZE, chunk)];
      && Owned(first, m', dirs, owner) && SameMaps(m, m', dirs) && (Ready(m, kdata, d) ==> Ready(m', kdata, d))
      && forall c, x :: c in dirs && 0 <= x < USERTOP ==>
        UserByte(m', c, x) == if c == d && at <= x < at + |chunk| then chunk[x - at] else UserByte(m, c, x)
  {
    var v := at / PGSIZE;
    var f := Lookup(m, d, v).frame;
    PageOwned(first, m, dirs, owner, d, v);
    var y := Stored(m[f], at % PGSIZE, chunk);
    StorePage(first, m, dirs, owner, f, y);
    hide Lookup, Entry;
    var m' := m[f := y];
    forall c, x | c in dirs && 0 <= x < USERTOP
      ensures UserByte(m', c, x) == if c == d && at <= x < at + |chunk| then chunk[x - at] else UserByte(m, c, x)
    {
      var u := x / PGSIZE;
      if Lookup(m, c, u).p {
        PageOwned(first, m, dirs, owner, c, u);
      }
      assert u == v ==>
        (at <= x < at + |chunk| <==> at % PGSIZE <= x % PGSIZE < at % PGSIZE + |chunk|) &&
        x - at == x % PGSIZE - at % PGSIZE;
      assert u != v ==> !(at <= x < at + |chunk|);
    }
  }
}
