/** The layout of lab4's address spaces over whole runs: growproc, growstack from the page-fault case of trap, fork,
    exec, and what wait and userinit do to memory (proc.c, trap.c, exec.c).
    A process has its heap from 0x2000 up and its stack from USERTOP down, with at least five pages between them, and
    no other user page. Each operation is a method that keeps this for every process, or says exactly when it does not;
    each also says what it does to the frames and bytes of the others. The lemmas behind the class say when a layout
    survives a change of the page table: pages added or removed at the end of the heap or of the stack, a directory
    copied, and a directory freed. */
module AddressSpaces {
  import opened PageTables
  import opened FramePool
  import opened KernelMap
  import opened VirtualMemory
  import opened UserCopy
  import opened ExecArgs
  import opened Bytes

  /** The part of the trap frame that exec sets. */
  datatype TrapFrame = TrapFrame(eip: int, esp: int)

  /** How a call ends: it does what it is asked, or changes nothing and reports that, or the kernel panics at
      "remap". */
  datatype Outcome = Success | Failure | Panics

  /** The memory of a process: heap end and stack size in bytes. */
  datatype Proc = Proc(pgdir: int, kstack: int, sz: int, stk: int, tf: TrapFrame)

  /** The present user pages are exactly [0x2000, PGROUNDUP(sz)) and [USERTOP-stk, USERTOP), at least five pages
      apart. */
  ghost predicate Layout(m: Mem, kdata: int, p: Proc) {
    && 0x2000 <= p.sz && 0 <= p.stk && p.stk % PGSIZE == 0 && p.sz + 5 * PGSIZE <= USERTOP - p.stk
    && Ready(m, kdata, p.pgdir)
    && forall v :: 0 <= v < UPAGES ==> (Lookup(m, p.pgdir, v).p <==> UserSet(p.sz, p.stk, v))
  }

  /** Kernel translations decide whether a directory is ready. */
  lemma ReadyKept(m0: Mem, m1: Mem, kdata: int, d: int)
    requires Ready(m0, kdata, d) && forall v :: UPAGES <= v < VPAGES ==> Lookup(m1, d, v) == Lookup(m0, d, v)
    ensures Ready(m1, kdata, d)
  {
    assert Lookup(m1, d, UPAGES).p;
  }

  /** A process whose translations do not change keeps its layout. */
  lemma LayoutKept(m0: Mem, m1: Mem, kdata: int, p: Proc)
    requires Layout(m0, kdata, p) && forall v :: 0 <= v < VPAGES ==> Lookup(m1, p.pgdir, v) == Lookup(m0, p.pgdir, v)
    ensures Layout(m1, kdata, p)
  {
    ReadyKept(m0, m1, kdata, p.pgdir);
    hide Lookup, Ready;
  }

  /** The layout after pages [lo, hi) have been added or removed. */
  lemma LayoutMoved(m0: Mem, m1: Mem, dirs: set<int>, kdata: int, p: Proc, q: Proc, lo: int, hi: int)
    requires Layout(m0, kdata, p) && p.pgdir in dirs && q.pgdir == p.pgdir &&
      OnlyRange(m0, m1, dirs, p.pgdir, lo, hi - 1)
    requires 0 <= lo && hi <= UPAGES
    requires 0x2000 <= q.sz && 0 <= q.stk && q.stk % PGSIZE == 0 && q.sz + 5 * PGSIZE <= USERTOP - q.stk
    requires forall v :: 0 <= v < UPAGES && !(lo <= v < hi) ==> (UserSet(q.sz, q.stk, v) <==> UserSet(p.sz, p.stk, v))
    requires forall v :: lo <= v < hi ==> (Lookup(m1, p.pgdir, v).p <==> UserSet(q.sz, q.stk, v))
    ensures Layout(m1, kdata, q)
  {
    ReadyKept(m0, m1, kdata, p.pgdir);
    hide Lookup, Ready;
  }

  /** Unsigned 32-bit arithmetic. */
  function U(x: int): int {
    x % U32
  }

  /** Every process has its layout, its own page directory and its own kernel stack. */
  ghost predicate AllLaidOut(m: Mem, kdata: int, dirs: set<int>, held: set<int>, procs: seq<Proc>) {
    && (forall i :: 0 <= i < |procs| ==>
      procs[i].pgdir in dirs && procs[i].kstack in held && Layout(m, kdata, procs[i]))
    && (forall i, j :: 0 <= i < j < |procs| ==> procs[i].pgdir != procs[j].pgdir && procs[i].kstack != procs[j].kstack)
  }

  /** Pages [lo, hi) of process i have changed so that it is now q; then the layouts hold exactly if q's does. */
  lemma OneMoved(m0: Mem, m1: Mem, kdata: int, dirs: set<int>, held: set<int>, procs: seq<Proc>, i: int, q: Proc,
      lo: int, hi: int)
    requires AllLaidOut(m0, kdata, dirs, held, procs) && 0 <= i < |procs| && q.pgdir == procs[i].pgdir &&
      q.kstack == procs[i].kstack
    requires OnlyRange(m0, m1, dirs, q.pgdir, lo, hi - 1)
    ensures AllLaidOut(m1, kdata, dirs, held, procs[i := q]) <==> Layout(m1, kdata, q)
  {
    var procs' := procs[i := q];
    forall j | 0 <= j < |procs| && j != i
      ensures Layout(m1, kdata, procs'[j])
    {
      LayoutKept(m0, m1, kdata, procs[j]);
    }
    hide Layout, Lookup;
    assert procs'[i] == q;
  }

  /** The pages that sbrk adds are free to be mapped. */
  lemma RoomToGrow(m: Mem, kdata: int, p: Proc, newsz: int)
    requires Layout(m, kdata, p) && p.sz <= newsz && newsz + 5 * PGSIZE <= USERTOP - p.stk
    ensures Unmapped(m, p.pgdir, PageUp(p.sz), PageUp(newsz)) && PageUp(newsz) <= UPAGES
    ensures PageUp(p.sz) <= PageUp(newsz)
  {
    hide Lookup, Ready;
  }

  lemma GrownLayout(m0: Mem, m1: Mem, dirs: set<int>, kdata: int, p: Proc, newsz: int)
    requires Layout(m0, kdata, p) && p.pgdir in dirs && p.sz <= newsz && newsz + 5 * PGSIZE <= USERTOP - p.stk
    requires NewPages(m0, m1, dirs, p.pgdir, PageUp(p.sz), PageUp(newsz))
    ensures Layout(m1, kdata, p.(sz := newsz)) && OnlyRange(m0, m1, dirs, p.pgdir, PageUp(p.sz), PageUp(newsz) - 1)
  {
    hide Lookup, Ready;
    LayoutMoved(m0, m1, dirs, kdata, p, p.(sz := newsz), PageUp(p.sz), PageUp(newsz));
  }

  lemma UngrownLayout(m0: Mem, m1: Mem, dirs: set<int>, kdata: int, p: Proc, lo: int, hi: int)
    requires Layout(m0, kdata, p) && p.pgdir in dirs && 0 <= lo && hi <= UPAGES
    requires OnlyRange(m0, m1, dirs, p.pgdir, lo, hi - 1) && SameView(m0, m1, dirs)
    ensures Layout(m1, kdata, p)
  {
    hide Lookup, Ready;
    LayoutMoved(m0, m1, dirs, kdata, p, p, lo, hi);
  }

  lemma ShrunkLayout(m0: Mem, m1: Mem, dirs: set<int>, kdata: int, p: Proc, newsz: int)
    requires Layout(m0, kdata, p) && p.pgdir in dirs && 0 <= newsz < p.sz
    requires LostPages(m0, m1, dirs, p.pgdir, PageUp(newsz), PageUp(p.sz))
    ensures Layout(m1, kdata, p.(sz := newsz)) <==> 0x2000 <= newsz
    ensures newsz == 0 ==> (Layout(m1, kdata, p) <==> p.sz == 0x2000)
    ensures OnlyRange(m0, m1, dirs, p.pgdir, PageUp(newsz), PageUp(p.sz) - 1)
  {
    hide Lookup, Ready;
    assert 2 <= PageUp(p.sz) <= UPAGES;
    if 0x2000 <= newsz {
      LayoutMoved(m0, m1, dirs, kdata, p, p.(sz := newsz), PageUp(newsz), PageUp(p.sz));
    }
    if newsz == 0 {
      if p.sz == 0x2000 {
        LayoutMoved(m0, m1, dirs, kdata, p, p, 0, 2);
      } else {
        assert !Lookup(m1, p.pgdir, 2).p && UserSet(p.sz, p.stk, 2);
      }
    }
  }

  class Spaces {
    const s: Machine
    var procs: seq<Proc>

    ghost predicate Valid()
      reads this, s
    {
      s.Valid() && AllLaidOut(s.mem, s.kdata, s.dirs, s.held, procs)
    }

    constructor (s: Machine)
      requires s.Valid()
      ensures Valid() && this.s == s && procs == []
    {
      this.s, procs := s, [];
    }

    /** userinit's memory, with inituvm: one page at 0x2000 holding the first program, and no stack yet. */
    method Userinit(init: seq<byte>)
      requires Valid() && procs == [] && s.dirs == {} && s.held == {} && |s.freelist| >= 15 && |init| < PGSIZE
      modifies this, s
      ensures Valid() && Tight() && |procs| == 1 && |s.freelist| == |old(s.freelist)| - 15
      ensures procs[0] == Proc(procs[0].pgdir, procs[0].kstack, 0x3000, 0, TrapFrame(0x2000, 0x3000))
      ensures forall x :: 0 <= x < USERTOP ==>
        UserByte(s.mem, procs[0].pgdir, x) == if 0x2000 <= x < 0x2000 + |init| then init[x - 0x2000] else 0
    {
      hide Lookup, Owned, Shared, Entry, SameMaps, SamePages, UserByte, PageOf, Kept, Ready, OnlyRange, TablesSame,
        NewOwners;
      var kstack := s.Kalloc();
      var pgdir := Setupkvm(s);
      ReadyTable(s.mem, s.kdata, pgdir);
      ghost var m1 := s.mem;
      var r := NewPage(s, pgdir, 2, Padded(init));
      procs := [Proc(pgdir, kstack, PGSIZE + 0x2000, 0, TrapFrame(0x2000, PGSIZE + 0x2000))];
      FirstImage(m1, s.mem, s.dirs, s.kdata, procs[0], init);
      assert procs[0].pgdir == pgdir && procs[0].kstack == kstack;
    }

    /** When sbrk(n) succeeds, with so many frames free. */
    predicate Grows(p: Proc, n: int, frames: nat) {
      if n > 0 then p.sz + n + 5 * PGSIZE <= USERTOP - p.stk && frames >= PageUp(p.sz + n) - PageUp(p.sz)
      else p.sz + n > 0 || -5 * PGSIZE <= p.sz + n < 0
    }

    /** Where growproc's unsigned comparison refuses. */
    ghost predicate Refused(p: Proc, n: int) {
      U(U(p.sz + n) + 5 * PGSIZE) > USERTOP - p.stk
    }

    /** growproc. It succeeds exactly as Grows says. sbrk(0) does, and changes nothing; a heap end below zero by at most
        five pages wraps and passes the check, and then nothing happens either; a heap end of zero unmaps the heap
        and is reported as a failure. The layout is kept exactly unless the heap end drops below 0x2000. */
    method Growproc(i: int, n: int) returns (r: Outcome)
      requires Valid() && 0 <= i < |procs| && -0x8000_0000 <= n < 0x8000_0000
      modifies this, s`mem, s`freelist, s`owner, s`held
      ensures var p := old(procs[i]);
        && (Valid() <==> !(0 <= p.sz + n < 0x2000) || (p.sz == 0x2000 && n == -0x2000))
        && s.Valid() && s.held == old(s.held)
        && !r.Panics?
        && (r.Success? <==> Grows(p, n, |old(s.freelist)|))
        && (r.Failure? ==> procs == old(procs))
        && (r.Success? ==> procs == if p.sz + n < 0 then old(procs) else old(procs)[i := p.(sz := p.sz + n)])
        && (n == 0 || p.sz + n < 0 || p.sz + n + 5 * PGSIZE > USERTOP - p.stk ==>
          s.mem == old(s.mem) && s.freelist == old(s.freelist) && s.owner == old(s.owner))
        && (n > 0 && r.Success? ==>
          && NewPages(old(s.mem), s.mem, s.dirs, p.pgdir, PageUp(p.sz), PageUp(p.sz + n))
          && NewOwners(old(s.owner), s.owner, p.pgdir, PageUp(p.sz), PageUp(p.sz + n)))
        && (n < 0 && 0 <= p.sz + n ==>
          && LostPages(old(s.mem), s.mem, s.dirs, p.pgdir, PageUp(p.sz + n), PageUp(p.sz))
          && LostOwners(old(s.owner), s.owner, p.pgdir, PageUp(p.sz + n), PageUp(p.sz)))
        && (n > 0 && r.Failure? ==>
          && SameView(old(s.mem), s.mem, s.dirs) && s.owner == old(s.owner)
          && |s.freelist| == |old(s.freelist)|)
        && (n > 0 ==> SamePages(old(s.mem), s.mem, old(s.owner)))
        && (n <= 0 ==> SamePages(old(s.mem), s.mem, s.owner))
    {
      hide Lookup, Layout, NewPages, LostPages, SameView, OnlyRange, SamePages, Owned, Shared, UserSet, AllLaidOut,
        Entry, LostOwners, NewOwners, Unmapped, TablesSame;
      var p := procs[i];
      ghost var m0 := s.mem;
      Facts(i, n);
      var sz := p.sz;
      if U(U(sz + n) + 5 * PGSIZE) > USERTOP - p.stk {
        return Failure;
      }
      if n > 0 {
        RoomToGrow(m0, s.kdata, p, p.sz + n);
        var a := Allocuvm(s, p.pgdir, sz, U(sz + n));
        if a.Panic? {
          assert false;
        } else if a.n == 0 {
          UngrownLayout(m0, s.mem, s.dirs, s.kdata, p, PageUp(p.sz), PageUp(p.sz + n));
          OneMoved(m0, s.mem, s.kdata, s.dirs, s.held, procs, i, p, PageUp(p.sz), PageUp(p.sz + n));
          return Failure;
        }
        sz := a.n;
        GrownLayout(m0, s.mem, s.dirs, s.kdata, p, sz);
        OneMoved(m0, s.mem, s.kdata, s.dirs, s.held, procs, i, p.(sz := sz), PageUp(p.sz), PageUp(sz));
      } else if n < 0 {
        sz := Deallocuvm(s, p.pgdir, sz, U(sz + n));
        if 0 <= p.sz + n {
          ShrunkLayout(m0, s.mem, s.dirs, s.kdata, p, p.sz + n);
          OneMoved(m0, s.mem, s.kdata, s.dirs, s.held, procs, i, p, PageUp(p.sz + n), PageUp(p.sz));
          OneMoved(m0, s.mem, s.kdata, s.dirs, s.held, procs, i, p.(sz := p.sz + n), PageUp(p.sz + n), PageUp(p.sz));
        }
        if sz == 0 {
          return Failure;
        }
      }
      procs := procs[i := p.(sz := sz)];
      r := Success;
    }

    /** What growproc needs to know of process i. */
    lemma Facts(i: int, n: int)
      requires Valid() && 0 <= i < |procs| && -0x8000_0000 <= n < 0x8000_0000
      ensures procs[i].pgdir in s.dirs && Layout(s.mem, s.kdata, procs[i]) && Entry(s.mem, procs[i].pgdir, 0).p
      ensures 0x2000 <= procs[i].sz <= USERTOP && 0 <= procs[i].stk &&
        procs[i].sz + 5 * PGSIZE <= USERTOP - procs[i].stk
      ensures SamePages(s.mem, s.mem, s.owner) && SameView(s.mem, s.mem, s.dirs)
      ensures procs[i := procs[i]] == procs && procs[i].(sz := procs[i].sz) == procs[i]
      ensures Refused(procs[i], n) <==>
        (if procs[i].sz + n < -5 * PGSIZE then true else procs[i].sz + n + 5 * PGSIZE > USERTOP - procs[i].stk)
      ensures n > 0 || 0 <= procs[i].sz + n ==> U(procs[i].sz + n) == procs[i].sz + n
      ensures -5 * PGSIZE <= procs[i].sz + n < 0 ==> U(procs[i].sz + n) > USERTOP
    {
      hide Lookup;
    }

    /** growstack, for every n. Its check lets a size wrap that leaves less than five pages below the stack; the
        range to be mapped then starts among the heap's pages, or the size is beyond USERTOP and nothing is mapped at
        all. Shrinking passes deallocuvm its sizes the wrong way round and unmaps nothing. So the layout is kept
        exactly if the call is refused before it unmaps heap pages, changes no page, or leaves the gap. */
    method Growstack(i: int, n: int) returns (r: Outcome)
      requires Valid() && 0 <= i < |procs| && -0x8000_0000 <= n < 0x8000_0000
      modifies this, s`mem, s`freelist, s`owner, s`held
      ensures s.Valid()
      ensures var p := old(procs[i]);
        r.Panics? <==>
          n > 0 && Passes(p, n) && HitsHeap(p, NewStk(p, n)) && |old(s.freelist)| >= FramesUsed(p, NewStk(p, n))
      ensures var p := old(procs[i]);
        r.Failure? <==>
          !Passes(p, n) ||
          (n > 0 && NewStk(p, n) <= USERTOP && |old(s.freelist)| < FramesUsed(p, NewStk(p, n)))
      ensures var p := old(procs[i]);
        !r.Panics? ==>
          (Valid() <==>
            if r.Failure? then !(Passes(p, n) && HitsHeap(p, NewStk(p, n)))
            else NewStk(p, n) == p.stk || (n > 0 && p.sz + 5 * PGSIZE <= USERTOP - NewStk(p, n)))
      ensures !r.Panics? ==> s.held == old(s.held)
      ensures !r.Success? ==> procs == old(procs)
      ensures r.Success? ==> procs == old(procs)[i := old(procs[i]).(stk := NewStk(old(procs[i]), n))]
      ensures var p, newstk := old(procs[i]), NewStk(old(procs[i]), n);
        n > 0 && r.Success? && newstk <= USERTOP ==>
          && NewPages(old(s.mem), s.mem, s.dirs, p.pgdir, UPAGES - newstk / PGSIZE, UPAGES - p.stk / PGSIZE)
          && NewOwners(old(s.owner), s.owner, p.pgdir, UPAGES - newstk / PGSIZE, UPAGES - p.stk / PGSIZE)
      ensures var p, newstk := old(procs[i]), NewStk(old(procs[i]), n);
        r.Failure? && Passes(p, n) && HitsHeap(p, newstk) ==>
          && LostPages(old(s.mem), s.mem, s.dirs, p.pgdir, UPAGES - newstk / PGSIZE, UPAGES - p.stk / PGSIZE)
          && LostOwners(old(s.owner), s.owner, p.pgdir, UPAGES - newstk / PGSIZE, UPAGES - p.stk / PGSIZE)
          && SamePages(old(s.mem), s.mem, s.owner)
      ensures var p, newstk := old(procs[i]), NewStk(old(procs[i]), n);
        n <= 0 || newstk > USERTOP || !Passes(p, n) ==>
          s.mem == old(s.mem) && s.freelist == old(s.freelist) && s.owner == old(s.owner)
      ensures !HitsHeap(old(procs[i]), NewStk(old(procs[i]), n)) ==> SamePages(old(s.mem), s.mem, old(s.owner))
      ensures r.Failure? && !HitsHeap(old(procs[i]), NewStk(old(procs[i]), n)) ==>
        SameView(old(s.mem), s.mem, s.dirs) && s.owner == old(s.owner) && |s.freelist| == |old(s.freelist)|
    {
      hide Lookup, Layout, NewPages, LostPages, SameView, OnlyRange, SamePages, Owned, Shared, UserSet, AllLaidOut,
        Entry, LostOwners, NewOwners, Unmapped, TablesSame, HitsHeap, Clash;
      var p := procs[i];
      ghost var m0 := s.mem;
      StackFacts(i);
      StackArith(p, n);
      if U(USERTOP - p.stk - n - 5 * PGSIZE) < p.sz {
        return Failure;
      }
      var newstk := U(PageUp(U(p.stk + n)) * PGSIZE);
      ghost var lo, hi := UPAGES - newstk / PGSIZE, UPAGES - p.stk / PGSIZE;
      if n > 0 {
        if newstk <= USERTOP {
          StackRange(m0, s.kdata, p, newstk, |s.freelist|);
        }
        var a := Allocuvm(s, p.pgdir, U(USERTOP - newstk), USERTOP - p.stk);
        if a.Panic? {
          return Panics;
        }
        if a.n == 0 {
          StackRefused(m0, s.mem, s.dirs, s.kdata, p, newstk);
          OneMoved(m0, s.mem, s.kdata, s.dirs, s.held, procs, i, p, lo, hi);
          return Failure;
        }
        if newstk <= USERTOP {
          DeeperLayout(m0, s.mem, s.dirs, s.kdata, p, newstk);
          OneMoved(m0, s.mem, s.kdata, s.dirs, s.held, procs, i, p.(stk := newstk), lo, hi);
        } else {
          NoLayout(s.mem, s.kdata, p.(stk := newstk));
          OneMoved(m0, s.mem, s.kdata, s.dirs, s.held, procs, i, p.(stk := newstk), 0, 0);
        }
      } else if n < 0 {
        var a := Deallocuvm(s, p.pgdir, USERTOP - p.stk, U(USERTOP - newstk));
        if a == 0 {
          return Failure;
        }
        ShallowerLayout(m0, s.kdata, p, newstk);
        OneMoved(m0, s.mem, s.kdata, s.dirs, s.held, procs, i, p.(stk := newstk), 0, 0);
      }
      procs := procs[i := p.(stk := newstk)];
      r := Success;
    }

    lemma StackFacts(i: int)
      requires Valid() && 0 <= i < |procs|
      ensures procs[i].pgdir in s.dirs && Layout(s.mem, s.kdata, procs[i]) && Entry(s.mem, procs[i].pgdir, 0).p
      ensures 0x2000 <= procs[i].sz && 0 <= procs[i].stk && procs[i].stk % PGSIZE == 0 &&
        procs[i].sz + 5 * PGSIZE <= USERTOP - procs[i].stk
      ensures SamePages(s.mem, s.mem, s.owner) && procs[i := procs[i]] == procs &&
        procs[i].(stk := procs[i].stk) == procs[i]
      ensures OnlyRange(s.mem, s.mem, s.dirs, procs[i].pgdir, 0, -1) && SameView(s.mem, s.mem, s.dirs)
    {
      hide Lookup;
    }

    /** The page-fault case of trap, on an address whose page is not mapped: the stack is grown down to that page,
        or the process is killed. All the pages between are mapped, and the heap keeps its distance. */
    method PageFault(i: int, loc: int) returns (r: Outcome)
      requires Valid() && 0 <= i < |procs| && 0 <= loc < U32
      requires loc < USERTOP ==> !Lookup(s.mem, procs[i].pgdir, loc / PGSIZE).p
      modifies this, s`mem, s`freelist, s`owner, s`held
      ensures Valid() && s.held == old(s.held) && SamePages(old(s.mem), s.mem, old(s.owner))
      ensures !r.Panics?
      ensures r.Success? <==> var p := old(procs[i]);
        p.sz + 5 * PGSIZE <= loc / PGSIZE * PGSIZE && loc < USERTOP &&
          |old(s.freelist)| >= UPAGES - p.stk / PGSIZE - loc / PGSIZE
      ensures r.Success? ==>
        procs == old(procs)[i := old(procs[i]).(stk := USERTOP - loc / PGSIZE * PGSIZE)] &&
        Lookup(s.mem, procs[i].pgdir, loc / PGSIZE).p
      ensures r.Success? ==>
        && NewPages(old(s.mem), s.mem, s.dirs, old(procs[i]).pgdir, loc / PGSIZE, UPAGES - old(procs[i]).stk / PGSIZE)
        && NewOwners(old(s.owner), s.owner, old(procs[i]).pgdir, loc / PGSIZE, UPAGES - old(procs[i]).stk / PGSIZE)
      ensures r.Failure? ==>
        && procs == old(procs) && SameView(old(s.mem), s.mem, s.dirs)
        && s.owner == old(s.owner) && |s.freelist| == |old(s.freelist)|
    {
      hide Lookup, Layout, NewPages, SameView, OnlyRange, SamePages, Owned, Shared, UserSet, AllLaidOut, Entry,
        NewOwners, TablesSame;
      var p := procs[i];
      Facts(i, 0);
      var newStk := U(USERTOP - loc / PGSIZE * PGSIZE);
      if loc < 0x2000 || loc < U(p.sz + 0x5000) || loc >= USERTOP {
        return Failure;
      }
      FaultBelowStack(i, loc);
      r := Growstack(i, newStk - p.stk);
      if r.Success? {
        FaultMapped(i, loc);
      }
    }

    lemma FaultBelowStack(i: int, loc: int)
      requires Valid() && 0 <= i < |procs| && 0 <= loc < USERTOP && !Lookup(s.mem, procs[i].pgdir, loc / PGSIZE).p &&
        procs[i].sz + 0x5000 <= loc
      ensures var stk := USERTOP - loc / PGSIZE * PGSIZE;
        && U(stk) == stk && stk % PGSIZE == 0 && stk > procs[i].stk && stk + 5 * PGSIZE <= USERTOP
        && stk / PGSIZE == UPAGES - loc / PGSIZE &&
          (stk - procs[i].stk) / PGSIZE == UPAGES - procs[i].stk / PGSIZE - loc / PGSIZE
    {
      hide Lookup;
      var p := procs[i];
      assert Layout(s.mem, s.kdata, p);
      assert !UserSet(p.sz, p.stk, loc / PGSIZE);
    }

    lemma FaultMapped(i: int, loc: int)
      requires Valid() && 0 <= i < |procs| && 0 <= loc < USERTOP && procs[i].stk == USERTOP - loc / PGSIZE * PGSIZE
      ensures Lookup(s.mem, procs[i].pgdir, loc / PGSIZE).p
    {
      hide Lookup;
      assert Layout(s.mem, s.kdata, procs[i]);
      assert UserSet(procs[i].sz, procs[i].stk, loc / PGSIZE);
    }

    /** No frame is lost: the processes account for every directory and every held frame. */
    ghost predicate Tight()
      reads this, s
    {
      Accounted(procs, s.dirs, s.held)
    }

    /** fork's memory: a kernel stack and a copy of the address space. It fails exactly for want of frames, and then
        all frames are back unless setupkvm stopped half-way. */
    method Fork(i: int) returns (r: int)
      requires Valid() && 0 <= i < |procs|
      modifies this, s
      ensures Valid() && SameMaps(old(s.mem), s.mem, old(s.dirs)) && old(s.dirs) <= s.dirs
      ensures var p := old(procs[i]);
        && (r == 0 || r == -1)
        && (r == -1 <==> |old(s.freelist)| < 14 + UserPages(p.sz, p.stk))
        && (r == -1 ==> procs == old(procs))
        && (r == 0 ==> |procs| == |old(procs)| + 1 && procs[..|procs| - 1] == old(procs))
        && (r == 0 ==>
          procs[|procs| - 1] == Proc(procs[|procs| - 1].pgdir, procs[|procs| - 1].kstack, p.sz, p.stk, p.tf))
        && (r == 0 ==> SameBytes(old(s.mem), p.pgdir, s.mem, procs[|procs| - 1].pgdir))
        && (r == 0 ==> procs[|procs| - 1].pgdir !in old(s.dirs) && s.dirs == old(s.dirs) + {procs[|procs| - 1].pgdir})
        && (r == 0 ==> procs[|procs| - 1].kstack !in old(s.held) && s.held == old(s.held) + {procs[|procs| - 1].kstack})
        && (r == 0 ==> |s.freelist| == |old(s.freelist)| - 14 - UserPages(p.sz, p.stk))
      ensures r == 0 || |old(s.freelist)| >= 14 ==> forall d :: d in old(s.dirs) ==> SameBytes(old(s.mem), d, s.mem, d)
      ensures r == -1 && !(2 <= |old(s.freelist)| < 14) ==>
        s.owner == old(s.owner) && s.held == old(s.held) && |s.freelist| == |old(s.freelist)|
      ensures old(Tight()) ==> (Tight() <==> r != -1 || !(2 <= |old(s.freelist)| < 14))
    {
      hide Lookup, Layout, OnlyRange, SamePages, Owned, Shared, UserSet, AllLaidOut, Entry, TablesSame, UserByte,
        PageOf, SameMaps, SameBytes, Accounted, Present, Ready;
      var p := procs[i];
      ghost var m0, o0, dirs0, held0 := s.mem, s.owner, s.dirs, s.held;
      ForkFacts(i);
      var kstack := s.Kalloc();
      if kstack == 0 {
        return -1;
      }
      var c := Copyuvm(s, p.pgdir, p.sz, p.stk);
      ghost var m1 := s.mem;
      if c == 0 {
        s.FreeHeld(kstack);
        ForkFailed(s.first, m0, m1, s.mem, s.kdata, o0, s.owner, dirs0, s.dirs, held0, procs);
        assert held0 + {kstack} - {kstack} == held0;
        if 2 <= |old(s.freelist)| < 14 {
          ghost var e :| e in s.dirs && e !in dirs0;
          NotAccounted(procs, dirs0, s.dirs, s.held, e);
        }
        return -1;
      }
      var q := Proc(c, kstack, p.sz, p.stk, p.tf);
      Forked(s.first, m0, s.mem, s.kdata, o0, s.owner, dirs0, held0, procs, i, q);
      if Accounted(procs, dirs0, held0) {
        AccountedMore(procs, dirs0, held0, q);
      }
      procs := procs + [q];
      r := 0;
    }

    lemma ForkFacts(i: int)
      requires Valid() && 0 <= i < |procs|
      ensures var p := procs[i];
        && p.pgdir in s.dirs && Present(s.mem, s.kdata, p.pgdir, p.sz, p.stk)
        && 0x2000 <= p.sz && 0 <= p.stk && p.stk % PGSIZE == 0 && PageUp(p.sz) <= UPAGES - p.stk / PGSIZE &&
          UserPages(p.sz, p.stk) >= 0
      ensures SameMaps(s.mem, s.mem, s.dirs) && forall d :: SameBytes(s.mem, d, s.mem, d)
      ensures forall j :: 0 <= j < |procs| ==> procs[j].pgdir in s.dirs && procs[j].kstack in s.held
    {
      hide Lookup, Ready;
      assert Layout(s.mem, s.kdata, procs[i]);
    }

    /** What wait does to a zombie's memory: its kernel stack and its address space go back to the free list,
        every frame of them and nothing else. */
    method Reap(i: int)
      requires Valid() && 0 <= i < |procs|
      modifies this, s
      ensures Valid() && procs == old(procs)[..i] + old(procs)[i + 1..]
      ensures s.held == old(s.held) - {old(procs[i]).kstack} &&
        DirOwnersLost(old(s.owner), s.owner, old(procs[i]).pgdir)
      ensures forall f :: f in s.freelist <==>
        f in old(s.freelist) || f == old(procs[i]).kstack ||
        (f in old(s.owner) && old(s.owner)[f].d == old(procs[i]).pgdir)
      ensures forall d :: d in s.dirs ==> SameBytes(old(s.mem), d, s.mem, d)
      ensures old(Tight()) ==> Tight()
    {
      hide Lookup, Layout, Owned, Shared, AllLaidOut, Entry, SameMaps, SamePages, SameBytes, Accounted, DirOwnersLost;
      var p := procs[i];
      ghost var m0, o0, free0, dirs0, held0 := s.mem, s.owner, s.freelist, s.dirs, s.held;
      ProcFacts(i);
      s.FreeHeld(p.kstack);
      ghost var m1, o1 := s.mem, s.owner;
      Freevm(s, p.pgdir);
      Reaped(s.first, m0, m1, s.mem, s.kdata, o0, s.owner, free0, s.freelist, dirs0, held0, procs, i);
      procs := procs[..i] + procs[i + 1..];
    }

    /** exec, from the loaded image on: pgdir holds the image up to sz, and no process uses it yet. The stack page
        and the arguments are added, and the process changes over; or the image is given up, and the process is as it
        was. The source does not check that the image leaves room: one that reaches into the stack page panics, and
        one that ends less than six pages below USERTOP breaks the layout. */
    method Exec(i: int, pgdir: int, sz: int, entry: int, argv: seq<seq<byte>>) returns (r: Outcome)
      requires Valid() && 0 <= i < |procs| && Loaded(pgdir, sz) && 0x2000 <= sz <= USERTOP
      requires forall k :: 0 <= k < |argv| ==> NoNul(argv[k]) && |argv[k]| < USERTOP
      modifies this, s
      ensures s.Valid()
      ensures r.Panics? <==> sz > USERTOP - PGSIZE && |old(s.freelist)| >= 1
      ensures r.Success? <==>
        && |old(s.freelist)| >= 1 && sz <= USERTOP - PGSIZE
        && |argv| <= MAXARG && ArgRoom(sz) * PGSIZE <= Bottom(argv)
      ensures r.Success? ==> (Valid() <==> sz + 6 * PGSIZE <= USERTOP)
      ensures r.Failure? ==> Valid()
      ensures !r.Success? ==> procs == old(procs)
      ensures r.Failure? ==> s.dirs == old(s.dirs) - {pgdir}
      ensures r.Success? ==>
        procs == old(procs)[i := Proc(pgdir, old(procs[i]).kstack, sz, PGSIZE, TrapFrame(entry, Bottom(argv)))]
      ensures r.Success? ==> s.dirs == old(s.dirs) - {old(procs[i]).pgdir}
      ensures r.Success? ==> ArgsAt(s.mem, pgdir, Bottom(argv), argv)
      ensures r.Success? ==> forall x :: 0 <= x < USERTOP && !ArgByte(argv, x) ==>
        UserByte(s.mem, pgdir, x) == UserByte(old(s.mem), pgdir, x)
      ensures !r.Panics? ==> s.held == old(s.held) && forall d :: d in s.dirs && d != pgdir ==>
        SameBytes(old(s.mem), d, s.mem, d)
      ensures !r.Panics? && old(Accounted(procs, s.dirs - {pgdir}, s.held)) ==> Tight()
    {
      hide Lookup, Owned, Shared, UserByte, ArgsAt, SameMaps, SamePages, NewPages, Layout, AllLaidOut, SameBytes,
        Accounted, Entry, Unmapped, Ready, TablesSame, NewOwners, SameView, OnlyRange, Down, PageOf, Loaded, AllSame,
        DirOwnersLost, ArgByte, Lowest, Clash, LostPages, LostOwners;
      var p := procs[i];
      ghost var m0, dirs0, o0, others := s.mem, s.dirs, s.owner, s.dirs - {pgdir};
      ExecFacts(i, pgdir, sz);
      var a := Allocuvm(s, pgdir, USERTOP - PGSIZE, USERTOP);
      ghost var m1, o1 := s.mem, s.owner;
      if a.Panic? {
        return Panics;
      }
      if a.n == 0 {
        UnallocSame(s.first, m0, m1, dirs0, o0, o1, pgdir, UPAGES - 1, UPAGES);
        Freevm(s, pgdir);
        FreedSame(s.first, m0, m1, s.mem, dirs0, o1, s.owner, pgdir);
        ExecFailed(m0, s.mem, s.kdata, dirs0, s.held, procs, pgdir);
        return Failure;
      }
      AllocSame(s.first, m0, m1, dirs0, o0, o1, pgdir, UPAGES - 1, UPAGES);
      StackAdded(s.first, m0, m1, dirs0, o0, s.kdata, pgdir, sz);
      var ok, sp := PushArgs(s, pgdir, argv, ArgRoom(sz));
      ghost var m2 := s.mem;
      PushedSame(m0, m1, m2, dirs0, pgdir);
      if !ok {
        Freevm(s, pgdir);
        FreedSame(s.first, m0, m2, s.mem, dirs0, o1, s.owner, pgdir);
        ExecFailed(m0, s.mem, s.kdata, dirs0, s.held, procs, pgdir);
        return Failure;
      }
      var oldpgdir := p.pgdir;
      var q := p.(pgdir := pgdir, sz := sz, stk := PGSIZE, tf := TrapFrame(entry, sp));
      Freevm(s, oldpgdir);
      NothingSame(m2, dirs0 - {oldpgdir});
      FreedSame(s.first, m2, m2, s.mem, dirs0, o1, s.owner, oldpgdir);
      ImageBytes(m0, m1, m2, s.mem, dirs0, pgdir, oldpgdir, argv);
      ExecDone(m0, m1, m2, s.mem, s.kdata, dirs0, s.held, procs, i, q, sz);
      procs := procs[i := q];
      r := Success;
    }

    lemma ExecFacts(i: int, pgdir: int, sz: int)
      requires Valid() && 0 <= i < |procs| && Loaded(pgdir, sz) && 0x2000 <= sz <= USERTOP
      ensures pgdir in s.dirs && procs[i].pgdir in s.dirs && procs[i].pgdir != pgdir && Entry(s.mem, pgdir, 0).p
      ensures Ready(s.mem, s.kdata, pgdir) && forall v :: 0 <= v < UPAGES ==>
        (Lookup(s.mem, pgdir, v).p <==> 2 <= v < PageUp(sz))
      ensures Unmapped(s.mem, pgdir, UPAGES - 1, UPAGES) <==> sz <= USERTOP - PGSIZE
      ensures Clash(s.mem, pgdir, UPAGES - 1, UPAGES, |s.freelist|) <==> sz > USERTOP - PGSIZE && |s.freelist| >= 1
      ensures forall j :: 0 <= j < |procs| ==> procs[j].pgdir != pgdir
    {
      hide Lookup, Layout, Owned, Shared;
      assert Lookup(s.mem, pgdir, UPAGES - 1).p <==> sz > USERTOP - PGSIZE;
    }

    /** pgdir has the kernel map and the image's pages, and belongs to no process. */
    ghost predicate Loaded(pgdir: int, sz: int)
      reads this, s
    {
      && pgdir in s.dirs && (forall j :: 0 <= j < |procs| ==> procs[j].pgdir != pgdir)
      && Ready(s.mem, s.kdata, pgdir)
      && forall v :: 0 <= v < UPAGES ==> (Lookup(s.mem, pgdir, v).p <==> 2 <= v < PageUp(sz))
    }

    lemma ProcFacts(i: int)
      requires Valid() && 0 <= i < |procs|
      ensures procs[i].pgdir in s.dirs && procs[i].kstack in s.held
    {
    }
  }

  ghost predicate Accounted(procs: seq<Proc>, dirs: set<int>, held: set<int>) {
    && (forall d :: d in dirs ==> exists i :: 0 <= i < |procs| && procs[i].pgdir == d)
    && (forall f :: f in held ==> exists i :: 0 <= i < |procs| && procs[i].kstack == f)
  }

  /** A directory too many is not accounted for. */
  lemma NotAccounted(procs: seq<Proc>, dirs0: set<int>, dirs: set<int>, held: set<int>, d: int)
    requires (forall i :: 0 <= i < |procs| ==> procs[i].pgdir in dirs0) && d in dirs && d !in dirs0
    ensures !Accounted(procs, dirs, held)
  {
  }

  /** A new process accounts for its own. */
  lemma AccountedMore(procs: seq<Proc>, dirs: set<int>, held: set<int>, q: Proc)
    requires Accounted(procs, dirs, held)
    ensures Accounted(procs + [q], dirs + {q.pgdir}, held + {q.kstack})
  {
    var procs' := procs + [q];
    assert procs'[|procs|] == q;
    forall d | d in dirs
      ensures exists i :: 0 <= i < |procs'| && procs'[i].pgdir == d
    {
      var i :| 0 <= i < |procs| && procs[i].pgdir == d;
      assert procs'[i].pgdir == d;
    }
    forall f | f in held
      ensures exists i :: 0 <= i < |procs'| && procs'[i].kstack == f
    {
      var i :| 0 <= i < |procs| && procs[i].kstack == f;
      assert procs'[i].kstack == f;
    }
  }

  /** The user bytes of d0 in m0 are those of d1 in m1. */
  ghost predicate SameBytes(m0: Mem, d0: int, m1: Mem, d1: int) {
    forall x :: 0 <= x < USERTOP ==> UserByte(m1, d1, x) == UserByte(m0, d0, x)
  }

  lemma BytesKept(first: int, m0: Mem, m1: Mem, dirs: set<int>, owner: map<int, Ref>, d: int)
    requires Owned(first, m0, dirs, owner) && SameMaps(m0, m1, dirs) && SamePages(m0, m1, owner) && d in dirs
    ensures SameBytes(m0, d, m1, d)
  {
    forall x | 0 <= x < USERTOP
      ensures UserByte(m1, d, x) == UserByte(m0, d, x)
    {
      if Lookup(m0, d, x / PGSIZE).p {
        PageOwned(first, m0, dirs, owner, d, x / PGSIZE);
      }
    }
    hide Lookup;
  }

  lemma AllKept(m0: Mem, m1: Mem, kdata: int, dirs: set<int>, held: set<int>, procs: seq<Proc>)
    requires AllLaidOut(m0, kdata, dirs, held, procs) && SameMaps(m0, m1, dirs)
    ensures forall i :: 0 <= i < |procs| ==> Layout(m1, kdata, procs[i])
  {
    forall i | 0 <= i < |procs|
      ensures Layout(m1, kdata, procs[i])
    {
      LayoutKept(m0, m1, kdata, procs[i]);
    }
    hide Lookup, Layout;
  }

  lemma ForkFailed(first: int, m0: Mem, m1: Mem, m2: Mem, kdata: int, o0: map<int, Ref>, o2: map<int, Ref>,
      dirs0: set<int>, dirs2: set<int>, held: set<int>, procs: seq<Proc>)
    requires Owned(first, m0, dirs0, o0) && AllLaidOut(m0, kdata, dirs0, held, procs) && dirs0 <= dirs2
    requires SameMaps(m0, m1, dirs0) && SameMaps(m1, m2, dirs2)
    ensures AllLaidOut(m2, kdata, dirs2, held, procs) && SameMaps(m0, m2, dirs0)
    ensures SamePages(m0, m1, o0) && SamePages(m1, m2, o2) && o2 == o0 ==> forall d :: d in dirs0 ==>
      SameBytes(m0, d, m2, d)
  {
    hide Lookup, UserByte;
    AllKept(m0, m2, kdata, dirs0, held, procs);
    if SamePages(m0, m1, o0) && SamePages(m1, m2, o2) && o2 == o0 {
      forall d | d in dirs0
        ensures SameBytes(m0, d, m2, d)
      {
        BytesKept(first, m0, m2, dirs0, o0, d);
      }
    }
  }

  lemma Forked(first: int, m0: Mem, m1: Mem, kdata: int, o0: map<int, Ref>, o1: map<int, Ref>, dirs: set<int>,
      held: set<int>, procs: seq<Proc>, i: int, q: Proc)
    requires Owned(first, m0, dirs, o0) && Owned(first, m1, dirs + {q.pgdir}, o1) &&
      AllLaidOut(m0, kdata, dirs, held, procs) && 0 <= i < |procs|
    requires q.pgdir !in dirs && q.kstack !in held && q.sz == procs[i].sz && q.stk == procs[i].stk
    requires SameMaps(m0, m1, dirs) && SamePages(m0, m1, o0) && Ready(m1, kdata, q.pgdir)
    requires forall v :: 0 <= v < UPAGES ==> (Lookup(m1, q.pgdir, v).p <==> UserSet(q.sz, q.stk, v))
    requires forall v :: 0 <= v < UPAGES && UserSet(q.sz, q.stk, v) ==>
      PageOf(m1, q.pgdir, v) == PageOf(m0, procs[i].pgdir, v)
    ensures AllLaidOut(m1, kdata, dirs + {q.pgdir}, held + {q.kstack}, procs + [q])
    ensures SameBytes(m0, procs[i].pgdir, m1, q.pgdir) && forall d :: d in dirs ==> SameBytes(m0, d, m1, d)
  {
    hide Lookup, Ready, PageOf, SameMaps, SamePages, Owned;
    AllKept(m0, m1, kdata, dirs, held, procs);
    assert Layout(m0, kdata, procs[i]);
    assert Layout(m1, kdata, q);
    forall d | d in dirs
      ensures SameBytes(m0, d, m1, d)
    {
      BytesKept(first, m0, m1, dirs, o0, d);
    }
  }

  lemma Reaped(first: int, m0: Mem, m1: Mem, m2: Mem, kdata: int, o0: map<int, Ref>, o2: map<int, Ref>,
      free0: seq<int>, free2: seq<int>,
               dirs: set<int>, held: set<int>, procs: seq<Proc>, i: int)
    requires 0 <= i < |procs| && Owned(first, m0, dirs, o0) && AllLaidOut(m0, kdata, dirs, held, procs)
    requires SameMaps(m0, m1, dirs) && SamePages(m0, m1, o0) && SameMaps(m1, m2, dirs - {procs[i].pgdir}) &&
      SamePages(m1, m2, o2)
    requires DirOwnersLost(o0, o2, procs[i].pgdir)
    requires Shared(first, free0, held, o0) && Shared(first, free2, held - {procs[i].kstack}, o2)
    ensures var d, k := procs[i].pgdir, procs[i].kstack;
      && AllLaidOut(m2, kdata, dirs - {d}, held - {k}, procs[..i] + procs[i + 1..])
      && (forall f :: f in free2 <==> f in free0 || f == k || (f in o0 && o0[f].d == d))
      && (forall e :: e in dirs && e != d ==> SameBytes(m0, e, m2, e))
      && (Accounted(procs, dirs, held) ==> Accounted(procs[..i] + procs[i + 1..], dirs - {d}, held - {k}))
  {
    hide Lookup, UserByte, Layout, AllLaidOut, Owned, Shared, SameMaps, SamePages, SameBytes, DirOwnersLost, Accounted;
    var d, k := procs[i].pgdir, procs[i].kstack;
    RestLaidOut(m0, m1, m2, kdata, dirs, held, procs, i);
    FramesBack(first, m0, o0, o2, free0, free2, dirs, held, d, k);
    forall e | e in dirs && e != d
      ensures SameBytes(m0, e, m2, e)
    {
      DirBytesKept(first, m0, m1, m2, dirs, o0, o2, d, e);
    }
    if Accounted(procs, dirs, held) {
      AccountedWithout(procs, dirs, held, i);
    }
  }

  lemma RestLaidOut(m0: Mem, m1: Mem, m2: Mem, kdata: int, dirs: set<int>, held: set<int>, procs: seq<Proc>, i: int)
    requires 0 <= i < |procs| && AllLaidOut(m0, kdata, dirs, held, procs)
    requires SameMaps(m0, m1, dirs) && SameMaps(m1, m2, dirs - {procs[i].pgdir})
    ensures procs[i].kstack in held
    ensures AllLaidOut(m2, kdata, dirs - {procs[i].pgdir}, held - {procs[i].kstack}, procs[..i] + procs[i + 1..])
  {
    hide Lookup, Layout;
    var rest := procs[..i] + procs[i + 1..];
    forall j | 0 <= j < |rest|
      ensures rest[j] == procs[if j < i then j else j + 1] && Layout(m2, kdata, rest[j])
    {
      LayoutKept(m0, m2, kdata, rest[j]);
    }
  }

  lemma FramesBack(first: int, m0: Mem, o0: map<int, Ref>, o2: map<int, Ref>, free0: seq<int>, free2: seq<int>,
      dirs: set<int>, held: set<int>, d: int, k: int)
    requires Owned(first, m0, dirs, o0) && k in held && DirOwnersLost(o0, o2, d)
    requires Shared(first, free0, held, o0) && Shared(first, free2, held - {k}, o2)
    ensures forall f :: f in free2 <==> f in free0 || f == k || (f in o0 && o0[f].d == d)
  {
    forall f
      ensures f in free2 <==> f in free0 || f == k || (f in o0 && o0[f].d == d)
    {
      assert f in free2 ==> InPool(first, f);
      assert f in free0 ==> InPool(first, f);
      assert f in o0 ==> InPool(first, f);
    }
    hide Names;
  }

  lemma DirBytesKept(first: int, m0: Mem, m1: Mem, m2: Mem, dirs: set<int>, o0: map<int, Ref>, o2: map<int, Ref>,
      d: int, e: int)
    requires Owned(first, m0, dirs, o0) && e in dirs && e != d && DirOwnersLost(o0, o2, d)
    requires SameMaps(m0, m1, dirs) && SamePages(m0, m1, o0) && SameMaps(m1, m2, dirs - {d}) && SamePages(m1, m2, o2)
    ensures SameBytes(m0, e, m2, e)
  {
    forall x | 0 <= x < USERTOP
      ensures UserByte(m2, e, x) == UserByte(m0, e, x)
    {
      if Lookup(m0, e, x / PGSIZE).p {
        PageOwned(first, m0, dirs, o0, e, x / PGSIZE);
      }
    }
    hide Lookup;
  }

  lemma AccountedWithout(procs: seq<Proc>, dirs: set<int>, held: set<int>, i: int)
    requires Accounted(procs, dirs, held) && 0 <= i < |procs|
    ensures Accounted(procs[..i] + procs[i + 1..], dirs - {procs[i].pgdir}, held - {procs[i].kstack})
  {
    var rest := procs[..i] + procs[i + 1..];
    forall d | d in dirs && d != procs[i].pgdir
      ensures exists j :: 0 <= j < |rest| && rest[j].pgdir == d
    {
      var j :| 0 <= j < |procs| && procs[j].pgdir == d;
      assert rest[if j < i then j else j - 1] == procs[j];
    }
    forall f | f in held && f != procs[i].kstack
      ensures exists j :: 0 <= j < |rest| && rest[j].kstack == f
    {
      var j :| 0 <= j < |procs| && procs[j].kstack == f;
      assert rest[if j < i then j else j - 1] == procs[j];
    }
  }

  /** The first program's page. */
  function Padded(init: seq<byte>): (f: Frame)
    requires |init| < PGSIZE
    ensures f.Bytes? && |f.bytes| == PGSIZE && forall j :: 0 <= j < PGSIZE ==> f.bytes[j] == if j < |init| then init[j]
      else 0
  {
    Bytes(init + seq(PGSIZE - |init|, _ => 0))
  }

  lemma ReadyTable(m: Mem, kdata: int, d: int)
    requires Ready(m, kdata, d)
    ensures Entry(m, d, 0).p
  {
  }

  lemma FirstImage(m1: Mem, m2: Mem, dirs: set<int>, kdata: int, p: Proc, init: seq<byte>)
    requires p.pgdir in dirs && Ready(m1, kdata, p.pgdir) && p.sz == 0x3000 && p.stk == 0 && |init| < PGSIZE
    requires forall v :: 0 <= v < UPAGES ==> Lookup(m1, p.pgdir, v) == NOPTE
    requires OnlyRange(m1, m2, dirs, p.pgdir, 2, 2) && Lookup(m2, p.pgdir, 2).p &&
      PageOf(m2, p.pgdir, 2) == Padded(init)
    ensures Layout(m2, kdata, p)
    ensures forall x :: 0 <= x < USERTOP ==>
      UserByte(m2, p.pgdir, x) == if 0x2000 <= x < 0x2000 + |init| then init[x - 0x2000] else 0
  {
    hide Lookup, PageOf;
    ReadyKept(m1, m2, kdata, p.pgdir);
  }

  // ----- What one directory's owner sees

  /** The translations and the user bytes of d are as they were. */
  ghost predicate DirSame(m0: Mem, m1: Mem, d: int) {
    && (forall v :: 0 <= v < VPAGES ==> Lookup(m1, d, v) == Lookup(m0, d, v))
    && SameBytes(m0, d, m1, d)
  }

  ghost predicate AllSame(m0: Mem, m1: Mem, dirs: set<int>) {
    forall d :: d in dirs ==> DirSame(m0, m1, d)
  }

  lemma NothingSame(m: Mem, dirs: set<int>)
    ensures AllSame(m, m, dirs)
  {
  }

  /** allocuvm for one directory is not seen by the others. */
  lemma AllocSame(first: int, m0: Mem, m1: Mem, dirs: set<int>, o0: map<int, Ref>, o1: map<int, Ref>, d: int, lo: int,
      hi: int)
    requires Owned(first, m0, dirs, o0) && d in dirs && SamePages(m0, m1, o0)
    requires OnlyRange(m0, m1, dirs, d, lo, hi - 1) || NewPages(m0, m1, dirs, d, lo, hi)
    ensures AllSame(m0, m1, dirs - {d})
  {
    hide Lookup;
    forall e | e in dirs - {d}
      ensures DirSame(m0, m1, e)
    {
      DirSamePages(first, m0, m1, dirs, o0, o0, e);
    }
  }

  /** Nor is one that failed, whatever it has unmapped. */
  lemma UnallocSame(first: int, m0: Mem, m1: Mem, dirs: set<int>, o0: map<int, Ref>, o1: map<int, Ref>, d: int,
      lo: int, hi: int)
    requires Owned(first, m0, dirs, o0) && d in dirs && SamePages(m0, m1, o1) && LostPages(m0, m1, dirs, d, lo, hi) &&
      LostOwners(o0, o1, d, lo, hi)
    ensures AllSame(m0, m1, dirs - {d})
  {
    hide Lookup;
    forall e | e in dirs - {d}
      ensures DirSame(m0, m1, e)
    {
      DirSamePages(first, m0, m1, dirs, o0, o1, e);
    }
  }

  lemma DirSamePages(first: int, m0: Mem, m1: Mem, dirs: set<int>, o0: map<int, Ref>, o1: map<int, Ref>, d: int)
    requires Owned(first, m0, dirs, o0) && d in dirs && SamePages(m0, m1, o1)
    requires forall v :: 0 <= v < VPAGES ==> Lookup(m1, d, v) == Lookup(m0, d, v)
    requires forall f :: f in o0 && o0[f].d == d ==> f in o1 && o1[f] == o0[f]
    ensures DirSame(m0, m1, d)
  {
    forall x | 0 <= x < USERTOP
      ensures UserByte(m1, d, x) == UserByte(m0, d, x)
    {
      if Lookup(m0, d, x / PGSIZE).p {
        PageOwned(first, m0, dirs, o0, d, x / PGSIZE);
      }
    }
    hide Lookup;
  }

  /** freevm of one directory is not seen by the others. */
  lemma FreedSame(first: int, m0: Mem, m1: Mem, m2: Mem, dirs: set<int>, o1: map<int, Ref>, o2: map<int, Ref>, d: int)
    requires AllSame(m0, m1, dirs - {d}) && Owned(first, m1, dirs, o1) && DirOwnersLost(o1, o2, d)
    requires SameMaps(m1, m2, dirs - {d}) && SamePages(m1, m2, o2)
    ensures AllSame(m0, m2, dirs - {d})
  {
    hide Lookup, UserByte;
    forall e | e in dirs - {d}
      ensures DirSame(m0, m2, e)
    {
      DirSamePages(first, m1, m2, dirs, o1, o2, e);
      assert DirSame(m0, m1, e);
    }
  }

  /** Nor are the arguments. */
  lemma PushedSame(m0: Mem, m1: Mem, m2: Mem, dirs: set<int>, d: int)
    requires AllSame(m0, m1, dirs - {d}) && SameMaps(m1, m2, dirs)
    requires forall c, x :: c in dirs && c != d && 0 <= x < USERTOP ==> UserByte(m2, c, x) == UserByte(m1, c, x)
    ensures AllSame(m0, m2, dirs - {d})
  {
    hide Lookup, UserByte;
    forall e | e in dirs - {d}
      ensures DirSame(m0, m2, e)
    {
      assert DirSame(m0, m1, e);
    }
  }

  lemma ExecFailed(m0: Mem, m1: Mem, kdata: int, dirs: set<int>, held: set<int>, procs: seq<Proc>, pgdir: int)
    requires AllLaidOut(m0, kdata, dirs, held, procs) && AllSame(m0, m1, dirs - {pgdir})
    requires forall j :: 0 <= j < |procs| ==> procs[j].pgdir != pgdir
    ensures AllLaidOut(m1, kdata, dirs - {pgdir}, held, procs)
    ensures forall d :: d in dirs - {pgdir} ==> SameBytes(m0, d, m1, d)
  {
    hide Lookup, Layout, SameBytes;
    forall j | 0 <= j < |procs|
      ensures Layout(m1, kdata, procs[j])
    {
      assert DirSame(m0, m1, procs[j].pgdir);
      LayoutKept(m0, m1, kdata, procs[j]);
    }
    forall d | d in dirs - {pgdir}
      ensures SameBytes(m0, d, m1, d)
    {
      assert DirSame(m0, m1, d);
    }
  }

  /** The lowest page that the arguments may reach: the stack page, or the image where it ends right below that. */
  function ArgRoom(sz: int): (lo: int)
    requires 0x2000 <= sz <= USERTOP - PGSIZE
    ensures 2 <= lo < UPAGES
  {
    if PageUp(sz) == UPAGES - 1 then 2 else UPAGES - 1
  }

  /** The image with its stack page, which is zero. */
  lemma StackAdded(first: int, m0: Mem, m1: Mem, dirs: set<int>, o0: map<int, Ref>, kdata: int, pgdir: int, sz: int)
    requires Owned(first, m0, dirs, o0) && pgdir in dirs && Ready(m0, kdata, pgdir) && 0x2000 <= sz <= USERTOP - PGSIZE
    requires forall v :: 0 <= v < UPAGES ==> (Lookup(m0, pgdir, v).p <==> 2 <= v < PageUp(sz))
    requires NewPages(m0, m1, dirs, pgdir, UPAGES - 1, UPAGES) && SamePages(m0, m1, o0)
    ensures Ready(m1, kdata, pgdir) && Lowest(m1, pgdir, ArgRoom(sz))
    ensures forall v :: 0 <= v < UPAGES ==> (Lookup(m1, pgdir, v).p <==> UserSet(sz, PGSIZE, v))
    ensures forall x :: 0 <= x < USERTOP ==> UserByte(m1, pgdir, x) == UserByte(m0, pgdir, x)
  {
    ReadyKept(m0, m1, kdata, pgdir);
    forall x | 0 <= x < USERTOP
      ensures UserByte(m1, pgdir, x) == UserByte(m0, pgdir, x)
    {
      if Lookup(m0, pgdir, x / PGSIZE).p {
        PageOwned(first, m0, dirs, o0, pgdir, x / PGSIZE);
      }
    }
    hide Lookup, Ready;
  }

  /** What the new program sees is what exec put there, once the oldDir image is gone. */
  lemma ImageBytes(m0: Mem, m1: Mem, m2: Mem, m3: Mem, dirs: set<int>, pgdir: int, oldDir: int, argv: seq<seq<byte>>)
    requires pgdir in dirs && oldDir != pgdir && AllSame(m2, m3, dirs - {oldDir})
    requires forall x :: 0 <= x < USERTOP ==> UserByte(m1, pgdir, x) == UserByte(m0, pgdir, x)
    requires forall x :: 0 <= x < USERTOP && !ArgByte(argv, x) ==> UserByte(m2, pgdir, x) == UserByte(m1, pgdir, x)
    requires ArgsAt(m2, pgdir, Bottom(argv), argv) && 0 <= Bottom(argv)
    ensures ArgsAt(m3, pgdir, Bottom(argv), argv)
    ensures forall x :: 0 <= x < USERTOP && !ArgByte(argv, x) ==> UserByte(m3, pgdir, x) == UserByte(m0, pgdir, x)
  {
    hide Lookup, UserByte, Down, ArgsAt, ArgByte;
    assert DirSame(m2, m3, pgdir);
    DownFalls(argv, 0, |argv|);
    DownZero(argv);
    ArgsKept(m2, m3, pgdir, Bottom(argv), argv);
  }

  lemma ExecDone(m0: Mem, m1: Mem, m2: Mem, m3: Mem, kdata: int, dirs: set<int>, held: set<int>, procs: seq<Proc>,
      i: int, q: Proc, sz: int)
    requires AllLaidOut(m0, kdata, dirs, held, procs) && 0 <= i < |procs| && forall j :: 0 <= j < |procs| ==>
      procs[j].pgdir != q.pgdir
    requires AllSame(m0, m2, dirs - {q.pgdir}) && AllSame(m2, m3, dirs - {procs[i].pgdir}) && SameMaps(m1, m2, dirs)
    requires q.pgdir in dirs && q.kstack == procs[i].kstack && q.sz == sz && q.stk == PGSIZE && 0x2000 <= sz
    requires Ready(m1, kdata, q.pgdir) && forall v :: 0 <= v < UPAGES ==>
      (Lookup(m1, q.pgdir, v).p <==> UserSet(sz, PGSIZE, v))
    ensures AllLaidOut(m3, kdata, dirs - {procs[i].pgdir}, held, procs[i := q]) <==> sz + 6 * PGSIZE <= USERTOP
    ensures forall d :: d in dirs && d != procs[i].pgdir && d != q.pgdir ==> SameBytes(m0, d, m3, d)
    ensures Accounted(procs, dirs - {q.pgdir}, held) ==> Accounted(procs[i := q], dirs - {procs[i].pgdir}, held)
  {
    hide Lookup, Layout, UserByte, Ready;
    var procs' := procs[i := q];
    forall j | 0 <= j < |procs| && j != i
      ensures Layout(m3, kdata, procs'[j])
    {
      assert DirSame(m0, m2, procs[j].pgdir) && DirSame(m2, m3, procs[j].pgdir);
      LayoutKept(m0, m3, kdata, procs[j]);
    }
    LayoutNew(m1, m2, m3, kdata, q, sz, dirs, procs[i].pgdir);
    assert procs'[i] == q;
    forall d | d in dirs && d != procs[i].pgdir && d != q.pgdir
      ensures SameBytes(m0, d, m3, d)
    {
      assert DirSame(m0, m2, d) && DirSame(m2, m3, d);
    }
    if Accounted(procs, dirs - {q.pgdir}, held) {
      AccountedMoved(procs, dirs, held, i, q);
    }
  }

  lemma LayoutNew(m1: Mem, m2: Mem, m3: Mem, kdata: int, q: Proc, sz: int, dirs: set<int>, oldDir: int)
    requires AllSame(m2, m3, dirs - {oldDir}) && SameMaps(m1, m2, dirs) && q.pgdir in dirs && oldDir != q.pgdir
    requires q.sz == sz && q.stk == PGSIZE && 0x2000 <= sz
    requires Ready(m1, kdata, q.pgdir) && forall v :: 0 <= v < UPAGES ==>
      (Lookup(m1, q.pgdir, v).p <==> UserSet(sz, PGSIZE, v))
    ensures Layout(m3, kdata, q) <==> sz + 6 * PGSIZE <= USERTOP
  {
    hide Lookup, SameBytes;
    assert DirSame(m2, m3, q.pgdir);
    ReadyKept(m1, m3, kdata, q.pgdir);
  }

  lemma AccountedMoved(procs: seq<Proc>, dirs: set<int>, held: set<int>, i: int, q: Proc)
    requires 0 <= i < |procs| && q.kstack == procs[i].kstack && Accounted(procs, dirs - {q.pgdir}, held)
    ensures Accounted(procs[i := q], dirs - {procs[i].pgdir}, held)
  {
    var procs' := procs[i := q];
    forall d | d in dirs - {procs[i].pgdir}
      ensures exists j :: 0 <= j < |procs'| && procs'[j].pgdir == d
    {
      if d == q.pgdir {
        assert procs'[i].pgdir == d;
      } else {
        assert d in dirs - {q.pgdir};
        var j :| 0 <= j < |procs| && procs[j].pgdir == d;
        assert procs'[j].pgdir == d;
      }
    }
    forall f | f in held
      ensures exists j :: 0 <= j < |procs'| && procs'[j].kstack == f
    {
      var j :| 0 <= j < |procs| && procs[j].kstack == f;
      assert procs'[j].kstack == f;
    }
  }

  /** The stack size that growstack computes, rounded up to a page in unsigned arithmetic. */
  function NewStk(p: Proc, n: int): int {
    U(PageUp(U(p.stk + n)) * PGSIZE)
  }

  /** growstack's check, as it comes out: sizes that leave no room for the gap at all wrap, and pass. */
  predicate Passes(p: Proc, n: int) {
    p.stk + n > USERTOP - 5 * PGSIZE || p.sz + 5 * PGSIZE <= USERTOP - (p.stk + n)
  }

  /** The pages to be mapped for that stack size include heap pages. */
  predicate HitsHeap(p: Proc, newstk: int) {
    newstk <= USERTOP && FirstHit(newstk) < PageUp(p.sz)
  }

  function FirstHit(newstk: int): int {
    if UPAGES - newstk / PGSIZE < 2 then 2 else UPAGES - newstk / PGSIZE
  }

  /** How many frames allocuvm takes before it is done, or comes to a mapped page. */
  function FramesUsed(p: Proc, newstk: int): int {
    if HitsHeap(p, newstk) then FirstHit(newstk) - (UPAGES - newstk / PGSIZE) + 1 else (newstk - p.stk) / PGSIZE
  }

  lemma StackArith(p: Proc, n: int)
    requires 0 <= p.stk && p.stk % PGSIZE == 0 && 0x2000 <= p.sz && p.sz + 5 * PGSIZE <= USERTOP - p.stk
    requires -0x8000_0000 <= n < 0x8000_0000
    ensures U(USERTOP - p.stk - n - 5 * PGSIZE) >= p.sz <==> Passes(p, n)
    ensures var newstk := NewStk(p, n);
      && 0 <= newstk < U32 && newstk % PGSIZE == 0
      && (n == 0 ==> newstk == p.stk) && (n > 0 ==> newstk > p.stk) && (n <= 0 ==> newstk <= p.stk || newstk > USERTOP)
      && (0 <= p.stk + n ==> p.stk + n <= newstk < p.stk + n + PGSIZE)
      && (if newstk <= USERTOP then U(USERTOP - newstk) == USERTOP - newstk else U(USERTOP - newstk) > USERTOP)
      && (n <= 0 || newstk > USERTOP ==> !HitsHeap(p, newstk))
  {
    var a := p.stk + n;
    UnsignedOf(USERTOP - a - 5 * PGSIZE);
    UnsignedOf(a);
    var x := PageUp(U(a)) * PGSIZE;
    assert U(a) <= x < U(a) + PGSIZE && x % PGSIZE == 0;
    UnsignedOf(x);
    UnsignedOf(USERTOP - U(x));
  }

  /** One wrap, either way. */
  lemma UnsignedOf(x: int)
    requires -U32 <= x < 2 * U32
    ensures U(x) == if x < 0 then x + U32 else if x < U32 then x else x - U32
  {
    assert (x + U32) % U32 == x % U32;
    if x < 0 {
      assert x + U32 == (x + U32) % U32;
    } else if U32 <= x {
      assert x - U32 == (x - U32) % U32;
    }
  }

  /** What allocuvm meets between the stack and its new end: heap pages, or nothing. */
  lemma StackRange(m: Mem, kdata: int, p: Proc, newstk: int, frames: int)
    requires Layout(m, kdata, p) && p.stk < newstk <= USERTOP && newstk % PGSIZE == 0
    ensures var lo, hi := UPAGES - newstk / PGSIZE, UPAGES - p.stk / PGSIZE;
      && 0 <= lo < hi && PageUp(USERTOP - newstk) == lo && PageUp(USERTOP - p.stk) == hi
      && (newstk - p.stk) / PGSIZE == hi - lo
      && (Unmapped(m, p.pgdir, lo, hi) <==> !HitsHeap(p, newstk))
      && (Clash(m, p.pgdir, lo, hi, frames) <==> HitsHeap(p, newstk) && frames >= FramesUsed(p, newstk))
  {
    hide Lookup, Ready;
    var lo, hi, f := UPAGES - newstk / PGSIZE, UPAGES - p.stk / PGSIZE, FirstHit(newstk);
    assert forall v :: lo <= v < hi ==> (Lookup(m, p.pgdir, v).p <==> f <= v < PageUp(p.sz));
    if HitsHeap(p, newstk) {
      assert Lookup(m, p.pgdir, f).p && Unmapped(m, p.pgdir, lo, f);
      forall v | lo <= v < hi && Lookup(m, p.pgdir, v).p && Unmapped(m, p.pgdir, lo, v)
        ensures v == f
      {
      }
    }
  }

  /** A stack that could not be made deeper is as it was, unless heap pages have been unmapped. */
  lemma StackRefused(m0: Mem, m1: Mem, dirs: set<int>, kdata: int, p: Proc, newstk: int)
    requires Layout(m0, kdata, p) && p.pgdir in dirs && p.stk < newstk <= USERTOP && newstk % PGSIZE == 0
    requires var lo, hi := UPAGES - newstk / PGSIZE, UPAGES - p.stk / PGSIZE;
      LostPages(m0, m1, dirs, p.pgdir, lo, hi) && (HitsHeap(p, newstk) || SameView(m0, m1, dirs))
    ensures Layout(m1, kdata, p) <==> !HitsHeap(p, newstk)
    ensures OnlyRange(m0, m1, dirs, p.pgdir, UPAGES - newstk / PGSIZE, UPAGES - p.stk / PGSIZE - 1)
  {
    hide Lookup, Ready;
    if HitsHeap(p, newstk) {
      var f := FirstHit(newstk);
      assert UserSet(p.sz, p.stk, f) && !Lookup(m1, p.pgdir, f).p;
    } else {
      UngrownLayout(m0, m1, dirs, kdata, p, UPAGES - newstk / PGSIZE, UPAGES - p.stk / PGSIZE);
    }
  }

  lemma DeeperLayout(m0: Mem, m1: Mem, dirs: set<int>, kdata: int, p: Proc, newstk: int)
    requires Layout(m0, kdata, p) && p.pgdir in dirs && p.stk <= newstk <= USERTOP && newstk % PGSIZE == 0
    requires NewPages(m0, m1, dirs, p.pgdir, UPAGES - newstk / PGSIZE, UPAGES - p.stk / PGSIZE)
    ensures Layout(m1, kdata, p.(stk := newstk)) <==> p.sz + 5 * PGSIZE <= USERTOP - newstk
    ensures OnlyRange(m0, m1, dirs, p.pgdir, UPAGES - newstk / PGSIZE, UPAGES - p.stk / PGSIZE - 1)
  {
    hide Lookup, Ready;
    if p.sz + 5 * PGSIZE <= USERTOP - newstk {
      LayoutMoved(m0, m1, dirs, kdata, p, p.(stk := newstk), UPAGES - newstk / PGSIZE, UPAGES - p.stk / PGSIZE);
    }
  }

  /** A stack size beyond USERTOP is no layout. */
  lemma NoLayout(m: Mem, kdata: int, p: Proc)
    requires p.stk > USERTOP
    ensures !Layout(m, kdata, p)
  {
  }

  lemma ShallowerLayout(m: Mem, kdata: int, p: Proc, newstk: int)
    requires Layout(m, kdata, p) && (0 <= newstk <= p.stk || newstk > USERTOP) && newstk % PGSIZE == 0
    ensures Layout(m, kdata, p.(stk := newstk)) <==> newstk == p.stk
  {
    hide Lookup, Ready;
    if newstk < p.stk {
      var v := UPAGES - p.stk / PGSIZE;
      assert UserSet(p.sz, p.stk, v) && !UserSet(p.sz, newstk, v);
      assert Lookup(m, p.pgdir, v).p;
    }
    assert p.(stk := p.stk) == p;
  }
}
