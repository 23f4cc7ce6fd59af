/** exec's argument stack (exec.c): what the new program finds at its initial stack pointer.
    The strings go down from USERTOP, each rounded down to a word; below the last one
    come the null-terminated array of their addresses, its own address, argc and a fake
    return address. ArgsAt says the same from the reader's side, in terms of the bytes of
    user memory alone, and has one reading only: a C string at an address is unique. */
module ExecArgs {
  import opened Bytes
  import opened PageTables
  import opened FramePool
  import opened KernelMap
  import opened VirtualMemory
  import opened UserCopy

  const MAXARG := 32

  // ----- Words in user memory, least significant byte first

  function WordBytes(v: int): (b: seq<byte>)
    ensures |b| == 4
  {
    [Byte(v), Byte(v / 0x100), Byte(v / 0x1_0000), Byte(v / 0x100_0000)]
  }

  ghost function UserWord(m: Mem, d: int, x: int): int {
    WordOf(UserByte(m, d, x), UserByte(m, d, x + 1), UserByte(m, d, x + 2), UserByte(m, d, x + 3))
  }

  function Flat(ws: seq<int>): (b: seq<byte>)
    ensures |b| == 4 * |ws|
  {
    if ws == [] then [] else Flat(ws[..|ws| - 1]) + WordBytes(ws[|ws| - 1])
  }

  lemma {:induction false} FlatAt(ws: seq<int>, k: int)
    requires 0 <= k < |ws|
    ensures Flat(ws)[4 * k..4 * k + 4] == WordBytes(ws[k])
  {
    if k < |ws| - 1 {
      FlatAt(ws[..|ws| - 1], k);
      assert Flat(ws)[4 * k..4 * k + 4] == Flat(ws[..|ws| - 1])[4 * k..4 * k + 4];
    }
    hide WordBytes;
  }

  /** A word array copied into user memory reads back word by word. */
  lemma WordsThere(m: Mem, d: int, x: int, ws: seq<int>, k: int)
    requires 0 <= k < |ws| && 0 <= ws[k] < U32
    requires forall y :: x <= y < x + 4 * |ws| ==> UserByte(m, d, y) == Flat(ws)[y - x]
    ensures UserWord(m, d, x + 4 * k) == ws[k]
  {
    hide UserByte, Flat, Byte, WordOf;
    FlatAt(ws, k);
    WordRoundTrip(ws[k]);
    var b := Flat(ws)[4 * k..4 * k + 4];
    assert UserByte(m, d, x + 4 * k) == b[0] && UserByte(m, d, x + 4 * k + 1) == b[1];
    assert UserByte(m, d, x + 4 * k + 2) == b[2] && UserByte(m, d, x + 4 * k + 3) == b[3];
  }

  // ----- Strings in user memory

  predicate NoNul(a: seq<byte>) {
    forall j :: 0 <= j < |a| ==> a[j] != 0
  }

  /** The C string at x is a. */
  ghost predicate StringAt(m: Mem, d: int, x: int, a: seq<byte>) {
    && (forall y :: x <= y < x + |a| ==> UserByte(m, d, y) == a[y - x] && a[y - x] != 0)
    && UserByte(m, d, x + |a|) == 0
  }

  /** There is only one C string at an address. */
  lemma StringOnce(m: Mem, d: int, x: int, a: seq<byte>, b: seq<byte>)
    requires StringAt(m, d, x, a) && StringAt(m, d, x, b)
    ensures a == b
  {
    hide UserByte;
    assert |a| == |b|;
    forall j | 0 <= j < |a|
      ensures a[j] == b[j]
    {
      assert UserByte(m, d, x + j) == a[x + j - x];
    }
  }

  /** The stack pointer after the first k strings. */
  function Down(argv: seq<seq<byte>>, k: int): int
    requires 0 <= k <= |argv|
    decreases k
  {
    if k == 0 then USERTOP else (Down(argv, k - 1) - |argv[k - 1]| - 1) / 4 * 4
  }

  /** The initial stack pointer. */
  function Bottom(argv: seq<seq<byte>>): int {
    Down(argv, |argv|) - (3 + |argv| + 1) * 4
  }

  /** What the new program is promised: a return address that faults, argc, and argv, a null-terminated array
      of pointers to the arguments, which lie in order and apart, above the array. */
  ghost predicate ArgsAt(m: Mem, d: int, sp: int, argv: seq<seq<byte>>) {
    && sp % 4 == 0
    && UserWord(m, d, sp) == 0xffff_ffff
    && UserWord(m, d, sp + 4) == |argv|
    && UserWord(m, d, sp + 8) == sp + 12
    && UserWord(m, d, sp + 4 * (3 + |argv|)) == 0
    && forall k :: 0 <= k < |argv| ==> ArgAt(m, d, sp, argv, k)
  }

  /** argv[k] points to a word-aligned copy of the k-th argument, below the one before it and above the array. */
  ghost predicate ArgAt(m: Mem, d: int, sp: int, argv: seq<seq<byte>>, k: int)
    requires 0 <= k < |argv|
  {
    var x := UserWord(m, d, sp + 4 * (3 + k));
    && x % 4 == 0 && sp + 4 * (4 + |argv|) <= x
    && x + |argv[k]| + 1 <= (if k == 0 then USERTOP else UserWord(m, d, sp + 4 * (3 + (k - 1))))
    && StringAt(m, d, x, argv[k])
  }

  /** The bytes that the first n strings take, their NULs included. */
  ghost predicate StringByte(argv: seq<seq<byte>>, n: int, x: int)
    requires 0 <= n <= |argv|
  {
    exists k :: 0 <= k < n && InString(argv, k, x)
  }

  ghost predicate InString(argv: seq<seq<byte>>, k: int, x: int)
    requires 0 <= k < |argv|
  {
    Down(argv, k + 1) <= x <= Down(argv, k + 1) + |argv[k]|
  }

  /** The bytes that exec writes: the strings, and the words below them. */
  ghost predicate ArgByte(argv: seq<seq<byte>>, x: int) {
    StringByte(argv, |argv|, x) || Bottom(argv) <= x < Bottom(argv) + 4 * (4 + |argv|)
  }

  /** lo is the lowest of the pages that are mapped without a gap up to USERTOP. */
  ghost predicate Lowest(m: Mem, d: int, lo: int) {
    && 1 <= lo < UPAGES && !Lookup(m, d, lo - 1).p
    && forall v :: lo <= v < UPAGES ==> Lookup(m, d, v).p
  }

  /** exec's stack: sp is the new stack pointer. The arguments fit exactly if they fit above the first page that is not
      mapped, and then only their own bytes change. A pointer that falls below 0 wraps to kernel addresses. */
  method PushArgs(s: Machine, d: int, argv: seq<seq<byte>>, ghost lo: int) returns (ok: bool, sp: int)
    requires s.Valid() && d in s.dirs && Ready(s.mem, s.kdata, d) && Lowest(s.mem, d, lo)
    requires forall k :: 0 <= k < |argv| ==> NoNul(argv[k]) && |argv[k]| < USERTOP
    modifies s`mem
    ensures s.Valid() && SameMaps(old(s.mem), s.mem, s.dirs) && Ready(s.mem, s.kdata, d)
    ensures forall c, x :: c in s.dirs && c != d && 0 <= x < USERTOP ==>
      UserByte(s.mem, c, x) == UserByte(old(s.mem), c, x)
    ensures ok ==> forall x :: 0 <= x < USERTOP && !ArgByte(argv, x) ==>
      UserByte(s.mem, d, x) == UserByte(old(s.mem), d, x)
    ensures ok <==> |argv| <= MAXARG && lo * PGSIZE <= Bottom(argv)
    ensures ok ==> sp == Bottom(argv) && ArgsAt(s.mem, d, sp, argv)
  {
    hide Lookup, UserByte, StringAt, Owned, Shared, Ready, SameMaps, Entry, Flat, ArgsAt, Pushed, Elsewhere, Down,
      Lowest, AllThere, Walkable, ArgByte;
    ghost var m0 := s.mem;
    Unchanged(m0, s.dirs, d, argv, lo);
    sp := USERTOP;
    var ustack := seq(3, _ => 0);
    var argc := 0;
    while argc < |argv|
      invariant 0 <= argc <= |argv| && argc <= MAXARG && s.Valid() && Ready(s.mem, s.kdata, d) &&
        SameMaps(m0, s.mem, s.dirs)
      invariant sp == Down(argv, argc) && lo * PGSIZE <= sp <= USERTOP && sp % 4 == 0
      invariant |ustack| == 3 + argc && forall i :: 3 <= i < 3 + argc ==> ustack[i] == Down(argv, i - 2)
      invariant Pushed(s.mem, d, argv, argc)
      invariant Elsewhere(m0, s.mem, s.dirs, d, argv, argc)
    {
      DownStep(argv, argc);
      DownFalls(argv, argc + 1, |argv|);
      if argc >= MAXARG {
        ElsewhereFacts(m0, s.mem, s.dirs, d, argv, argc);
        return false, 0;
      }
      Wraps(sp - (|argv[argc]| + 1));
      sp := (sp - (|argv[argc]| + 1)) % U32 / 4 * 4;
      PagesAbove(m0, s.mem, s.kdata, s.dirs, d, lo, Down(argv, argc), sp, |argv[argc]| + 1);
      ghost var m1 := s.mem;
      ok := Copyout(s, d, sp, argv[argc] + [0]);
      SameMapsStep(m0, m1, s.mem, s.dirs);
      ElsewhereStep(m0, m1, s.mem, s.dirs, d, argv, argc, sp, argv[argc] + [0]);
      if !ok {
        return;
      }
      PushStep(m1, s.mem, d, argv, argc);
      ustack := ustack + [sp];
      argc := argc + 1;
    }
    ustack := ustack + [0];
    ustack := ustack[0 := 0xffff_ffff][1 := argc][2 := sp - (argc + 1) * 4];
    sp := sp - (3 + argc + 1) * 4;
    PagesAbove(m0, s.mem, s.kdata, s.dirs, d, lo, Down(argv, argc), sp, 4 * |ustack|);
    ghost var m1 := s.mem;
    ok := Copyout(s, d, sp, Flat(ustack));
    SameMapsStep(m0, m1, s.mem, s.dirs);
    BlockWritten(m0, m1, s.mem, s.dirs, d, argv, Flat(ustack));
    if ok {
      Finished(m1, s.mem, d, argv, ustack);
    }
  }

  /** Everything but the first n strings, and every other process, is as it was. */
  ghost predicate Elsewhere(m0: Mem, m1: Mem, dirs: set<int>, d: int, argv: seq<seq<byte>>, n: int)
    requires 0 <= n <= |argv|
  {
    forall c, x :: c in dirs && 0 <= x < USERTOP && !(c == d && StringByte(argv, n, x)) ==>
      UserByte(m1, c, x) == UserByte(m0, c, x)
  }

  lemma Unchanged(m: Mem, dirs: set<int>, d: int, argv: seq<seq<byte>>, lo: int)
    requires Lowest(m, d, lo)
    ensures SameMaps(m, m, dirs) && Elsewhere(m, m, dirs, d, argv, 0) && Pushed(m, d, argv, 0) &&
      Down(argv, 0) == USERTOP
    ensures 1 <= lo < UPAGES
  {
    hide Lookup;
  }

  lemma ElsewhereFacts(m0: Mem, m1: Mem, dirs: set<int>, d: int, argv: seq<seq<byte>>, n: int)
    requires 0 <= n <= |argv| && Elsewhere(m0, m1, dirs, d, argv, n)
    ensures forall c, x :: c in dirs && c != d && 0 <= x < USERTOP ==> UserByte(m1, c, x) == UserByte(m0, c, x)
  {
    hide UserByte;
  }

  lemma SameMapsStep(m0: Mem, m1: Mem, m2: Mem, dirs: set<int>)
    requires SameMaps(m0, m1, dirs) && SameMaps(m1, m2, dirs)
    ensures SameMaps(m0, m2, dirs)
  {
    hide Lookup;
  }

  /** The stack pointer is unsigned: below 0 it lands among the kernel's device addresses. */
  lemma Wraps(x: int)
    requires -USERTOP <= x < USERTOP
    ensures 0 <= x ==> x % U32 / 4 * 4 == x / 4 * 4
    ensures x < 0 ==> DEVSPACE <= x % U32 / 4 * 4 < U32
    ensures x < 0 ==> x / 4 * 4 < 0
  {
    if x < 0 {
      assert x % U32 == x + U32;
    }
  }

  /** A copy that ends near the stack pointer succeeds exactly if it does not reach below the lowest page. */
  lemma PagesAbove(m0: Mem, m1: Mem, kdata: int, dirs: set<int>, d: int, lo: int, top: int, va: int, n: int)
    requires SameMaps(m0, m1, dirs) && d in dirs && Lowest(m0, d, lo) && Ready(m1, kdata, d) && 256 < kdata < NFRAMES
    requires lo * PGSIZE <= top <= USERTOP && top % 4 == 0 && 0 < n
    requires (0 <= va && va + n <= top < va + n + 4) || DEVSPACE <= va < U32
    ensures Walkable(m1, d, va) && (AllThere(m1, d, va, n) <==> lo * PGSIZE <= va < USERTOP)
  {
    if va >= USERTOP {
      assert Lookup(m1, d, va / PGSIZE) == KernelPte(kdata, va / PGSIZE);
    } else {
      assert forall v :: 0 <= v < UPAGES ==> Lookup(m1, d, v) == Lookup(m0, d, v);
      hide Lookup;
      if va < lo * PGSIZE {
        assert va / PGSIZE <= lo - 1 && (lo - 1) * PGSIZE < va + n && !Lookup(m1, d, lo - 1).p;
      }
    }
  }

  lemma ElsewhereStep(m0: Mem, m1: Mem, m2: Mem, dirs: set<int>, d: int, argv: seq<seq<byte>>, k: int, va: int,
      p: seq<byte>)
    requires 0 <= k < |argv| && Elsewhere(m0, m1, dirs, d, argv, k) && |p| == |argv[k]| + 1
    requires forall c, x :: c in dirs && 0 <= x < USERTOP && !(c == d && va <= x < va + |p|) ==>
      UserByte(m2, c, x) == UserByte(m1, c, x)
    ensures va == Down(argv, k + 1) ==> Elsewhere(m0, m2, dirs, d, argv, k + 1)
    ensures forall c, x :: c in dirs && c != d && 0 <= x < USERTOP ==> UserByte(m2, c, x) == UserByte(m0, c, x)
  {
    hide UserByte, Down;
    if va == Down(argv, k + 1) {
      forall c, x | c in dirs && 0 <= x < USERTOP && !(c == d && StringByte(argv, k + 1, x))
        ensures UserByte(m2, c, x) == UserByte(m0, c, x)
      {
        if c == d {
          assert !InString(argv, k, x);
          assert !StringByte(argv, k, x);
        }
      }
    }
  }

  lemma BlockWritten(m0: Mem, m1: Mem, m2: Mem, dirs: set<int>, d: int, argv: seq<seq<byte>>, p: seq<byte>)
    requires d in dirs && Elsewhere(m0, m1, dirs, d, argv, |argv|) && |p| == 4 * (4 + |argv|)
    requires forall c, x :: c in dirs && 0 <= x < USERTOP && !(c == d && Bottom(argv) <= x < Bottom(argv) + |p|) ==>
      UserByte(m2, c, x) == UserByte(m1, c, x)
    ensures forall x :: 0 <= x < USERTOP && !ArgByte(argv, x) ==> UserByte(m2, d, x) == UserByte(m0, d, x)
    ensures forall c, x :: c in dirs && c != d && 0 <= x < USERTOP ==> UserByte(m2, c, x) == UserByte(m0, c, x)
  {
    hide UserByte, StringByte, Down;
  }

  lemma DownStep(argv: seq<seq<byte>>, k: int)
    requires 0 <= k < |argv| && Down(argv, k) <= USERTOP
    ensures Down(argv, k + 1) % 4 == 0 &&
      Down(argv, k + 1) + |argv[k]| + 1 <= Down(argv, k) < Down(argv, k + 1) + |argv[k]| + 1 + 4
    ensures Down(argv, k + 1) == (Down(argv, k) - (|argv[k]| + 1)) / 4 * 4
  {
  }

  lemma {:induction false} DownFalls(argv: seq<seq<byte>>, j: int, k: int)
    requires 0 <= j <= k <= |argv|
    ensures Down(argv, k) <= Down(argv, j)
    decreases k
  {
    if j < k {
      DownFalls(argv, j, k - 1);
    }
  }

  /** The first n arguments are in place. */
  ghost predicate Pushed(m: Mem, d: int, argv: seq<seq<byte>>, n: int)
    requires 0 <= n <= |argv|
  {
    forall k :: 0 <= k < n ==> StringAt(m, d, Down(argv, k + 1), argv[k])
  }

  lemma StringKept(m0: Mem, m1: Mem, d: int, x: int, a: seq<byte>)
    requires StringAt(m0, d, x, a) && forall y :: x <= y <= x + |a| ==> UserByte(m1, d, y) == UserByte(m0, d, y)
    ensures StringAt(m1, d, x, a)
  {
    hide UserByte;
  }

  lemma StringWritten(m: Mem, d: int, x: int, a: seq<byte>)
    requires NoNul(a) && forall y :: x <= y < x + |a + [0]| ==> UserByte(m, d, y) == (a + [0])[y - x]
    ensures StringAt(m, d, x, a)
  {
    hide UserByte;
    forall y | x <= y < x + |a|
      ensures UserByte(m, d, y) == a[y - x]
    {
      assert (a + [0])[y - x] == a[y - x];
    }
    assert (a + [0])[x + |a| - x] == 0;
  }

  /** A string written below the others leaves them alone. */
  lemma PushStep(m1: Mem, m2: Mem, d: int, argv: seq<seq<byte>>, n: int)
    requires 0 <= n < |argv| && Pushed(m1, d, argv, n) && NoNul(argv[n]) && 0 <= Down(argv, n + 1) &&
      Down(argv, n) <= USERTOP
    requires forall y :: Down(argv, n + 1) <= y < Down(argv, n + 1) + |argv[n] + [0]| ==>
      UserByte(m2, d, y) == (argv[n] + [0])[y - Down(argv, n + 1)]
    requires forall y :: Down(argv, n) <= y < USERTOP ==> UserByte(m2, d, y) == UserByte(m1, d, y)
    ensures Pushed(m2, d, argv, n + 1)
  {
    hide UserByte, StringAt;
    StringWritten(m2, d, Down(argv, n + 1), argv[n]);
    PushedAbove(m1, m2, d, argv, n);
  }

  lemma PushedAbove(m1: Mem, m2: Mem, d: int, argv: seq<seq<byte>>, n: int)
    requires 0 <= n <= |argv| && Pushed(m1, d, argv, n)
    requires forall y :: Down(argv, n) <= y < USERTOP ==> UserByte(m2, d, y) == UserByte(m1, d, y)
    ensures Pushed(m2, d, argv, n)
  {
    hide UserByte, StringAt;
    forall k | 0 <= k < n
      ensures StringAt(m2, d, Down(argv, k + 1), argv[k])
    {
      DownFalls(argv, k + 1, n);
      DownFalls(argv, 0, k);
      DownStep(argv, k);
      StringKept(m1, m2, d, Down(argv, k + 1), argv[k]);
    }
  }

  lemma Finished(m1: Mem, m2: Mem, d: int, argv: seq<seq<byte>>, ustack: seq<int>)
    requires Pushed(m1, d, argv, |argv|) && |argv| <= MAXARG && |ustack| == 4 + |argv|
    requires Down(argv, |argv|) % 4 == 0 && 0 <= Bottom(argv)
    requires ustack[0] == 0xffff_ffff && ustack[1] == |argv| && ustack[2] == Bottom(argv) + 12 &&
      ustack[3 + |argv|] == 0
    requires forall i :: 3 <= i < 3 + |argv| ==> ustack[i] == Down(argv, i - 2)
    requires forall y :: Bottom(argv) <= y < Bottom(argv) + |Flat(ustack)| ==>
      UserByte(m2, d, y) == Flat(ustack)[y - Bottom(argv)]
    requires forall y :: Down(argv, |argv|) <= y < USERTOP ==> UserByte(m2, d, y) == UserByte(m1, d, y)
    ensures ArgsAt(m2, d, Bottom(argv), argv)
  {
    hide UserByte, StringAt, UserWord, Flat, Down, ArgAt, WordIs, Pushed;
    var sp := Bottom(argv);
    PushedAbove(m1, m2, d, argv, |argv|);
    AllWords(m2, d, sp, argv, ustack);
    WordAt(m2, d, sp, 0, ustack);
    WordAt(m2, d, sp, 1, ustack);
    WordAt(m2, d, sp, 2, ustack);
    WordAt(m2, d, sp, 3 + |argv|, ustack);
    forall k | 0 <= k < |argv|
      ensures ArgAt(m2, d, sp, argv, k)
    {
      ArgThere(m2, d, argv, ustack, k);
    }
  }

  ghost predicate WordIs(m: Mem, d: int, sp: int, i: int, ustack: seq<int>)
    requires 0 <= i < |ustack|
  {
    UserWord(m, d, sp + 4 * i) == ustack[i]
  }

  lemma WordAt(m: Mem, d: int, sp: int, i: int, ustack: seq<int>)
    requires 0 <= i < |ustack| && WordIs(m, d, sp, i, ustack)
    ensures UserWord(m, d, sp + 4 * i) == ustack[i]
  {
  }

  lemma AllWords(m: Mem, d: int, sp: int, argv: seq<seq<byte>>, ustack: seq<int>)
    requires |ustack| == 4 + |argv| && |argv| <= MAXARG && 0 <= Bottom(argv)
    requires ustack[0] == 0xffff_ffff && ustack[1] == |argv| && ustack[2] == Bottom(argv) + 12 &&
      ustack[3 + |argv|] == 0
    requires forall i :: 3 <= i < 3 + |argv| ==> ustack[i] == Down(argv, i - 2)
    requires forall y :: sp <= y < sp + |Flat(ustack)| ==> UserByte(m, d, y) == Flat(ustack)[y - sp]
    ensures forall i :: 0 <= i < |ustack| ==> WordIs(m, d, sp, i, ustack)
  {
    hide UserByte, UserWord, Flat, Down;
    DownZero(argv);
    DownFalls(argv, 0, |argv|);
    forall i | 0 <= i < |ustack|
      ensures WordIs(m, d, sp, i, ustack)
    {
      if 3 <= i < 3 + |argv| {
        DownFalls(argv, 0, i - 2);
        DownFalls(argv, i - 2, |argv|);
      }
      WordsThere(m, d, sp, ustack, i);
    }
  }

  lemma ArgThere(m: Mem, d: int, argv: seq<seq<byte>>, ustack: seq<int>, k: int)
    requires |ustack| == 4 + |argv| && 0 <= k < |argv| && Pushed(m, d, argv, |argv|) && Down(argv, |argv|) % 4 == 0
    requires forall i :: 3 <= i < 3 + |argv| ==> ustack[i] == Down(argv, i - 2)
    requires forall i :: 0 <= i < |ustack| ==> WordIs(m, d, Bottom(argv), i, ustack)
    ensures ArgAt(m, d, Bottom(argv), argv, k)
  {
    hide UserByte, UserWord, StringAt, Down, WordIs;
    WordAt(m, d, Bottom(argv), 3 + k, ustack);
    assert ustack[3 + k] == Down(argv, k + 1);
    if k > 0 {
      WordAt(m, d, Bottom(argv), 3 + (k - 1), ustack);
      assert ustack[3 + (k - 1)] == Down(argv, k);
    }
    DownZero(argv);
    DownFalls(argv, 0, k);
    DownStep(argv, k);
    DownFalls(argv, k + 1, |argv|);
  }

  lemma DownZero(argv: seq<seq<byte>>)
    ensures Down(argv, 0) == USERTOP
  {
  }

  /** The promise depends on the bytes of user memory only. */
  lemma ArgsKept(m0: Mem, m1: Mem, d: int, sp: int, argv: seq<seq<byte>>)
    requires ArgsAt(m0, d, sp, argv) && 0 <= sp && sp + 4 * (4 + |argv|) <= USERTOP
    requires forall x :: 0 <= x < USERTOP ==> UserByte(m1, d, x) == UserByte(m0, d, x)
    ensures ArgsAt(m1, d, sp, argv)
  {
    hide UserByte;
    forall i | 0 <= i < 4 + |argv|
      ensures SameWord(m0, m1, d, sp, i)
    {
    }
    assert SameWord(m0, m1, d, sp, 0) && SameWord(m0, m1, d, sp, 1) && SameWord(m0, m1, d, sp, 2) &&
      SameWord(m0, m1, d, sp, 3 + |argv|);
    hide UserWord;
    forall k | 0 <= k < |argv|
      ensures ArgAt(m1, d, sp, argv, k)
    {
      ArgKept(m0, m1, d, sp, argv, k);
    }
  }

  ghost predicate SameWord(m0: Mem, m1: Mem, d: int, sp: int, i: int) {
    UserWord(m1, d, sp + 4 * i) == UserWord(m0, d, sp + 4 * i)
  }

  lemma {:induction false} ArgKept(m0: Mem, m1: Mem, d: int, sp: int, argv: seq<seq<byte>>, k: int)
    requires 0 <= k < |argv| && forall j :: 0 <= j < |argv| ==> ArgAt(m0, d, sp, argv, j)
    requires forall i :: 0 <= i < 4 + |argv| ==> SameWord(m0, m1, d, sp, i)
    requires forall x :: 0 <= x < USERTOP ==> UserByte(m1, d, x) == UserByte(m0, d, x)
    requires 0 <= sp
    ensures ArgAt(m1, d, sp, argv, k)
    ensures UserWord(m0, d, sp + 4 * (3 + k)) <= USERTOP
    decreases k
  {
    hide UserByte, UserWord, StringAt;
    assert ArgAt(m0, d, sp, argv, k) && SameWord(m0, m1, d, sp, 3 + k);
    if k > 0 {
      ArgKept(m0, m1, d, sp, argv, k - 1);
      assert SameWord(m0, m1, d, sp, 3 + (k - 1));
    }
    StringKept(m0, m1, d, UserWord(m0, d, sp + 4 * (3 + k)), argv[k]);
  }
}
