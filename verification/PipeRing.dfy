/** The bounded byte ring of a pipe (pipe.c): two free-running 32-bit counters
    over an array of PIPESIZE chars. PIPESIZE is a parameter, |data|; the code
    needs only that it divides 2^32 and is smaller than it. */
module PipeRing {
  import opened Arith
  import opened Bytes

  datatype Pipe = Pipe(data: seq<char>, nread: int, nwrite: int, readopen: bool, writeopen: bool)

  ghost predicate SizeOk(n: nat) {
    0 < n < U32 && U32 % n == 0
  }

  /** nwrite - nread as the C code computes it, in unsigned 32-bit arithmetic. */
  function Count(p: Pipe): (n: nat) {
    (p.nwrite - p.nread) % U32
  }

  ghost predicate Valid(p: Pipe) {
    SizeOk(|p.data|) && 0 <= p.nread < U32 && 0 <= p.nwrite < U32 && Count(p) <= |p.data|
  }

  predicate Empty(p: Pipe) {
    p.nread == p.nwrite
  }

  /** The full test as written: nwrite == nread + PIPESIZE, wrapping. */
  predicate Full(p: Pipe) {
    p.nwrite == (p.nread + |p.data|) % U32
  }

  /** The unread bytes, oldest first. */
  ghost function Contents(p: Pipe): (s: seq<char>)
    requires |p.data| > 0
  {
    seq(Count(p), k requires 0 <= k => p.data[(p.nread + k) % U32 % |p.data|])
  }

  function Store(p: Pipe, b: char): Pipe
    requires |p.data| > 0
  {
    p.(data := p.data[p.nwrite % |p.data| := b], nwrite := (p.nwrite + 1) % U32)
  }

  function Fetch(p: Pipe): (char, Pipe)
    requires |p.data| > 0
  {
    (p.data[p.nread % |p.data|], p.(nread := (p.nread + 1) % U32))
  }

  /** One wrap, upwards or downwards. */
  lemma Wrap(x: int)
    requires -U32 <= x < 2 * U32
    ensures x % U32 == if x < 0 then x + U32 else if x < U32 then x else x - U32
  {
  }

  /** Wrap-around does not disturb ring positions, because the size divides 2^32. */
  lemma WrapKeepsPosition(x: nat, n: nat)
    requires SizeOk(n)
    requires x < 2 * U32
    ensures x % U32 % n == x % n
  {
    if x >= U32 {
      assert x % U32 == x - U32;
      var q := U32 / n;
      assert U32 == q * n;
      ModShift(x - U32, q, n);
    }
  }

  /** Distinct offsets below the size fall on distinct slots. */
  lemma SlotsDistinct(r: nat, j: nat, k: nat, n: nat)
    requires n > 0 && j < k < n
    ensures (r + j) % n != (r + k) % n
  {
    var q, t, d := (r + j) / n, (r + j) % n, k - j;
    assert r + j == q * n + t;
    assert r + k == t + d + q * n;
    ModShift(t + d, q, n);
    SmallShift(t, d, n);
  }

  lemma SmallShift(t: nat, d: nat, n: nat)
    requires t < n && 0 < d < n
    ensures (t + d) % n != t
  {
    if t + d >= n {
      ModAddOnce(t + d - n, n);
    }
  }

  /** The code's tests mean what their comments say: full is count PIPESIZE, empty is count 0. */
  lemma CountMeaning(p: Pipe)
    requires Valid(p)
    ensures Full(p) <==> Count(p) == |p.data|
    ensures Empty(p) <==> Count(p) == 0
  {
    Wrap(p.nwrite - p.nread);
    Wrap(p.nread + |p.data|);
  }

  /** The slot about to be stored into is none of the slots still unread. */
  lemma StoreSlot(p: Pipe, k: nat)
    requires Valid(p) && !Full(p) && k <= Count(p)
    ensures (p.nread + Count(p)) % U32 == p.nwrite
    ensures k < Count(p) ==> (p.nread + k) % U32 % |p.data| != p.nwrite % |p.data|
  {
    var n, c := |p.data|, Count(p);
    CountMeaning(p);
    Wrap(p.nwrite - p.nread);
    Wrap(p.nread + c);
    WrapKeepsPosition(p.nread + c, n);
    WrapKeepsPosition(p.nread + k, n);
    if k < c {
      SlotsDistinct(p.nread, k, c, n);
    }
  }

  /** A store on a ring that is not full appends one byte and overwrites none. */
  lemma StoreAppends(p: Pipe, b: char)
    requires Valid(p) && !Full(p)
    ensures Valid(Store(p, b))
    ensures Contents(Store(p, b)) == Contents(p) + [b]
    ensures Count(Store(p, b)) == Count(p) + 1
  {
    var c, q := Count(p), Store(p, b);
    CountMeaning(p);
    assert Count(q) == c + 1 by {
      Wrap(p.nwrite - p.nread);
      Wrap(p.nwrite + 1);
      Wrap(q.nwrite - q.nread);
    }
    forall k | 0 <= k < c + 1
      ensures Contents(q)[k] == (Contents(p) + [b])[k]
    {
      StoreSlot(p, k);
    }
  }

  /** A fetch on a ring that is not empty takes the oldest byte. */
  lemma FetchTakesOldest(p: Pipe)
    requires Valid(p) && !Empty(p)
    ensures Valid(Fetch(p).1)
    ensures Contents(p) == [Fetch(p).0] + Contents(Fetch(p).1)
    ensures Count(Fetch(p).1) == Count(p) - 1
  {
    assert |p.data| > 0 && |Fetch(p).1.data| == |p.data|;
    hide Valid, Count, Empty, Full;
    FetchCount(p);
    ContentsAre(p);
    ContentsAre(Fetch(p).1);
    hide Contents;
    forall k | 0 <= k < Count(p)
      ensures Contents(p)[k] == ([Fetch(p).0] + Contents(Fetch(p).1))[k]
    {
      FetchSlot(p, k);
    }
  }

  lemma FetchCount(p: Pipe)
    requires Valid(p) && !Empty(p)
    ensures Valid(Fetch(p).1) && Count(Fetch(p).1) == Count(p) - 1 >= 0
  {
    var q := Fetch(p).1;
    CountMeaning(p);
    Wrap(p.nwrite - p.nread);
    Wrap(p.nread + 1);
    Wrap(q.nwrite - q.nread);
  }

  lemma ContentsAre(p: Pipe)
    requires Valid(p)
    ensures |Contents(p)| == Count(p)
  {
  }

  /** Byte k of the ring, before and after the fetch. */
  lemma FetchSlot(p: Pipe, k: nat)
    requires Valid(p) && !Empty(p) && k < Count(p) && Valid(Fetch(p).1) && Count(Fetch(p).1) == Count(p) - 1
    ensures k == 0 ==> Contents(p)[k] == Fetch(p).0
    ensures k > 0 ==> Contents(p)[k] == Contents(Fetch(p).1)[k - 1]
  {
    var q := Fetch(p).1;
    Wrap(p.nread);
    if k > 0 {
      Wrap(p.nread + 1);
      Wrap(p.nread + k);
      Wrap(q.nread + (k - 1));
      assert (q.nread + (k - 1)) % U32 == (p.nread + k) % U32;
    }
  }

  lemma ValidSize(p: Pipe)
    requires Valid(p)
    ensures 0 < |p.data| < U32
  {
  }

  lemma StoreIs(p: Pipe, b: char)
    requires |p.data| > 0
    ensures Store(p, b) == p.(data := p.data[p.nwrite % |p.data| := b], nwrite := (p.nwrite + 1) % U32)
  {
  }

  /** The pipe object itself, with the two copying loops of pipewrite and piperead. */
  class PipeBuffer {
    const data: array<char>
    var nread: int
    var nwrite: int
    var readopen: bool
    var writeopen: bool

    ghost function Abs(): (p: Pipe)
      reads this, data
    {
      Pipe(data[..], nread, nwrite, readopen, writeopen)
    }

    constructor (size: nat)
      requires SizeOk(size)
      ensures Valid(Abs()) && Contents(Abs()) == [] && fresh(data) && data.Length == size
      ensures readopen && writeopen
    {
      data := new char[size](_ => '\0');
      readopen, writeopen := true, true;
      nwrite, nread := 0, 0;
    }

    /** pipewrite's for loop from byte i up to the next full test that succeeds, or to the end. */
    method Fill(addr: seq<char>, i: nat) returns (j: nat)
      requires Valid(Abs()) && i <= |addr|
      modifies this`nwrite, data
      ensures Valid(Abs()) && i <= j <= |addr|
      ensures Contents(Abs()) == old(Contents(Abs())) + addr[i..j]
      ensures j == |addr| || |Contents(Abs())| == data.Length
    {
      hide Contents, Count, SizeOk, Store, Valid;
      j := i;
      ValidSize(Abs());
      assert addr[i..j] == [];
      while j < |addr| && nwrite != (nread + data.Length) % U32
        invariant i <= j <= |addr|
        invariant Valid(Abs()) && nread == old(nread)
        invariant Contents(Abs()) == old(Contents(Abs())) + addr[i..j]
      {
        ghost var p := Abs();
        StoreAppends(p, addr[j]);
        data[nwrite % data.Length] := addr[j];
        nwrite := (nwrite + 1) % U32;
        StoreIs(p, addr[j]);
        assert Abs().data == p.data[p.nwrite % |p.data| := addr[j]];
        assert addr[i..j] + [addr[j]] == addr[i..j + 1];
        j := j + 1;
      }
      CountMeaning(Abs());
      ContentsAre(Abs());
    }

    /** piperead's copy loop: up to n bytes, stopping early when the ring is empty. */
    method CopyOut(n: int) returns (out: seq<char>)
      requires Valid(Abs())
      modifies this`nread
      ensures Valid(Abs())
      ensures old(Contents(Abs())) == out + Contents(Abs())
      ensures if n <= 0 then out == [] else |out| <= n && (|out| < n ==> Contents(Abs()) == [])
    {
      out := [];
      var i := 0;
      ghost var all := Contents(Abs());
      while i < n && nread != nwrite
        invariant i == |out| && (i == 0 || i <= n)
        invariant Valid(Abs())
        invariant all == out + Contents(Abs())
        decreases n - i
      {
        out := FetchInto(out, all);
        i := i + 1;
      }
      CountMeaning(Abs());
    }

    /** addr[i] = p->data[p->nread++ % PIPESIZE]; the bytes copied so far end up one longer. */
    method FetchInto(out: seq<char>, ghost all: seq<char>) returns (longer: seq<char>)
      requires Valid(Abs()) && !Empty(Abs())
      requires all == out + Contents(Abs())
      modifies this`nread
      ensures Valid(Abs()) && |longer| == |out| + 1
      ensures all == longer + Contents(Abs())
    {
      ghost var p := Abs();
      FetchTakesOldest(p);
      longer := out + [data[nread % data.Length]];
      nread := (nread + 1) % U32;
      assert Abs() == Fetch(p).1;
      assert out + ([Fetch(p).0] + Contents(Abs())) == longer + Contents(Abs());
    }
  }
}
