/** Facts about % and multiples that the solver needs spelled out. */
module Arith {

  lemma SmallMultipleIsZero(d: int, n: int)
    requires n > 0 && -n < d * n < n
    ensures d == 0
  {
  }

  lemma ModAddOnce(x: int, n: int)
    requires n > 0
    ensures (x + n) % n == x % n
  {
    var d := (x + n) / n - x / n - 1;
    assert d * n == x % n - (x + n) % n;
    SmallMultipleIsZero(d, n);
  }

  lemma ModShift(y: int, q: nat, n: int)
    requires n > 0
    ensures (y + q * n) % n == y % n
    decreases q
  {
    if q > 0 {
      ModShift(y, q - 1, n);
      assert q * n == (q - 1) * n + n;
      ModAddOnce(y + (q - 1) * n, n);
    }
  }

  /** A multiple of n, rounded up from x. */
  lemma RoundUp(x: nat, n: int)
    requires n > 0
    ensures var t := (x + n - 1) / n * n; x <= t < x + n && t % n == 0
  {
    ModShift(0, (x + n - 1) / n, n);
  }
}
