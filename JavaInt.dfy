/** Java's 32-bit `int` and its truncating remainder operator. */
module JavaInt {

  const INT_MIN: int := -0x8000_0000
  const INT_MAX: int := 0x7FFF_FFFF

  predicate IsInt32(x: int) { INT_MIN <= x <= INT_MAX }

  /** Two's-complement wrap-around of an unbounded integer into `int`. */
  function Wrap32(x: int): (r: int)
    ensures IsInt32(r)
    ensures (r - x) % 0x1_0000_0000 == 0
    ensures IsInt32(x) ==> r == x
  {
    var m := x % 0x1_0000_0000;
    if m <= INT_MAX then m else m - 0x1_0000_0000
  }

  /** Java's `n + 1` (or `n++`) on an `int`: only `INT_MAX` wraps, to `INT_MIN`. */
  function Inc32(n: int): (r: int)
    requires IsInt32(n)
    ensures IsInt32(r)
    ensures n < INT_MAX ==> r == n + 1
  {
    if n == INT_MAX then INT_MIN else n + 1
  }

  /** The increment is the two's-complement wrap of the exact sum. */
  lemma Inc32Wraps(n: int)
    requires IsInt32(n)
    ensures Inc32(n) == Wrap32(n + 1)
  {
    if n == INT_MAX {
      assert (n + 1) % 0x1_0000_0000 == 0x8000_0000;
    }
  }

  /** Java's `a % n` for a positive divisor: the sign follows the dividend. */
  function JavaRem(a: int, n: int): (r: int)
    requires n > 0
    ensures a >= 0 ==> 0 <= r < n
    ensures a < 0 ==> -n < r <= 0
    ensures r % n == a % n
  {
    if a >= 0 then a % n
    else
      var t := (-a) % n;
      var q := (-a) / n;
      assert a == -t + (-q) * n;
      ModShift(-t, -q, n);
      -t
  }

  lemma ModShift(y: int, k: int, m: int)
    requires m > 0
    ensures (y + k * m) % m == y % m
  {
    var q, r := y / m, y % m;
    assert y + k * m == (q + k) * m + r by {
      assert y == q * m + r;
      assert (q + k) * m == q * m + k * m;
    }
    DivModUnique(y + k * m, q + k, r, m);
  }

  lemma DivModUnique(a: int, q: int, r: int, m: int)
    requires m > 0 && 0 <= r < m && a == q * m + r
    ensures a % m == r && a / m == q
  {
    var q2, r2 := a / m, a % m;
    assert a == q2 * m + r2;
    assert (q - q2) * m == r2 - r by { assert (q - q2) * m == q * m - q2 * m; }
    if q > q2 {
      MulAtLeast(q - q2, m);
    } else if q < q2 {
      assert (q2 - q) * m == r - r2 by { assert (q2 - q) * m == -((q - q2) * m); }
      MulAtLeast(q2 - q, m);
    }
  }

  /** A quotient by a positive divisor is no larger than the dividend. */
  lemma DivAtMost(n: nat, m: int)
    requires m >= 1
    ensures 0 <= n / m <= n
  {
    var q, r := n / m, n % m;
    assert n == q * m + r;
    if q >= 1 {
      MulAtLeast(m, q);
      assert m * q == q * m;
    }
  }

  lemma MulAtLeast(d: int, m: int)
    requires d >= 1 && m > 0
    ensures d * m >= m
  {
  }
}
