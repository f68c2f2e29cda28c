/**
 * `Math.round`, `Math.min` and `Math.max` on exact rationals. `Math.round(x)`
 * is `floor(x + 1/2)`, so rounding the quotient `a / d` (with `d > 0`) is
 * `floor((2a + d) / (2d))`; Dafny's `/` on a positive divisor is the floor.
 */
module Arith {

  function Min(a: int, b: int): int { if a <= b then a else b }

  function Max(a: int, b: int): int { if a >= b then a else b }

  /** `Math.round(a / d)` for an exact rational quotient. */
  function RoundHalfUp(a: int, d: int): int
    requires d > 0
  {
    (2 * a + d) / (2 * d)
  }

  /** The rounded quotient is the integer nearest to `a / d`, a half rounding up. */
  lemma RoundIsNearest(a: int, d: int)
    requires d > 0
    ensures var r := RoundHalfUp(a, d); d * (2 * r - 1) <= 2 * a < d * (2 * r + 1)
  {
    var r := RoundHalfUp(a, d);
    var m := (2 * a + d) % (2 * d);
    assert 2 * a + d == (2 * d) * r + m && 0 <= m < 2 * d;
    assert d * (2 * r - 1) == (2 * d) * r - d;
    assert d * (2 * r + 1) == (2 * d) * r + d;
  }

  /** A positive multiple of `q` by at least one is at least `q`. */
  lemma MulAtLeast(q: int, t: int)
    requires q > 0 && t >= 1
    ensures q * t >= q
  {
    assert q * t == q + q * (t - 1);
  }

  /** Integer division by a positive divisor is monotone. */
  lemma DivMonotone(x: int, y: int, q: int)
    requires q > 0 && x <= y
    ensures x / q <= y / q
  {
    var qx, qy := x / q, y / q;
    assert x == q * qx + x % q && 0 <= x % q < q;
    assert y == q * qy + y % q && 0 <= y % q < q;
    if qx > qy {
      MulAtLeast(q, qx - qy);
      assert false;
    }
  }

  /** The quotient of `q * k + r` by `q` is `k` when `0 <= r < q`. */
  lemma DivExact(k: int, r: int, q: int)
    requires q > 0 && 0 <= r < q
    ensures (q * k + r) / q == k
  {
    var n := q * k + r;
    var d, m := n / q, n % q;
    assert n == q * d + m && 0 <= m < q;
    assert q * (d - k) == r - m;
    if d > k {
      MulAtLeast(q, d - k);
      assert false;
    }
    if d < k {
      MulAtLeast(q, k - d);
      assert false;
    }
  }

  /** Rounding is monotone in the numerator. */
  lemma RoundMonotone(a: int, b: int, d: int)
    requires d > 0 && a <= b
    ensures RoundHalfUp(a, d) <= RoundHalfUp(b, d)
  {
    DivMonotone(2 * a + d, 2 * b + d, 2 * d);
  }

  /** Rounding a whole quotient gives it back. */
  lemma RoundWhole(k: int, d: int)
    requires d > 0
    ensures RoundHalfUp(k * d, d) == k
  {
    assert 2 * (k * d) + d == (2 * d) * k + d;
    DivExact(k, d, 2 * d);
  }

  /** A rounded quotient whose numerator lies in `[lo * d, hi * d]` lies in `[lo, hi]`. */
  lemma RoundWithin(a: int, d: int, lo: int, hi: int)
    requires d > 0 && lo * d <= a <= hi * d
    ensures lo <= RoundHalfUp(a, d) <= hi
  {
    RoundMonotone(lo * d, a, d);
    RoundMonotone(a, hi * d, d);
    RoundWhole(lo, d);
    RoundWhole(hi, d);
  }

  /** `Math.round((m / d) * 100)` is 0 with no matches and at least 100 with `m >= d`. */
  lemma PercentEnds(m: nat, d: nat)
    requires d > 0
    ensures m == 0 ==> RoundHalfUp(100 * m, d) == 0
    ensures m >= d ==> RoundHalfUp(100 * m, d) >= 100
  {
    if m == 0 {
      RoundWhole(0, d);
    }
    if m >= d {
      RoundMonotone(100 * d, 100 * m, d);
      RoundWhole(100, d);
    }
  }

  /** `Math.round((m / n) * 100)` with `m <= n` lies in `[0, 100]`; it is 0 and 100 at the ends. */
  lemma PercentWithin(m: nat, n: nat)
    requires 0 < n && m <= n
    ensures 0 <= RoundHalfUp(100 * m, n) <= 100
    ensures m == 0 ==> RoundHalfUp(100 * m, n) == 0
    ensures m == n ==> RoundHalfUp(100 * m, n) == 100
  {
    RoundWithin(100 * m, n, 0, 100);
    if m == 0 {
      RoundWhole(0, n);
    }
    if m == n {
      RoundWhole(100, n);
    }
  }
}
