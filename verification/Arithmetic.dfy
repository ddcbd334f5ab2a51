/** Division and shifts by symbolic powers of two. */
module Arithmetic {

  lemma MulNonNegative(a: int, b: int)
    requires 0 <= a && 0 <= b
    ensures 0 <= a * b
  {
  }

  lemma MulMonotone(a: int, b: int, d: int)
    requires a <= b && 0 <= d
    ensures a * d <= b * d
  {
    MulNonNegative(b - a, d);
    assert (b - a) * d == b * d - a * d;
  }

  lemma MulStep(a: int, b: int, d: int)
    requires 0 <= d
    ensures a < b ==> a * d + d <= b * d
  {
    if a < b {
      MulMonotone(a + 1, b, d);
      assert (a + 1) * d == a * d + d;
    }
  }

  /** A quotient is the only number that fits. */
  lemma QuotientUnique(a: int, q: int, r: int, d: int)
    requires d > 0 && a == q * d + r && 0 <= r < d
    ensures a / d == q && a % d == r
  {
    assert a == a / d * d + a % d;
    MulStep(q, a / d, d);
    MulStep(a / d, q, d);
  }

  lemma QuotientNonNegative(a: int, d: int)
    requires 0 <= a && 0 < d
    ensures 0 <= a / d
  {
    assert a == a / d * d + a % d;
    MulStep(a / d, 0, d);
  }

  function Pow2(k: nat): (p: nat)
    ensures p > 0
  {
    if k == 0 then 1 else 2 * Pow2(k - 1)
  }

  /** `v >> k` on a non-negative number. */
  function Shr(v: nat, k: nat): (q: nat)
    ensures q * Pow2(k) + Low(v, k) == v
  {
    QuotientNonNegative(v, Pow2(k));
    v / Pow2(k)
  }

  /** The k low bits. */
  function Low(v: nat, k: nat): (r: nat)
    ensures r < Pow2(k)
  {
    v % Pow2(k)
  }

  /** `v << k`. */
  function Shl(v: nat, k: nat): nat {
    MulNonNegative(v, Pow2(k));
    v * Pow2(k)
  }

  lemma ShiftUnique(v: nat, q: nat, r: nat, k: nat)
    requires v == q * Pow2(k) + r && r < Pow2(k)
    ensures Shr(v, k) == q && Low(v, k) == r
  {
    QuotientUnique(v, q, r, Pow2(k));
  }

  lemma {:induction false} Pow2Sum(a: nat, b: nat)
    ensures Pow2(a + b) == Pow2(a) * Pow2(b)
  {
    if a > 0 {
      Pow2Sum(a - 1, b);
      assert Pow2(a) * Pow2(b) == 2 * (Pow2(a - 1) * Pow2(b));
    } else {
      assert Pow2(0) * Pow2(b) == Pow2(b);
    }
  }

  lemma Regroup(p: nat, lq: nat, lv: nat, x: nat, y: nat)
    requires lq < y && lv < x
    ensures (p * y + lq) * x + lv == p * (x * y) + (lq * x + lv)
    ensures 0 <= lq * x + lv < x * y
  {
    assert (p * y + lq) * x == (p * y) * x + lq * x;
    assert (p * y) * x == p * (x * y);
    MulStep(lq, y, x);
    MulNonNegative(lq, x);
  }

  /** Shifting twice is shifting once. */
  lemma ShrShr(v: nat, a: nat, b: nat)
    ensures Shr(Shr(v, a), b) == Shr(v, a + b)
  {
    var q := Shr(v, a);
    var p := Shr(q, b);
    Pow2Sum(a, b);
    Regroup(p, Low(q, b), Low(v, a), Pow2(a), Pow2(b));
    ShiftUnique(v, p, Low(q, b) * Pow2(a) + Low(v, a), a + b);
  }

  /** Clearing the low bits does not change what is above them. */
  lemma ShrShl(v: nat, k: nat)
    ensures Shr(Shl(Shr(v, k), k), k) == Shr(v, k)
  {
    ShiftUnique(Shl(Shr(v, k), k), Shr(v, k), 0, k);
  }

  lemma ShlLess(v: nat, k: nat)
    ensures Shl(Shr(v, k), k) <= v
  {
  }

  /** A high part placed above k bits comes back when shifted by at most k. */
  lemma ShrHigh(h: nat, low: nat, k: nat, s: nat)
    requires low < Pow2(k) && s <= k
    ensures Shr(Shl(h, k) + low, s) == Shl(h, k - s) + Shr(low, s)
    ensures Shr(low, s) < Pow2(k - s)
  {
    Pow2Sum(k - s, s);
    var x, y := Pow2(k - s), Pow2(s);
    assert h * (x * y) == (h * x) * y;
    assert Shl(h, k) + low == (Shl(h, k - s) + Shr(low, s)) * y + Low(low, s) by {
      assert (h * x + Shr(low, s)) * y == (h * x) * y + Shr(low, s) * y;
    }
    ShiftUnique(Shl(h, k) + low, Shl(h, k - s) + Shr(low, s), Low(low, s), s);
    if Shr(low, s) >= x {
      MulMonotone(x, Shr(low, s), y);
    }
  }
}
