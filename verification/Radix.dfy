/** Big-endian digits of a number in any radix, at any fixed width. */
module Radix {

  function Pow(r: nat, n: nat): nat {
    if n == 0 then 1 else r * Pow(r, n - 1)
  }

  predicate Below(r: nat, ds: seq<nat>) {
    forall i | 0 <= i < |ds| :: ds[i] < r
  }

  /** Digit `i` of `n` is `v / r^(n-1-i) % r`. */
  function ToDigits(r: nat, n: nat, v: nat): (ds: seq<nat>)
    requires r > 0
    ensures |ds| == n && Below(r, ds)
  {
    seq(n, i requires 0 <= i < n => PowPositive(r, n - 1 - i); v / Pow(r, n - 1 - i) % r)
  }

  /** The fold `acc * r + d`. */
  function FromDigits(r: nat, ds: seq<nat>): nat {
    if ds == [] then 0 else FromDigits(r, ds[..|ds| - 1]) * r + ds[|ds| - 1]
  }

  lemma {:induction false} PowPositive(r: nat, n: nat)
    requires r > 0
    ensures Pow(r, n) > 0
  {
    if n > 0 {
      PowPositive(r, n - 1);
    }
  }

  lemma MulStep(a: int, b: int, d: nat)
    ensures a < b ==> a * d + d <= b * d
    ensures a <= b ==> a * d <= b * d
  {
    if a < b {
      var gap: nat := b - a - 1;
      assert b * d == (a + 1 + gap) * d == a * d + d + gap * d;
      assert gap * d >= 0;
    }
  }

  lemma DivUnique(v: int, d: int, q: int)
    requires d > 0 && q * d <= v < q * d + d
    ensures v / d == q
  {
    MulStep(v / d, q, d);
    MulStep(q, v / d, d);
  }

  lemma NestedBounds(v: int, r: int, m: int, w: int, q: int)
    requires r > 0 && w * r <= v < w * r + r && q * m <= w <= q * m + m - 1
    ensures q * (r * m) <= v < q * (r * m) + r * m
  {
    var (low, high) := (q * m, q * m + m - 1);
    MulStep(low, w, r);
    MulStep(w, high, r);
    assert high * r == low * r + m * r - r;
    assert low * r == q * (r * m) by {
      assert q * m * r == q * (m * r) && m * r == r * m;
    }
  }

  lemma Remainder(v: nat, d: nat)
    requires d > 0
    ensures v / d * d <= v <= v / d * d + d - 1
    ensures v / d * d + v % d == v
  {
  }

  lemma DivDiv(v: nat, r: nat, m: nat)
    requires r > 0 && m > 0
    ensures r * m > 0 && v / (r * m) == v / r / m
  {
    Remainder(v, r);
    Remainder(v / r, m);
    NestedBounds(v, r, m, v / r, v / r / m);
    DivUnique(v, r * m, v / r / m);
  }

  lemma DigitShift(r: nat, k: nat, v: nat)
    requires r > 0
    ensures Pow(r, k) > 0 && Pow(r, k + 1) > 0 && v / Pow(r, k + 1) == v / r / Pow(r, k)
  {
    PowPositive(r, k);
    PowPositive(r, k + 1);
    DivDiv(v, r, Pow(r, k));
  }

  /** Dropping the last digit divides by the radix. */
  lemma ToDigitsSnoc(r: nat, n: nat, v: nat)
    requires r > 0 && n > 0
    ensures ToDigits(r, n, v) == ToDigits(r, n - 1, v / r) + [v % r]
  {
    hide Pow;
    var (left, right) := (ToDigits(r, n, v), ToDigits(r, n - 1, v / r) + [v % r]);
    forall i | 0 <= i < n ensures left[i] == right[i] {
      if i < n - 1 {
        DigitShift(r, n - 2 - i, v);
      } else {
        LastDigit(r, v);
      }
    }
  }

  lemma LastDigit(r: nat, v: nat)
    requires r > 0
    ensures Pow(r, 0) == 1 && v / Pow(r, 0) % r == v % r
  {
  }

  lemma SplitLast(r: nat, hi: nat, lo: nat)
    requires lo < r
    ensures (hi * r + lo) / r == hi && (hi * r + lo) % r == lo
  {
    DivUnique(hi * r + lo, r, hi);
  }

  lemma {:induction false} FromDigitsBound(r: nat, ds: seq<nat>)
    requires r > 0 && Below(r, ds)
    ensures FromDigits(r, ds) < Pow(r, |ds|)
  {
    if ds != [] {
      var init := ds[..|ds| - 1];
      FromDigitsBound(r, init);
      MulStep(FromDigits(r, init), Pow(r, |init|), r);
    }
  }

  /** Reading back the digits of a number below `r^n` gives the number. */
  lemma {:induction false} FromToDigits(r: nat, n: nat, v: nat)
    requires r > 0 && v < Pow(r, n)
    ensures FromDigits(r, ToDigits(r, n, v)) == v
  {
    if n > 0 {
      hide ToDigits;
      QuotientBound(v, r, Pow(r, n - 1));
      ToDigitsSnoc(r, n, v);
      FromToDigits(r, n - 1, v / r);
      var ds := ToDigits(r, n, v);
      assert ds[..n - 1] == ToDigits(r, n - 1, v / r);
      Remainder(v, r);
    }
  }

  lemma QuotientBound(v: nat, r: nat, m: nat)
    requires r > 0 && v < r * m
    ensures v / r < m
  {
    MulStep(m, v / r, r);
  }

  /** Every digit sequence is the expansion of the number it denotes. */
  lemma {:induction false} ToFromDigits(r: nat, ds: seq<nat>)
    requires r > 0 && Below(r, ds)
    ensures ToDigits(r, |ds|, FromDigits(r, ds)) == ds
  {
    if ds != [] {
      var (init, last) := (ds[..|ds| - 1], ds[|ds| - 1]);
      ToFromDigits(r, init);
      SplitLast(r, FromDigits(r, init), last);
      ToDigitsSnoc(r, |ds|, FromDigits(r, ds));
      assert ds == init + [last];
    }
  }
}
