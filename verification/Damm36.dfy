/** The Damm check character over base 36: `x . y = sigma(x) + y` on `Z6 x Z6`,
    with digit `d` standing for the vector `(d / 6, d % 6)`. */
module Damm36 {
  import opened Wrappers
  import opened Base36

  // ----- Z6 x Z6, each component split by CRT into Z2 and Z3 ---------------

  datatype Trit = T0 | T1 | T2

  datatype Six = Six(b: bool, t: Trit)

  datatype Vec = Vec(x: Six, y: Six)

  const ZERO := Vec(Six(false, T0), Six(false, T0))

  function AddTrit(a: Trit, b: Trit): Trit {
    match a
    case T0 => b
    case T1 => (match b case T0 => T1 case T1 => T2 case T2 => T0)
    case T2 => (match b case T0 => T2 case T1 => T0 case T2 => T1)
  }

  function NegTrit(a: Trit): Trit {
    match a case T0 => T0 case T1 => T2 case T2 => T1
  }

  function Add(a: Vec, b: Vec): Vec {
    Vec(Six(a.x.b != b.x.b, AddTrit(a.x.t, b.x.t)), Six(a.y.b != b.y.b, AddTrit(a.y.t, b.y.t)))
  }

  function Neg(a: Vec): Vec {
    Vec(Six(a.x.b, NegTrit(a.x.t)), Six(a.y.b, NegTrit(a.y.t)))
  }

  function Sub(a: Vec, b: Vec): Vec {
    Add(a, Neg(b))
  }

  type Z6 = n: nat | n < 6

  function ToSix(n: Z6): Six {
    if n == 0 then Six(false, T0)
    else if n == 1 then Six(true, T1)
    else if n == 2 then Six(false, T2)
    else if n == 3 then Six(true, T0)
    else if n == 4 then Six(false, T1)
    else Six(true, T2)
  }

  function OfSix(s: Six): Z6 {
    match s.t
    case T0 => if s.b then 3 else 0
    case T1 => if s.b then 1 else 4
    case T2 => if s.b then 5 else 2
  }

  /** Which block of six digits `d` falls in: `d / 6`. */
  function Block(d: Digit): (n: Z6)
    ensures 6 * n <= d < 6 * n + 6
  {
    if d < 18 then (if d < 6 then 0 else if d < 12 then 1 else 2)
    else (if d < 24 then 3 else if d < 30 then 4 else 5)
  }

  function ToVec(d: Digit): Vec {
    Vec(ToSix(Block(d)), ToSix(d - 6 * Block(d)))
  }

  function OfVec(v: Vec): Digit {
    6 * OfSix(v.x) + OfSix(v.y)
  }

  // ----- The table --------------------------------------------------------

  /** First coordinate of sigma: `y2` on the Z2 part, `2 * x3` on the Z3 part. */
  function SigmaX(x: Z6, y: Z6): Z6 {
    (3 * (y % 2) + 4 * ((2 * (x % 3)) % 3)) % 6
  }

  /** Second coordinate: `x2 + y2` on the Z2 part, `2 * y3` on the Z3 part. */
  function SigmaY(x: Z6, y: Z6): Z6 {
    (3 * ((x + y) % 2) + 4 * ((2 * (y % 3)) % 3)) % 6
  }

  /** The orthomorphism on digits. */
  function Sigma(d: Digit): Digit {
    6 * SigmaX(d / 6, d % 6) + SigmaY(d / 6, d % 6)
  }

  /** What the table holds at row `x`, column `y`. */
  function Entry(x: Digit, y: Digit): Digit {
    var s := Sigma(x);
    6 * ((s / 6 + y / 6) % 6) + (s % 6 + y % 6) % 6
  }

  /** The quasigroup operation on digits, through the vectors they stand for. */
  function Op(x: Digit, y: Digit): Digit {
    OfVec(Add(Lin(ToVec(x)), ToVec(y)))
  }

  /** The nested loops that fill the table, entry by entry. */
  method BuildTable() returns (t: array2<Digit>)
    ensures t.Length0 == 36 && t.Length1 == 36
    ensures forall x: Digit, y: Digit :: t[x, y] == Op(x, y)
  {
    hide Op, Sigma;
    t := new Digit[36, 36]((i, j) => 0);
    var x := 0;
    while x < 36
      invariant 0 <= x <= 36
      invariant forall i: Digit, j: Digit :: i < x ==> t[i, j] == Op(i, j)
    {
      var s := Sigma(x);
      var y := 0;
      while y < 36
        invariant 0 <= y <= 36
        invariant forall i: Digit, j: Digit :: i < x || (i == x && j < y) ==> t[i, j] == Op(i, j)
      {
        TableEntry(x, y);
        t[x, y] := 6 * ((s / 6 + y / 6) % 6) + (s % 6 + y % 6) % 6;
        y := y + 1;
      }
      x := x + 1;
    }
  }

  /** Fold through the quasigroup, starting from 0. */
  function Interim(ds: seq<Digit>): Digit {
    if ds == [] then 0 else Op(Interim(ds[..|ds| - 1]), ds[|ds| - 1])
  }

  predicate Validate(ds: seq<Digit>) {
    Interim(ds) == 0
  }

  /** First column at or after `y` holding 0 in row `x`. */
  function ZeroFrom(x: Digit, y: nat): Option<Digit>
    decreases 36 - y
  {
    if y >= 36 then None
    else if Op(x, y) == 0 then Some(y)
    else ZeroFrom(x, y + 1)
  }

  function CheckDigit(ds: seq<Digit>): Digit {
    RowHasZero(Interim(ds), 0);
    ZeroFrom(Interim(ds), 0).value
  }

  // ----- The integer formulas, read as vectors ----------------------------

  /** Sigma on vectors: `(x, y) |-> (y, x + y)` on the Z2 parts, doubling on the Z3 parts. */
  function Lin(v: Vec): Vec {
    Vec(Six(v.y.b, NegTrit(v.x.t)), Six(v.x.b != v.y.b, NegTrit(v.y.t)))
  }

  function LinInverse(v: Vec): Vec {
    Vec(Six(v.x.b != v.y.b, NegTrit(v.x.t)), Six(v.x.b, NegTrit(v.y.t)))
  }

  lemma SixAdd(a: Z6, b: Z6)
    ensures ToSix((a + b) % 6).b == (ToSix(a).b != ToSix(b).b)
    ensures ToSix((a + b) % 6).t == AddTrit(ToSix(a).t, ToSix(b).t)
  {
    assert a == 0 || a == 1 || a == 2 || a == 3 || a == 4 || a == 5;
    assert b == 0 || b == 1 || b == 2 || b == 3 || b == 4 || b == 5;
  }

  lemma AddParts(a: Z6, b: Z6, c: Z6, d: Z6)
    ensures Add(Vec(ToSix(a), ToSix(b)), Vec(ToSix(c), ToSix(d))) == Vec(ToSix((a + c) % 6), ToSix((b + d) % 6))
  {
    hide ToSix;
    SixAdd(a, c);
    SixAdd(b, d);
  }

  lemma SixRoundTrip(n: Z6, s: Six)
    ensures OfSix(ToSix(n)) == n && ToSix(OfSix(s)) == s
  {
    assert n == 0 || n == 1 || n == 2 || n == 3 || n == 4 || n == 5;
  }

  lemma Halves(hi: Z6, lo: Z6)
    ensures 6 * hi + lo < 36 && (6 * hi + lo) / 6 == hi && (6 * hi + lo) % 6 == lo
    ensures ToVec(6 * hi + lo) == Vec(ToSix(hi), ToSix(lo))
  {
  }

  lemma VecRoundTrip(d: Digit, v: Vec)
    ensures OfVec(ToVec(d)) == d && ToVec(OfVec(v)) == v
  {
    SixRoundTrip(d / 6, v.x);
    SixRoundTrip(d % 6, v.y);
    Halves(OfSix(v.x), OfSix(v.y));
  }

  lemma VecInjective(a: Digit, b: Digit)
    requires ToVec(a) == ToVec(b)
    ensures a == b
  {
    VecRoundTrip(a, ZERO);
    VecRoundTrip(b, ZERO);
  }

  lemma {:induction false} SigmaIsLinear(d: Digit)
    ensures ToVec(Sigma(d)) == Lin(ToVec(d))
  {
    hide Lin, ToSix, ToVec, SigmaX, SigmaY;
    var (x, y) := (d / 6, d % 6);
    SigmaOnPairs(x, y);
    Halves(x, y);
    Halves(SigmaX(x, y), SigmaY(x, y));
  }

  function TritOf(n: nat): Trit
    requires n < 3
  {
    if n == 0 then T0 else if n == 1 then T1 else T2
  }

  lemma Parts(n: Z6)
    ensures ToSix(n) == Six(n % 2 == 1, TritOf(n % 3))
  {
    assert n == 0 || n == 1 || n == 2 || n == 3 || n == 4 || n == 5;
  }

  /** CRT recombination: `3a + 4b` is `a` mod 2 and `b` mod 3. */
  lemma Recombine(a: nat, b: nat)
    requires a < 2 && b < 3
    ensures ToSix((3 * a + 4 * b) % 6) == Six(a == 1, TritOf(b))
  {
    assert a == 0 || a == 1;
    assert b == 0 || b == 1 || b == 2;
  }

  lemma PartSums(x: Z6, y: Z6)
    ensures ((x + y) % 2 == 1) <==> ((x % 2 == 1) != (y % 2 == 1))
    ensures TritOf((2 * (x % 3)) % 3) == NegTrit(TritOf(x % 3))
  {
  }

  lemma SigmaOnPairs(x: Z6, y: Z6)
    ensures Vec(ToSix(SigmaX(x, y)), ToSix(SigmaY(x, y))) == Lin(Vec(ToSix(x), ToSix(y)))
  {
    hide ToSix, TritOf;
    Parts(x);
    Parts(y);
    PartSums(x, y);
    PartSums(y, x);
    Recombine(y % 2, (2 * (x % 3)) % 3);
    Recombine((x + y) % 2, (2 * (y % 3)) % 3);
  }

  /** The integer formula for a table entry is the vector operation. */
  lemma {:induction false} TableEntry(x: Digit, y: Digit)
    ensures Entry(x, y) == Op(x, y)
  {
    hide Add, Lin, ToSix, Sigma, AddTrit;
    var s := Sigma(x);
    SigmaIsLinear(x);
    Halves(s / 6, s % 6);
    Halves(y / 6, y % 6);
    SixAdd(s / 6, y / 6);
    SixAdd(s % 6, y % 6);
    Halves((s / 6 + y / 6) % 6, (s % 6 + y % 6) % 6);
    AddParts(s / 6, s % 6, y / 6, y % 6);
    assert ToVec(Entry(x, y)) == Add(Lin(ToVec(x)), ToVec(y));
    VecRoundTrip(Entry(x, y), ZERO);
  }

  lemma OpAsVectors(x: Digit, y: Digit)
    ensures ToVec(Op(x, y)) == Add(Lin(ToVec(x)), ToVec(y))
  {
    VecRoundTrip(0, Add(Lin(ToVec(x)), ToVec(y)));
  }

  lemma LinAdd(a: Vec, b: Vec)
    ensures Lin(Add(a, b)) == Add(Lin(a), Lin(b))
  {
  }

  lemma LinSub(a: Vec, b: Vec)
    ensures Lin(Sub(a, b)) == Sub(Lin(a), Lin(b))
  {
  }

  lemma LinInverts(v: Vec)
    ensures LinInverse(Lin(v)) == v
  {
  }

  // ----- The quasigroup laws ----------------------------------------------

  /** Rows and columns are permutations: each argument is determined by the other and the result. */
  lemma {:induction false} LatinSquare(x: Digit, y: Digit, z: Digit)
    ensures Op(x, y) == Op(x, z) ==> y == z
    ensures Op(y, x) == Op(z, x) ==> y == z
  {
    hide Op, Add, Lin, ToVec;
    OpAsVectors(x, y); OpAsVectors(x, z);
    OpAsVectors(y, x); OpAsVectors(z, x);
    LinInverts(ToVec(y)); LinInverts(ToVec(z));
    if Op(x, y) == Op(x, z) {
      AddCancels(Lin(ToVec(x)), ToVec(y), ToVec(z));
      VecInjective(y, z);
    }
    if Op(y, x) == Op(z, x) {
      AddCancels(ToVec(x), Lin(ToVec(y)), Lin(ToVec(z)));
      VecInjective(y, z);
    }
  }

  lemma AddNeg(a: Vec)
    ensures Add(a, Neg(a)) == ZERO
  {
  }

  lemma ZeroDigit(d: Digit)
    ensures ToVec(d) == ZERO <==> d == 0
  {
    if ToVec(d) == ZERO {
      VecInjective(d, 0);
    }
  }

  lemma AddCancels(c: Vec, a: Vec, b: Vec)
    ensures Add(c, a) == Add(c, b) <==> a == b
    ensures Add(a, c) == Add(b, c) <==> a == b
  {
  }

  lemma RowHasZero(x: Digit, y: nat)
    requires y == 0 || (y <= 36 && forall j: Digit | j < y :: Op(x, j) != 0)
    ensures ZeroFrom(x, y).Some? && Op(x, ZeroFrom(x, y).value) == 0
    decreases 36 - y
  {
    hide Op, Add, Neg, ToVec, OfVec, Lin;
    var zero := OfVec(Neg(Lin(ToVec(x))));
    OpAsVectors(x, zero);
    VecRoundTrip(zero, Neg(Lin(ToVec(x))));
    AddNeg(Lin(ToVec(x)));
    ZeroDigit(Op(x, zero));
    if Op(x, y) != 0 {
      RowHasZero(x, y + 1);
    }
  }

  /** Appending `c` makes the sequence valid exactly when `c` is the computed check digit. */
  lemma {:induction false} CheckDigitUnique(ds: seq<Digit>, c: Digit)
    ensures Validate(ds + [c]) <==> c == CheckDigit(ds)
  {
    hide Op;
    assert (ds + [c])[..|ds|] == ds;
    RowHasZero(Interim(ds), 0);
    LatinSquare(Interim(ds), c, CheckDigit(ds));
  }

  /** Total anti-symmetry, the two laws the construction is built for. */
  lemma {:induction false} TotallyAntiSymmetric(c: Digit, x: Digit, y: Digit)
    ensures Op(x, y) == Op(y, x) ==> x == y
    ensures Op(Op(c, x), y) == Op(Op(c, y), x) ==> x == y
  {
    OpAsVectors(x, y); OpAsVectors(y, x);
    OpAsVectors(c, x); OpAsVectors(c, y);
    OpAsVectors(Op(c, x), y); OpAsVectors(Op(c, y), x);
    var (z, u, v) := (Lin(ToVec(c)), ToVec(x), ToVec(y));
    if Op(x, y) == Op(y, x) {
      AntiSymmetry(ZERO, u, v);
      VecInjective(x, y);
    }
    if Op(Op(c, x), y) == Op(Op(c, y), x) {
      AntiSymmetry(z, u, v);
      VecInjective(x, y);
    }
  }

  lemma AntiSymmetry(z: Vec, u: Vec, v: Vec)
    requires Add(Lin(Add(z, u)), v) == Add(Lin(Add(z, v)), u)
    ensures u == v
  {
    LinAdd(z, u); LinAdd(z, v);
    var w := Lin(z);
    assert Add(Add(w, Lin(u)), v) == Add(Add(w, Lin(v)), u);
    ThetaInjective(w, u, v);
  }

  lemma ThetaInjective(w: Vec, u: Vec, v: Vec)
    requires Add(Add(w, Lin(u)), v) == Add(Add(w, Lin(v)), u)
    ensures u == v
  {
    CancelAcross(w, Lin(u), v, Lin(v), u);
    assert Sub(Lin(u), u) == Sub(Lin(v), v);
    ThetaInverts(u); ThetaInverts(v);
  }

  lemma SubAcross(a: Vec, b: Vec, c: Vec, d: Vec)
    requires Add(a, b) == Add(c, d)
    ensures Sub(a, d) == Sub(c, b)
  {
  }

  lemma CancelAcross(w: Vec, a: Vec, b: Vec, c: Vec, d: Vec)
    requires Add(Add(w, a), b) == Add(Add(w, c), d)
    ensures Sub(a, d) == Sub(c, b)
  {
    hide Add, Sub;
    AddAssoc(w, a, b);
    AddAssoc(w, c, d);
    AddCancels(w, Add(a, b), Add(c, d));
    SubAcross(a, b, c, d);
  }

  /** `theta(v) = sigma(v) - v` is undone by sigma itself on the Z2 parts; it is the identity on the Z3 parts. */
  lemma ThetaInverts(v: Vec)
    ensures var t := Sub(Lin(v), v);
            Vec(Six(t.y.b, t.x.t), Six(t.x.b != t.y.b, t.y.t)) == v
  {
  }

  // ----- Closed form: sum of sigma^(n-1-i)(d_i) ----------------------------

  function SigmaPow(k: nat, v: Vec): Vec {
    if k == 0 then v else Lin(SigmaPow(k - 1, v))
  }

  /** The weighted sum of the digits, the leading digit under the highest power of sigma. */
  function Weighted(ds: seq<Digit>): Vec {
    if ds == [] then ZERO
    else Add(SigmaPow(|ds| - 1, ToVec(ds[0])), Weighted(ds[1..]))
  }

  lemma {:induction false} SigmaPowAdd(k: nat, a: Vec, b: Vec)
    ensures SigmaPow(k, Add(a, b)) == Add(SigmaPow(k, a), SigmaPow(k, b))
  {
    if k > 0 {
      SigmaPowAdd(k - 1, a, b);
      LinAdd(SigmaPow(k - 1, a), SigmaPow(k - 1, b));
    }
  }

  lemma {:induction false} SigmaPowSub(k: nat, a: Vec, b: Vec)
    ensures SigmaPow(k, Sub(a, b)) == Sub(SigmaPow(k, a), SigmaPow(k, b))
  {
    if k > 0 {
      SigmaPowSub(k - 1, a, b);
      LinSub(SigmaPow(k - 1, a), SigmaPow(k - 1, b));
    }
  }

  lemma {:induction false} SigmaPowPlus(j: nat, k: nat, v: Vec)
    ensures SigmaPow(j + k, v) == SigmaPow(j, SigmaPow(k, v))
  {
    if j > 0 {
      SigmaPowPlus(j - 1, k, v);
    }
  }

  lemma {:induction false} SigmaPowInjective(k: nat, v: Vec)
    ensures SigmaPow(k, v) == ZERO <==> v == ZERO
  {
    if k > 0 {
      SigmaPowInjective(k - 1, v);
      LinInverts(SigmaPow(k - 1, v));
      assert LinInverse(ZERO) == ZERO && Lin(ZERO) == ZERO;
    }
  }

  lemma AddAssoc(a: Vec, b: Vec, c: Vec)
    ensures Add(Add(a, b), c) == Add(a, Add(b, c))
  {
  }

  lemma AddZero(a: Vec)
    ensures Add(a, ZERO) == a == Add(ZERO, a)
  {
  }

  lemma {:induction false} WeightedSnoc(ds: seq<Digit>, d: Digit)
    ensures Weighted(ds + [d]) == Add(Lin(Weighted(ds)), ToVec(d))
  {
    if ds == [] {
      assert ds + [d] == [d];
      assert Weighted([d]) == Add(ToVec(d), Weighted([d][1..]));
      AddZero(ToVec(d));
      assert Lin(ZERO) == ZERO;
    } else {
      var head := SigmaPow(|ds| - 1, ToVec(ds[0]));
      assert (ds + [d])[1..] == ds[1..] + [d];
      assert SigmaPow(|ds|, ToVec(ds[0])) == Lin(head);
      WeightedSnoc(ds[1..], d);
      LinAdd(head, Weighted(ds[1..]));
      AddAssoc(Lin(head), Lin(Weighted(ds[1..])), ToVec(d));
    }
  }

  /** The fold computes the weighted sum. */
  lemma {:induction false} InterimClosedForm(ds: seq<Digit>)
    ensures Interim(ds) == OfVec(Weighted(ds))
  {
    hide Add, Lin, ToVec, OfVec, SigmaPow;
    if ds == [] {
      ZeroDigit(0);
      VecRoundTrip(0, ZERO);
    } else {
      var (init, last) := (ds[..|ds| - 1], ds[|ds| - 1]);
      InterimClosedForm(init);
      WeightedSnoc(init, last);
      assert init + [last] == ds;
      VecRoundTrip(last, Weighted(init));
    }
  }

  /** Changing digit `i` moves the sum by sigma^(n-1-i) of the change. */
  lemma {:induction false} WeightedUpdate(ds: seq<Digit>, i: nat, v: Digit)
    requires i < |ds|
    ensures Weighted(ds[i := v]) == Add(Weighted(ds), SigmaPow(|ds| - 1 - i, Sub(ToVec(v), ToVec(ds[i]))))
  {
    hide Add, Sub, ToVec, SigmaPow;
    var es := ds[i := v];
    var n := |ds| - 1;
    if i == 0 {
      assert es[1..] == ds[1..];
      SigmaPowSub(n, ToVec(v), ToVec(ds[0]));
      Replace(SigmaPow(n, ToVec(v)), SigmaPow(n, ToVec(ds[0])), Weighted(ds[1..]));
    } else {
      assert es[1..] == ds[1..][i - 1 := v];
      WeightedUpdate(ds[1..], i - 1, v);
      AddAssoc(SigmaPow(n, ToVec(ds[0])), Weighted(ds[1..]), SigmaPow(n - i, Sub(ToVec(v), ToVec(ds[i]))));
    }
  }

  lemma Replace(a: Vec, b: Vec, w: Vec)
    ensures Add(a, w) == Add(Add(b, w), Sub(a, b))
  {
  }

  lemma ValidIsZeroSum(ds: seq<Digit>)
    ensures Validate(ds) <==> Weighted(ds) == ZERO
  {
    InterimClosedForm(ds);
    VecRoundTrip(0, Weighted(ds));
    ZeroDigit(Interim(ds));
  }

  // ----- What the check character catches ---------------------------------

  /** Changing exactly one digit of a valid sequence of any length is caught. */
  lemma SingleErrorCaught(ds: seq<Digit>, i: nat, v: Digit)
    requires Validate(ds) && i < |ds|
    ensures Validate(ds[i := v]) <==> v == ds[i]
  {
    var change := Sub(ToVec(v), ToVec(ds[i]));
    ValidIsZeroSum(ds);
    ValidIsZeroSum(ds[i := v]);
    WeightedUpdate(ds, i, v);
    SigmaPowInjective(|ds| - 1 - i, change);
    AddZero(SigmaPow(|ds| - 1 - i, change));
    SubZero(ToVec(v), ToVec(ds[i]));
    if ToVec(v) == ToVec(ds[i]) {
      VecInjective(v, ds[i]);
    }
  }

  lemma SubZero(a: Vec, b: Vec)
    ensures Sub(a, b) == ZERO <==> a == b
  {
  }

  function Swap(ds: seq<Digit>, i: nat, j: nat): seq<Digit>
    requires i < |ds| && j < |ds|
  {
    ds[i := ds[j]][j := ds[i]]
  }

  /** The effect of a swap on the weighted sum. */
  lemma WeightedSwap(ds: seq<Digit>, i: nat, j: nat)
    requires i < j < |ds|
    ensures var (a, b) := (ToVec(ds[i]), ToVec(ds[j]));
            Weighted(Swap(ds, i, j))
            == Add(Weighted(ds), SigmaPow(|ds| - 1 - j, Add(SigmaPow(j - i, Sub(b, a)), Sub(a, b))))
  {
    hide Add, Sub, ToVec, SigmaPow, Weighted;
    var mid := ds[i := ds[j]];
    var (a, b) := (ToVec(ds[i]), ToVec(ds[j]));
    assert Swap(ds, i, j) == mid[j := ds[i]] && |mid| == |ds| && mid[j] == ds[j];
    var tail := |ds| - 1 - j;
    var (up, down) := (Sub(b, a), Sub(a, b));
    assert Weighted(mid) == Add(Weighted(ds), SigmaPow(tail + (j - i), up)) by {
      WeightedUpdate(ds, i, ds[j]);
    }
    assert Weighted(Swap(ds, i, j)) == Add(Weighted(mid), SigmaPow(tail, down)) by {
      WeightedUpdate(mid, j, ds[i]);
    }
    TwoMoves(Weighted(ds), tail, j - i, up, down);
  }

  lemma TwoMoves(w: Vec, tail: nat, k: nat, up: Vec, down: Vec)
    ensures Add(Add(w, SigmaPow(tail + k, up)), SigmaPow(tail, down))
            == Add(w, SigmaPow(tail, Add(SigmaPow(k, up), down)))
  {
    SigmaPowPlus(tail, k, up);
    AddAssoc(w, SigmaPow(tail + k, up), SigmaPow(tail, down));
    SigmaPowAdd(tail, SigmaPow(k, up), down);
  }

  /** A swap at distance `j - i` in a valid sequence goes undetected exactly when
      sigma to that power fixes the difference of the two digits. */
  lemma SwapUndetectedIff(ds: seq<Digit>, i: nat, j: nat)
    requires Validate(ds) && i < j < |ds|
    ensures var diff := Sub(ToVec(ds[j]), ToVec(ds[i]));
            Validate(Swap(ds, i, j)) <==> SigmaPow(j - i, diff) == diff
  {
    hide Add, Sub, ToVec, SigmaPow, Weighted, Validate, Swap;
    var (a, b) := (ToVec(ds[i]), ToVec(ds[j]));
    var moved := SigmaPow(j - i, Sub(b, a));
    var tail := |ds| - 1 - j;
    ValidIsZeroSum(ds);
    ValidIsZeroSum(Swap(ds, i, j));
    WeightedSwap(ds, i, j);
    AddZero(SigmaPow(tail, Add(moved, Sub(a, b))));
    SigmaPowInjective(tail, Add(moved, Sub(a, b)));
    AddOpposite(moved, a, b);
  }

  lemma AddOpposite(m: Vec, a: Vec, b: Vec)
    ensures Add(m, Sub(a, b)) == ZERO <==> m == Sub(b, a)
  {
  }

  lemma Cubes(v: Vec)
    ensures SigmaPow(3, v) == Neg(v)
  {
    assert SigmaPow(1, v) == Lin(v);
    assert SigmaPow(2, v) == Lin(Lin(v));
    assert SigmaPow(3, v) == Lin(SigmaPow(2, v));
  }

  lemma SigmaHasOrderSix(v: Vec)
    ensures SigmaPow(6, v) == v
  {
    SigmaPowPlus(3, 3, v);
    Cubes(v);
    Cubes(SigmaPow(3, v));
  }

  lemma {:induction false} SigmaPowReduces(k: nat, v: Vec)
    ensures SigmaPow(k, v) == SigmaPow(k % 6, v)
  {
    if k >= 6 {
      SigmaPowPlus(6, k - 6, v);
      SigmaHasOrderSix(SigmaPow(k - 6, v));
      SigmaPowReduces(k - 6, v);
    }
  }

  /** The distances at which every swap of unequal digits moves the sum. */
  lemma FixedPointFreeDistances(k: nat)
    ensures (forall v: Vec | v != ZERO :: SigmaPow(k, v) != v) <==> k % 6 == 1 || k % 6 == 5
  {
    forall v: Vec ensures SigmaPow(k, v) == SigmaPow(k % 6, v) {
      SigmaPowReduces(k, v);
    }
    if k % 6 == 1 {
      forall v: Vec | SigmaPow(1, v) == v ensures v == ZERO {
        FixedByOne(v);
      }
    } else if k % 6 == 5 {
      forall v: Vec | SigmaPow(5, v) == v ensures v == ZERO {
        SigmaHasOrderSix(v);
        assert SigmaPow(6, v) == Lin(SigmaPow(5, v));
        FixedByOne(v);
      }
    } else {
      EvenPowersFix(THIRD);
      Cubes(HALF);
      var stuck := if k % 6 == 3 then HALF else THIRD;
      assert stuck != ZERO && SigmaPow(k, stuck) == SigmaPow(k % 6, stuck) == stuck;
    }
  }

  lemma FixedByOne(v: Vec)
    requires Lin(v) == v
    ensures v == ZERO
  {
    ThetaInverts(v);
    SubZero(Lin(v), v);
  }

  const HALF := Vec(Six(true, T0), Six(false, T0))

  const THIRD := Vec(Six(false, T1), Six(false, T0))

  lemma EvenPowersFix(v: Vec)
    requires v == THIRD
    ensures SigmaPow(0, v) == SigmaPow(2, v) == SigmaPow(4, v) == v
  {
    assert SigmaPow(1, v) == Lin(v);
    assert SigmaPow(2, v) == Lin(Lin(v)) == v;
    SigmaPowPlus(2, 2, v);
  }

  /** Swapping two unequal digits at distance 1 or 5 modulo 6 is always caught;
      adjacent transpositions are the case of distance 1. */
  lemma SwapCaught(ds: seq<Digit>, i: nat, j: nat)
    requires Validate(ds) && i < j < |ds|
    requires (j - i) % 6 == 1 || (j - i) % 6 == 5
    ensures Validate(Swap(ds, i, j)) <==> ds[i] == ds[j]
  {
    hide Add, Sub, ToVec, SigmaPow, Validate, Swap;
    SwapUndetectedIff(ds, i, j);
    FixedPointFreeDistances(j - i);
    SubZero(ToVec(ds[j]), ToVec(ds[i]));
    SigmaPowInjective(j - i, ZERO);
    if ToVec(ds[j]) == ToVec(ds[i]) {
      VecInjective(ds[j], ds[i]);
    }
  }

  lemma SubFromZero(v: Vec)
    ensures Sub(v, ZERO) == v
  {
  }

  /** At every other distance some swap of unequal digits escapes, in a valid sequence of
      length `j - i + 2` ending in its own check digit. */
  lemma SwapEscapes(k: nat)
    requires k > 0 && k % 6 != 1 && k % 6 != 5
    ensures exists ds: seq<Digit> :: |ds| == k + 2 && Validate(ds) && ds[0] != ds[k] && Validate(Swap(ds, 0, k))
  {
    hide Op, Add, Sub, Neg, ToVec, OfVec, Lin, Interim, SigmaPow, CheckDigit;
    FixedPointFreeDistances(k);
    var v: Vec :| v != ZERO && SigmaPow(k, v) == v;
    var zeros: seq<Digit> := seq(k, _ => 0 as Digit);
    var body := zeros + [OfVec(v)];
    var ds := body + [CheckDigit(body)];
    CheckDigitUnique(body, CheckDigit(body));
    SwapUndetectedIff(ds, 0, k);
    VecRoundTrip(0, v);
    ZeroDigit(0);
    ZeroDigit(OfVec(v));
    SubFromZero(v);
    assert Validate(ds);
  }
}
