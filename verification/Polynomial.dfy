/** Polynomials over a prime field, as coefficient sequences (lowest degree
    first) with integer coefficients read modulo p: the factor theorem, the
    root-count bound and Lagrange interpolation. */
module Polynomial {
  import opened Field

  type Poly = seq<int>

  function Eval(c: Poly, x: int): int {
    if c == [] then 0 else c[0] + x * Eval(c[1..], x)
  }

  /** Synthetic division of c by (X - r). */
  function Quotient(c: Poly, r: int): (q: Poly)
    ensures |q| == if c == [] then 0 else |c| - 1
  {
    if |c| <= 1 then [] else [Eval(c[1..], r)] + Quotient(c[1..], r)
  }

  predicate ZeroMod(c: Poly, p: int) {
    forall i :: 0 <= i < |c| ==> Cong(c[i], 0, p)
  }

  /** No two entries are congruent. */
  predicate DistinctMod(xs: seq<int>, p: int) {
    forall i, j :: 0 <= i < j < |xs| ==> !Cong(xs[i], xs[j], p)
  }

  // ----- factor theorem and root count -----

  lemma {:induction false} FactorTheorem(c: Poly, r: int, x: int)
    ensures Eval(c, x) == Eval(c, r) + (x - r) * Eval(Quotient(c, r), x)
  {
    if |c| > 1 {
      var t := c[1..];
      var q := Quotient(t, r);
      FactorTheorem(t, r, x);
      assert Quotient(c, r)[0] == Eval(t, r) && Quotient(c, r)[1..] == q;
      FactorStep(c[0], Eval(t, r), Eval(q, x), r, x);
    } else if |c| == 1 {
      assert c[1..] == [];
    }
  }

  lemma FactorStep(c0: int, e: int, q: int, r: int, x: int)
    ensures c0 + x * (e + (x - r) * q) == c0 + r * e + (x - r) * (e + x * q)
  {
    assert x * ((x - r) * q) == (x - r) * (x * q);
  }

  lemma {:induction false} ZeroFromQuotient(c: Poly, r: int, p: int)
    requires p > 0 && Cong(Eval(c, r), 0, p) && ZeroMod(Quotient(c, r), p)
    ensures ZeroMod(c, p)
  {
    if c != [] {
      var t := c[1..];
      if |c| > 1 {
        var q := Quotient(c, r);
        assert q[0] == Eval(t, r) && q[1..] == Quotient(t, r);
        assert Cong(q[0], 0, p);
        assert forall i :: 0 <= i < |q[1..]| ==> q[1..][i] == q[i + 1];
        ZeroFromQuotient(t, r, p);
      } else {
        CongRefl(0, p);
      }
      CongRefl(-r, p);
      CongMul(-r, -r, Eval(t, r), 0, p);
      CongAdd(Eval(c, r), 0, -r * Eval(t, r), 0, p);
      assert c[0] == Eval(c, r) + -r * Eval(t, r);
      assert forall i :: 0 < i < |c| ==> c[i] == t[i - 1];
    }
  }

  /** A root other than r is a root of the quotient by (X - r). */
  lemma RootOfQuotient(c: Poly, r: int, s: int, p: int)
    requires Prime(p) && !Cong(r, s, p)
    requires Cong(Eval(c, r), 0, p) && Cong(Eval(c, s), 0, p)
    ensures Cong(Eval(Quotient(c, r), s), 0, p)
  {
    var e := Eval(Quotient(c, r), s);
    FactorTheorem(c, r, s);
    CongSub(Eval(c, s), Eval(c, r), p);
    NoZeroDivisors(s - r, e, p);
    if Cong(s - r, 0, p) {
      CongSym(s, r, p);
    }
  }

  lemma CongSub(a: int, b: int, p: int)
    requires Cong(a, 0, p) && Cong(b, 0, p)
    ensures Cong(a - b, 0, p)
  {
    CongSym(b, 0, p);
    CongTrans(a, 0, b, p);
  }

  /** A polynomial with at least as many incongruent roots as coefficients is
      zero. */
  lemma {:induction false} RootCount(c: Poly, roots: seq<int>, p: int)
    requires Prime(p) && |roots| >= |c| && DistinctMod(roots, p)
    requires forall i :: 0 <= i < |roots| ==> Cong(Eval(c, roots[i]), 0, p)
    ensures ZeroMod(c, p)
    decreases |c|
  {
    if c != [] {
      var r, rest := roots[0], roots[1..];
      var q := Quotient(c, r);
      forall i | 0 <= i < |rest| ensures Cong(Eval(q, rest[i]), 0, p) {
        RootOfQuotient(c, r, rest[i], p);
      }
      RootCount(q, rest, p);
      ZeroFromQuotient(c, r, p);
    }
  }

  lemma {:induction false} EvalZeroMod(c: Poly, x: int, p: int)
    requires p > 0 && ZeroMod(c, p)
    ensures Cong(Eval(c, x), 0, p)
  {
    CongRefl(0, p);
    if c != [] {
      EvalZeroMod(c[1..], x, p);
      CongRefl(x, p);
      CongMul(x, x, Eval(c[1..], x), 0, p);
      CongAdd(c[0], 0, x * Eval(c[1..], x), 0, p);
    }
  }

  // ----- arithmetic on coefficient sequences -----

  function Zeros(n: nat): Poly {
    seq(n, i => 0)
  }

  /** c + k * d */
  function AddScaled(c: Poly, k: int, d: Poly): (r: Poly)
    requires |c| == |d|
  {
    seq(|c|, i requires 0 <= i < |c| => c[i] + k * d[i])
  }

  /** (X - a) * c */
  function MulLinear(c: Poly, a: int): (r: Poly)
    ensures |r| == |c| + 1
  {
    AddScaled([0] + c, -a, c + [0])
  }

  lemma {:induction false} EvalAddScaled(c: Poly, k: int, d: Poly, x: int)
    requires |c| == |d|
    ensures Eval(AddScaled(c, k, d), x) == Eval(c, x) + k * Eval(d, x)
  {
    if c != [] {
      EvalAddScaled(c[1..], k, d[1..], x);
      var r := AddScaled(c, k, d);
      assert r[1..] == AddScaled(c[1..], k, d[1..]);
      HornerSum(c[0], d[0], Eval(c[1..], x), Eval(d[1..], x), k, x);
      assert Eval(r, x) == r[0] + x * Eval(r[1..], x);
    }
  }

  lemma HornerSum(c0: int, d0: int, e: int, f: int, k: int, x: int)
    ensures (c0 + k * d0) + x * (e + k * f) == (c0 + x * e) + k * (d0 + x * f)
  {
    assert x * (e + k * f) == x * e + k * (x * f);
    assert k * (d0 + x * f) == k * d0 + k * (x * f);
  }

  lemma EvalAddScaledTo(c: Poly, k: int, d: Poly, x: int, e: int, f: int)
    requires |c| == |d| && Eval(c, x) == e && Eval(d, x) == f
    ensures Eval(AddScaled(c, k, d), x) == e + k * f
  {
    EvalAddScaled(c, k, d, x);
  }

  lemma {:induction false} EvalZeros(n: nat, x: int)
    ensures Eval(Zeros(n), x) == 0
  {
    if n > 0 {
      EvalZeros(n - 1, x);
      assert Zeros(n)[1..] == Zeros(n - 1);
    }
  }

  /** Leading zero coefficients do not change the value. */
  lemma {:induction false} EvalPad(c: Poly, n: nat, x: int)
    ensures Eval(c + Zeros(n), x) == Eval(c, x)
  {
    if c == [] {
      assert c + Zeros(n) == Zeros(n);
      EvalZeros(n, x);
    } else {
      assert (c + Zeros(n))[1..] == c[1..] + Zeros(n);
      EvalPad(c[1..], n, x);
    }
  }

  lemma EvalMulLinear(c: Poly, a: int, x: int)
    ensures Eval(MulLinear(c, a), x) == Eval(c, x) * (x - a)
  {
    assert ([0] + c)[1..] == c;
    assert c + [0] == c + Zeros(1);
    EvalPad(c, 1, x);
    EvalAddScaled([0] + c, -a, c + [0], x);
    assert x * Eval(c, x) + -a * Eval(c, x) == Eval(c, x) * (x - a);
  }

  // ----- Lagrange interpolation -----

  datatype Point = Point(x: int, y: int)

  /** The product of (x - pts[m].x) over m < n, leaving out m == i. */
  function ProdSkip(pts: seq<Point>, i: int, n: nat, x: int): int
    requires n <= |pts|
  {
    if n == 0 then 1
    else if n - 1 == i then ProdSkip(pts, i, n - 1, x)
    else ProdSkip(pts, i, n - 1, x) * (x - pts[n - 1].x)
  }

  /** The same product as a polynomial in x. */
  function NodePoly(pts: seq<Point>, i: int, n: nat): (c: Poly)
    requires n <= |pts|
    ensures |c| == (if 0 <= i < n then n else n + 1)
    ensures c[|c| - 1] == 1
  {
    if n == 0 then [1]
    else if n - 1 == i then NodePoly(pts, i, n - 1)
    else MulLinear(NodePoly(pts, i, n - 1), pts[n - 1].x)
  }

  lemma NodeStep(pts: seq<Point>, i: int, n: nat, x: int)
    requires 0 < n <= |pts| && n - 1 != i
    ensures NodePoly(pts, i, n) == MulLinear(NodePoly(pts, i, n - 1), pts[n - 1].x)
    ensures ProdSkip(pts, i, n, x) == ProdSkip(pts, i, n - 1, x) * (x - pts[n - 1].x)
  {
  }

  lemma {:induction false} EvalNodePoly(pts: seq<Point>, i: int, n: nat, x: int)
    requires n <= |pts|
    ensures Eval(NodePoly(pts, i, n), x) == ProdSkip(pts, i, n, x)
  {
    if n > 0 {
      EvalNodePoly(pts, i, n - 1, x);
      if n - 1 != i {
        EvalMulLinear(NodePoly(pts, i, n - 1), pts[n - 1].x, x);
        NodeStep(pts, i, n, x);
      }
    }
  }

  /** The weight of each point: y_i divided by the product of (x_i - x_j). */
  ghost function Weights(pts: seq<Point>, p: int): (ws: seq<int>)
    requires Prime(p)
    ensures |ws| == |pts|
    ensures forall i :: 0 <= i < |pts| ==> ws[i] == pts[i].y * Inv(ProdSkip(pts, i, |pts|, pts[i].x), p)
  {
    seq(|pts|, i requires 0 <= i < |pts| => pts[i].y * Inv(ProdSkip(pts, i, |pts|, pts[i].x), p))
  }

  /** The weighted sum of the first n products, evaluated at x. */
  ghost function LagrangeSum(pts: seq<Point>, ws: seq<int>, n: nat, x: int): int
    requires n <= |pts| == |ws|
  {
    if n == 0 then 0 else LagrangeSum(pts, ws, n - 1, x) + ws[n - 1] * ProdSkip(pts, n - 1, |pts|, x)
  }

  /** The value at x of the Lagrange interpolant of all points. */
  ghost function LagrangeAt(pts: seq<Point>, x: int, p: int): int
    requires Prime(p)
  {
    LagrangeSum(pts, Weights(pts, p), |pts|, x)
  }

  /** The same sum as a polynomial in x. */
  ghost function WeightedPoly(pts: seq<Point>, ws: seq<int>, n: nat): (c: Poly)
    requires n <= |pts| == |ws|
    ensures |c| == |pts|
  {
    if n == 0 then Zeros(|pts|)
    else AddScaled(WeightedPoly(pts, ws, n - 1), ws[n - 1], NodePoly(pts, n - 1, |pts|))
  }

  ghost function Interpolant(pts: seq<Point>, p: int): (c: Poly)
    requires Prime(p)
    ensures |c| == |pts|
  {
    WeightedPoly(pts, Weights(pts, p), |pts|)
  }

  function Abscissae(pts: seq<Point>): (xs: seq<int>)
    ensures |xs| == |pts| && forall i :: 0 <= i < |pts| ==> xs[i] == pts[i].x
  {
    seq(|pts|, i requires 0 <= i < |pts| => pts[i].x)
  }

  predicate DistinctPoints(pts: seq<Point>, p: int) {
    DistinctMod(Abscissae(pts), p)
  }

  predicate Passes(c: Poly, pt: Point, p: int) {
    Cong(Eval(c, pt.x), pt.y, p)
  }

  predicate Through(c: Poly, pts: seq<Point>, p: int) {
    forall i :: 0 <= i < |pts| ==> Passes(c, pts[i], p)
  }

  lemma {:induction false} EvalWeightedPoly(pts: seq<Point>, ws: seq<int>, n: nat, x: int)
    requires n <= |pts| == |ws|
    ensures Eval(WeightedPoly(pts, ws, n), x) == LagrangeSum(pts, ws, n, x)
  {
    if n == 0 {
      EvalZeros(|pts|, x);
    } else {
      EvalWeightedPoly(pts, ws, n - 1, x);
      EvalNodePoly(pts, n - 1, |pts|, x);
      EvalAddScaledTo(WeightedPoly(pts, ws, n - 1), ws[n - 1], NodePoly(pts, n - 1, |pts|), x,
                      LagrangeSum(pts, ws, n - 1, x), ProdSkip(pts, n - 1, |pts|, x));
    }
  }

  lemma {:induction false} ProdHasZero(pts: seq<Point>, i: int, n: nat, m: nat)
    requires m < n <= |pts| && m != i
    ensures ProdSkip(pts, i, n, pts[m].x) == 0
  {
    if n - 1 != m {
      ProdHasZero(pts, i, n - 1, m);
    }
  }

  /** x misses every point below n other than point i. */
  predicate Misses(pts: seq<Point>, i: int, n: nat, x: int, p: int)
    requires n <= |pts|
  {
    forall m :: 0 <= m < n && m != i ==> !Cong(x, pts[m].x, p)
  }

  lemma {:induction false} ProdNonzero(pts: seq<Point>, i: int, n: nat, x: int, p: int)
    requires Prime(p) && n <= |pts| && Misses(pts, i, n, x, p)
    ensures !Cong(ProdSkip(pts, i, n, x), 0, p)
  {
    if n == 0 {
      ModSmall(1, p);
    } else {
      ProdNonzero(pts, i, n - 1, x, p);
      if n - 1 != i && Cong(ProdSkip(pts, i, n, x), 0, p) {
        NoZeroDivisors(ProdSkip(pts, i, n - 1, x), x - pts[n - 1].x, p);
      }
    }
  }

  lemma DistinctMisses(pts: seq<Point>, i: nat, p: int)
    requires p > 0 && i < |pts| && DistinctPoints(pts, p)
    ensures Misses(pts, i, |pts|, pts[i].x, p)
  {
    var xs := Abscissae(pts);
    forall m | 0 <= m < |pts| && m != i ensures !Cong(xs[i], xs[m], p) {
      if Cong(xs[i], xs[m], p) {
        CongSym(xs[i], xs[m], p);
      }
    }
  }

  /** Term i contributes y_i at its own point and nothing at the others. */
  lemma OwnTerm(pts: seq<Point>, i: nat, m: nat, p: int)
    requires Prime(p) && i < |pts| && m < |pts| && DistinctPoints(pts, p)
    ensures Cong(Weights(pts, p)[i] * ProdSkip(pts, i, |pts|, pts[m].x), if i == m then pts[m].y else 0, p)
  {
    if i != m {
      ProdHasZero(pts, i, |pts|, m);
      CongRefl(0, p);
      assert Weights(pts, p)[i] * 0 == 0;
    } else {
      var d, y := ProdSkip(pts, m, |pts|, pts[m].x), pts[m].y;
      DistinctMisses(pts, m, p);
      ProdNonzero(pts, m, |pts|, pts[m].x, p);
      CongUnit(d * Inv(d, p), y, p);
      MulRotate(y, Inv(d, p), d);
    }
  }

  lemma MulRotate(y: int, i: int, d: int)
    ensures (y * i) * d == (d * i) * y
  {
  }

  ghost predicate TermsAt(pts: seq<Point>, ws: seq<int>, m: nat, p: int)
    requires |ws| == |pts| && m < |pts|
  {
    forall i :: 0 <= i < |ws| ==> Cong(ws[i] * ProdSkip(pts, i, |pts|, pts[m].x), if i == m then pts[m].y else 0, p)
  }

  /** At point m the sum is 0 until term m is added, and y_m after. */
  lemma {:induction false} SumAtPoint(pts: seq<Point>, ws: seq<int>, n: nat, m: nat, p: int)
    requires p > 0 && n <= |pts| == |ws| && m < |pts| && TermsAt(pts, ws, m, p)
    ensures Cong(LagrangeSum(pts, ws, n, pts[m].x), if m < n then pts[m].y else 0, p)
  {
    if n == 0 {
      CongRefl(0, p);
    } else {
      SumAtPoint(pts, ws, n - 1, m, p);
      CongAdd(LagrangeSum(pts, ws, n - 1, pts[m].x), if m < n - 1 then pts[m].y else 0,
              ws[n - 1] * ProdSkip(pts, n - 1, |pts|, pts[m].x), if n - 1 == m then pts[m].y else 0, p);
    }
  }

  lemma InterpolantThrough(pts: seq<Point>, p: int)
    requires Prime(p) && DistinctPoints(pts, p)
    ensures Through(Interpolant(pts, p), pts, p)
  {
    var ws := Weights(pts, p);
    forall m | 0 <= m < |pts| ensures Passes(Interpolant(pts, p), pts[m], p) {
      EvalWeightedPoly(pts, ws, |pts|, pts[m].x);
      forall i | 0 <= i < |ws|
        ensures Cong(ws[i] * ProdSkip(pts, i, |pts|, pts[m].x), if i == m then pts[m].y else 0, p)
      {
        OwnTerm(pts, i, m, p);
      }
      SumAtPoint(pts, ws, |pts|, m, p);
    }
  }

  /** Two polynomials through the same points, no longer than the number of
      points, have congruent coefficients. */
  lemma InterpolationUnique(c: Poly, d: Poly, pts: seq<Point>, p: int)
    requires Prime(p) && DistinctPoints(pts, p) && |c| == |d| <= |pts|
    requires Through(c, pts, p) && Through(d, pts, p)
    ensures ZeroMod(AddScaled(c, -1, d), p)
  {
    var e, xs := AddScaled(c, -1, d), Abscissae(pts);
    forall i | 0 <= i < |xs| ensures Cong(Eval(e, xs[i]), 0, p) {
      EvalAddScaled(c, -1, d, xs[i]);
      assert Passes(c, pts[i], p) && Passes(d, pts[i], p);
      CongSym(Eval(d, xs[i]), pts[i].y, p);
      CongTrans(Eval(c, xs[i]), pts[i].y, Eval(d, xs[i]), p);
    }
    RootCount(e, xs, p);
  }

  lemma PadThrough(c: Poly, n: nat, pts: seq<Point>, p: int)
    requires Through(c, pts, p)
    ensures Through(c + Zeros(n), pts, p)
  {
    forall i | 0 <= i < |pts| ensures Passes(c + Zeros(n), pts[i], p) {
      EvalPad(c, n, pts[i].x);
      assert Passes(c, pts[i], p);
    }
  }

  lemma EvalCong(c: Poly, d: Poly, x: int, p: int)
    requires p > 0 && |c| == |d| && ZeroMod(AddScaled(c, -1, d), p)
    ensures Cong(Eval(c, x), Eval(d, x), p)
  {
    EvalZeroMod(AddScaled(c, -1, d), x, p);
    EvalAddScaled(c, -1, d, x);
  }

  /** Lagrange evaluation is exact on every polynomial with at most as many
      coefficients as there are points. */
  lemma LagrangeExact(c: Poly, pts: seq<Point>, x: int, p: int)
    requires Prime(p) && DistinctPoints(pts, p) && |c| <= |pts| && Through(c, pts, p)
    ensures Cong(Eval(c, x), LagrangeAt(pts, x, p), p)
  {
    var n := |pts| - |c|;
    PadThrough(c, n, pts, p);
    InterpolantThrough(pts, p);
    InterpolationUnique(c + Zeros(n), Interpolant(pts, p), pts, p);
    EvalCong(c + Zeros(n), Interpolant(pts, p), x, p);
    EvalPad(c, n, x);
    EvalWeightedPoly(pts, Weights(pts, p), |pts|, x);
  }
}
