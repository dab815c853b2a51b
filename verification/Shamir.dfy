/** Shamir sharing, packages/mpc-crypto/src/shamir.ts: splitting a secret by
    Horner evaluation and reconstructing it by Lagrange interpolation at 0.
    A share is a point (x, y) of the sharing polynomial. The random field
    elements drawn by the splitter are a parameter. */
module Shamir {
  import opened Wrappers
  import opened Field
  import opened Polynomial

  // ----- splitting -----

  /** The sharing polynomial: the secret, then the random coefficients. */
  function Coefficients(secret: int, rand: seq<int>, p: int): Poly
    requires p > 0
  {
    [secret % p] + rand
  }

  /** Share i is the value of the polynomial at i + 1. */
  function SharesOf(c: Poly, total: nat, p: int): (shares: seq<Point>)
    requires p > 0
    ensures |shares| == total
  {
    seq(total, i requires 0 <= i < total => Point(i + 1, Eval(c, i + 1) % p))
  }

  lemma SharesSnoc(c: Poly, i: nat, y: int, p: int)
    requires p > 0 && y == Eval(c[0..], i + 1) % p
    ensures SharesOf(c, i + 1, p) == SharesOf(c, i, p) + [Point(i + 1, y)]
  {
    assert c[0..] == c;
  }

  lemma HornerStep(y: int, e: int, x: int, k: int, p: int)
    requires p > 0 && y == e % p
    ensures (y * x + k) % p == (k + x * e) % p
  {
    CongMod(e, p);
    CongRefl(x, p);
    CongRefl(k, p);
    CongMul(y, e, x, x, p);
    CongAdd(y * x, e * x, k, k, p);
    CongIsMod(y * x + k, e * x + k, p);
  }

  /** One turn of the evaluation loop. */
  lemma HornerAt(c: Poly, j: nat, y: int, x: int, p: int)
    requires p > 0 && j < |c| && y == Eval(c[j + 1..], x) % p
    ensures Modp(y * x + c[j], p) == Eval(c[j..], x) % p
  {
    HornerStep(y, Eval(c[j + 1..], x), x, c[j], p);
    assert c[j..][1..] == c[j + 1..];
  }

  function Power(x: int, k: nat): int {
    if k == 0 then 1 else x * Power(x, k - 1)
  }

  /** c[0] * x^k + c[1] * x^(k+1) + ... */
  function PowerSum(c: seq<int>, x: int, k: nat): int
    decreases |c|
  {
    if c == [] then 0 else c[0] * Power(x, k) + PowerSum(c[1..], x, k + 1)
  }

  lemma PowerStep(c0: int, e: int, x: int, w: int)
    ensures w * (c0 + x * e) == c0 * w + (x * w) * e
  {
    assert w * (x * e) == (x * w) * e;
  }

  lemma {:induction false} EvalIsPowerSum(c: Poly, x: int, k: nat)
    ensures Power(x, k) * Eval(c, x) == PowerSum(c, x, k)
    decreases |c|
  {
    if c != [] {
      EvalIsPowerSum(c[1..], x, k + 1);
      PowerStep(c[0], Eval(c[1..], x), x, Power(x, k));
    }
  }

  /** Share i of a secret and its random coefficients: at i + 1 the secret plus
      rand[0] * (i+1) + rand[1] * (i+1)^2 + ..., reduced mod p. */
  ghost predicate IsShare(share: Point, i: nat, secret: int, rand: seq<int>, p: int) {
    share.x == i + 1 && 0 <= share.y < p && Cong(share.y, secret + PowerSum(rand, i + 1, 1), p)
  }

  lemma ShareIs(secret: int, rand: seq<int>, total: nat, i: nat, p: int)
    requires p > 0 && i < total
    ensures IsShare(SharesOf(Coefficients(secret, rand, p), total, p)[i], i, secret, rand, p)
  {
    var c, x := Coefficients(secret, rand, p), i + 1;
    assert c[1..] == rand;
    EvalIsPowerSum(rand, x, 1);
    assert Power(x, 0) == 1 && Power(x, 1) == x;
    CongMod(Eval(c, x), p);
    CongMod(secret, p);
    CongRefl(PowerSum(rand, x, 1), p);
    CongAdd(secret % p, secret, PowerSum(rand, x, 1), PowerSum(rand, x, 1), p);
    CongTrans(Eval(c, x) % p, Eval(c, x), secret + PowerSum(rand, x, 1), p);
  }

  lemma SharesAre(secret: int, rand: seq<int>, total: nat, p: int)
    requires p > 0
    ensures forall i :: 0 <= i < total ==> IsShare(SharesOf(Coefficients(secret, rand, p), total, p)[i], i, secret, rand, p)
  {
    forall i | 0 <= i < total ensures IsShare(SharesOf(Coefficients(secret, rand, p), total, p)[i], i, secret, rand, p) {
      ShareIs(secret, rand, total, i, p);
    }
  }

  method ShamirSplit(secret: int, threshold: int, total: int, rand: seq<int>, p: int)
    returns (r: Result<seq<Point>>)
    requires p > 0
    requires 2 <= threshold <= total ==> |rand| == threshold - 1
    ensures r.Success? <==> 2 <= threshold <= total
    ensures r.Success? ==> r.value == SharesOf(Coefficients(secret, rand, p), total, p)
    ensures r.Success? ==> |r.value| == total && forall i :: 0 <= i < total ==> IsShare(r.value[i], i, secret, rand, p)
  {
    if threshold < 2 || threshold > total {
      return Failure("invalid threshold");
    }
    SharesAre(secret, rand, total, p);
    var coeffs := [Modp(secret, p)];
    for i := 1 to threshold
      invariant coeffs == Coefficients(secret, rand[..i - 1], p)
    {
      coeffs := coeffs + [rand[i - 1]];
    }
    assert rand[..threshold - 1] == rand;
    var shares: seq<Point> := [];
    for i := 0 to total
      invariant shares == SharesOf(coeffs, i, p)
    {
      var x := i + 1;
      var y := 0;
      for j := |coeffs| downto 0
        invariant y == Eval(coeffs[j..], x) % p
      {
        HornerAt(coeffs, j, y, x, p);
        y := Modp(y * x + coeffs[j], p);
      }
      SharesSnoc(coeffs, i, y, p);
      shares := shares + [Point(x, y)];
    }
    return Success(shares);
  }

  // ----- reconstruction -----

  lemma InvCong(a: int, b: int, p: int)
    requires Prime(p) && Cong(a, b, p)
    ensures Inv(a, p) == Inv(b, p)
  {
    CongIsMod(a, b, p);
    if a % p != 0 {
      var x := Inv(a, p);
      CongRefl(x, p);
      CongSym(a, b, p);
      CongMul(b, a, x, x, p);
      CongTrans(b * x, a * x, 1, p);
      InverseUnique(x, Inv(b, p), b, p);
    }
  }

  lemma ProductStep(acc: int, e: int, f: int, g: int, p: int)
    requires Cong(acc, e, p) && Cong(f, g, p)
    ensures Cong((acc * f) % p, e * g, p)
  {
    CongMul(acc, e, f, g, p);
    CongMod(acc * f, p);
    CongTrans((acc * f) % p, acc * f, e * g, p);
  }

  lemma TermStep(acc: int, e: int, y: int, num: int, n: int, inv: int, p: int)
    requires p > 0 && acc == e % p && Cong(num, n, p)
    ensures (acc + (y * ((num * inv) % p)) % p) % p == (e + (y * inv) * n) % p
  {
    CongRefl(inv, p);
    ProductStep(num, n, inv, inv, p);
    CongRefl(y, p);
    ProductStep(y, y, (num * inv) % p, n * inv, p);
    assert y * (n * inv) == (y * inv) * n;
    CongMod(e, p);
    CongAdd(acc, e, (y * ((num * inv) % p)) % p, (y * inv) * n, p);
    CongIsMod(acc + (y * ((num * inv) % p)) % p, e + (y * inv) * n, p);
  }

  function Product(fs: seq<int>): int {
    if fs == [] then 1 else Product(fs[..|fs| - 1]) * fs[|fs| - 1]
  }

  function SumOf(ts: seq<int>): int {
    if ts == [] then 0 else SumOf(ts[..|ts| - 1]) + ts[|ts| - 1]
  }

  /** The product of x - x_j over the shares. */
  function Distances(shares: seq<Point>, x: int): (fs: seq<int>)
    ensures |fs| == |shares| && forall j :: 0 <= j < |shares| ==> fs[j] == x - shares[j].x
  {
    seq(|shares|, j requires 0 <= j < |shares| => x - shares[j].x)
  }

  function Others(shares: seq<Point>, i: nat): seq<Point>
    requires i < |shares|
  {
    shares[..i] + shares[i + 1..]
  }

  /** What share i contributes: its y times the product of -x_j over the others,
      divided by the product of x_i - x_j; nothing when that is 0. */
  ghost predicate IsTerm(t: int, shares: seq<Point>, i: nat, p: int)
    requires i < |shares|
  {
    var rest := Others(shares, i);
    var num, den := Product(Distances(rest, 0)), Product(Distances(rest, shares[i].x));
    if Cong(den, 0, p) then Cong(t, 0, p) else Cong(t * den, shares[i].y * num, p)
  }

  lemma ProductSnoc(fs: seq<int>, f: int)
    ensures Product(fs + [f]) == Product(fs) * f
  {
    assert (fs + [f])[..|fs|] == fs;
  }

  /** The first n shares without share i. */
  function Skipped(shares: seq<Point>, i: nat, n: nat): seq<Point>
    requires i < |shares| && n <= |shares|
  {
    if i < n then shares[..i] + shares[i + 1..n] else shares[..n]
  }

  lemma SkippedSnoc(shares: seq<Point>, i: nat, n: nat)
    requires i < |shares| && 0 < n <= |shares|
    ensures Skipped(shares, i, n) == if n - 1 == i then Skipped(shares, i, n - 1) else Skipped(shares, i, n - 1) + [shares[n - 1]]
  {
  }

  lemma DistancesSnoc(shares: seq<Point>, s: Point, x: int)
    ensures Distances(shares + [s], x) == Distances(shares, x) + [x - s.x]
  {
  }

  lemma ProductMore(shares: seq<Point>, s: Point, x: int)
    ensures Product(Distances(shares + [s], x)) == Product(Distances(shares, x)) * (x - s.x)
  {
    DistancesSnoc(shares, s, x);
    ProductSnoc(Distances(shares, x), x - s.x);
  }

  /** The product that skips position i, of a prefix. */
  lemma {:induction false} SkipIsProduct(shares: seq<Point>, i: nat, n: nat, x: int)
    requires i < |shares| && n <= |shares|
    ensures ProdSkip(shares, i, n, x) == Product(Distances(Skipped(shares, i, n), x))
  {
    if n > 0 {
      SkipIsProduct(shares, i, n - 1, x);
      SkipMore(shares, i, n, x);
      if n - 1 != i {
        assert ProdSkip(shares, i, n, x) == ProdSkip(shares, i, n - 1, x) * (x - shares[n - 1].x);
      }
    }
  }

  lemma SkipMore(shares: seq<Point>, i: nat, n: nat, x: int)
    requires i < |shares| && 0 < n <= |shares|
    ensures Product(Distances(Skipped(shares, i, n), x))
         == Product(Distances(Skipped(shares, i, n - 1), x)) * (if n - 1 == i then 1 else x - shares[n - 1].x)
  {
    SkippedSnoc(shares, i, n);
    if n - 1 != i {
      ProductMore(Skipped(shares, i, n - 1), shares[n - 1], x);
    }
  }

  lemma WeightIsTerm(shares: seq<Point>, i: nat, p: int)
    requires Prime(p) && i < |shares|
    ensures IsTerm(Weights(shares, p)[i] * ProdSkip(shares, i, |shares|, 0), shares, i, p)
  {
    var n, y := |shares|, shares[i].y;
    SkipIsProduct(shares, i, n, 0);
    SkipIsProduct(shares, i, n, shares[i].x);
    assert Others(shares, i) == Skipped(shares, i, n);
    TermIs(y, ProdSkip(shares, i, n, 0), ProdSkip(shares, i, n, shares[i].x), p);
  }

  lemma TermIs(y: int, num: int, den: int, p: int)
    requires Prime(p)
    ensures var t := (y * Inv(den, p)) * num;
      if Cong(den, 0, p) then Cong(t, 0, p) else Cong(t * den, y * num, p)
  {
    CongZero(den, p);
    var inv := Inv(den, p);
    if Cong(den, 0, p) {
      CongRefl(0, p);
    } else {
      CongRefl(y * num, p);
      CongMul(den * inv, 1, y * num, y * num, p);
      assert (den * inv) * (y * num) == ((y * inv) * num) * den;
    }
  }

  /** All terms, in order. */
  ghost function Terms(shares: seq<Point>, p: int): (ts: seq<int>)
    requires Prime(p)
    ensures |ts| == |shares|
  {
    seq(|shares|, i requires 0 <= i < |shares| => Weights(shares, p)[i] * ProdSkip(shares, i, |shares|, 0))
  }

  lemma {:induction false} SumOfTerms(shares: seq<Point>, p: int, n: nat)
    requires Prime(p) && n <= |shares|
    ensures LagrangeSum(shares, Weights(shares, p), n, 0) == SumOf(Terms(shares, p)[..n])
  {
    if n > 0 {
      SumOfTerms(shares, p, n - 1);
      assert Terms(shares, p)[..n][..n - 1] == Terms(shares, p)[..n - 1];
    }
  }

  /** The secret is the residue of the terms' sum. */
  ghost predicate SumsTerms(secret: int, ts: seq<int>, shares: seq<Point>, p: int) {
    && |ts| == |shares| && 0 <= secret < p && Cong(secret, SumOf(ts), p)
    && forall i :: 0 <= i < |ts| ==> IsTerm(ts[i], shares, i, p)
  }

  lemma LagrangeIsSum(shares: seq<Point>, p: int)
    requires Prime(p)
    ensures SumsTerms(LagrangeAt(shares, 0, p) % p, Terms(shares, p), shares, p)
  {
    SumOfTerms(shares, p, |shares|);
    assert Terms(shares, p)[..|shares|] == Terms(shares, p);
    CongMod(LagrangeAt(shares, 0, p), p);
    forall i | 0 <= i < |shares| ensures IsTerm(Terms(shares, p)[i], shares, i, p) {
      WeightIsTerm(shares, i, p);
    }
  }

  /** `shamirReconstruct`, on every list of shares: duplicated abscissae make
      the denominator 0, whose inverse is 0. */
  method ShamirReconstruct(shares: seq<Point>, p: int) returns (secret: int)
    requires Prime(p)
    ensures secret == LagrangeAt(shares, 0, p) % p
  {
    secret := 0;
    ghost var ws := Weights(shares, p);
    ModSmall(0, p);
    for i := 0 to |shares|
      invariant secret == LagrangeSum(shares, ws, i, 0) % p
    {
      var num, den := 1, 1;
      CongRefl(1, p);
      for j := 0 to |shares|
        invariant Cong(num, ProdSkip(shares, i, j, 0), p)
        invariant Cong(den, ProdSkip(shares, i, j, shares[i].x), p)
      {
        if i != j {
          CongMod(-shares[j].x, p);
          ProductStep(num, ProdSkip(shares, i, j, 0), Modp(-shares[j].x, p), 0 - shares[j].x, p);
          num := Modp(num * Modp(-shares[j].x, p), p);
          CongRefl(shares[i].x - shares[j].x, p);
          ProductStep(den, ProdSkip(shares, i, j, shares[i].x),
                      shares[i].x - shares[j].x, shares[i].x - shares[j].x, p);
          den := Modp(den * (shares[i].x - shares[j].x), p);
        }
      }
      InvCong(den, ProdSkip(shares, i, |shares|, shares[i].x), p);
      TermStep(secret, LagrangeSum(shares, ws, i, 0), shares[i].y, num,
               ProdSkip(shares, i, |shares|, 0), Inv(den, p), p);
      var inv := ModInv(den, p);
      secret := Modp(secret + Modp(shares[i].y * Modp(num * inv, p), p), p);
    }
  }

  // ----- any t shares, in any order, give the secret back -----

  predicate DistinctBelow(picks: seq<nat>, n: nat) {
    && (forall i :: 0 <= i < |picks| ==> picks[i] < n)
    && (forall i, j :: 0 <= i < j < |picks| ==> picks[i] != picks[j])
  }

  function Pick(shares: seq<Point>, picks: seq<nat>): (sub: seq<Point>)
    requires forall i :: 0 <= i < |picks| ==> picks[i] < |shares|
    ensures |sub| == |picks| && forall i :: 0 <= i < |picks| ==> sub[i] == shares[picks[i]]
  {
    seq(|picks|, i requires 0 <= i < |picks| => shares[picks[i]])
  }

  lemma PickedPoints(c: Poly, total: nat, picks: seq<nat>, p: int)
    requires p > total && DistinctBelow(picks, total)
    ensures DistinctPoints(Pick(SharesOf(c, total, p), picks), p)
    ensures Through(c, Pick(SharesOf(c, total, p), picks), p)
  {
    var sub := Pick(SharesOf(c, total, p), picks);
    var xs := Abscissae(sub);
    forall i, j | 0 <= i < j < |xs| ensures !Cong(xs[i], xs[j], p) {
      CongIsMod(xs[i], xs[j], p);
      ModSmall(xs[i], p);
      ModSmall(xs[j], p);
    }
    forall i | 0 <= i < |sub| ensures Passes(c, sub[i], p) {
      CongMod(Eval(c, sub[i].x), p);
      CongSym(sub[i].y, Eval(c, sub[i].x), p);
    }
  }

  /** Round trip: any list of at least t distinct shares of a t-coefficient
      sharing reconstructs exactly the secret modulo p. */
  lemma SplitReconstruct(secret: int, rand: seq<int>, total: nat, picks: seq<nat>, p: int)
    requires Prime(p) && total < p && DistinctBelow(picks, total) && |picks| >= |rand| + 1
    ensures LagrangeAt(Pick(SharesOf(Coefficients(secret, rand, p), total, p), picks), 0, p) % p == secret % p
  {
    var c := Coefficients(secret, rand, p);
    var sub := Pick(SharesOf(c, total, p), picks);
    PickedPoints(c, total, picks, p);
    LagrangeExact(c, sub, 0, p);
    assert Eval(c, 0) == secret % p;
    CongIsMod(Eval(c, 0), LagrangeAt(sub, 0, p), p);
    CongMod(secret, p);
    ModSmall(secret % p, p);
  }

  // ----- one share too few -----

  lemma EvalSnoc(c: Poly, x: int)
    ensures Eval(c + [0], x) == Eval(c, x)
  {
    assert c + [0] == c + Zeros(1);
    EvalPad(c, 1, x);
  }

  /** With exactly t - 1 shares the result is off by the top coefficient times
      a nonzero product, so it equals the secret precisely when the random top
      coefficient happens to be 0. */
  lemma SubThreshold(c: Poly, pts: seq<Point>, p: int)
    requires Prime(p) && |c| == |pts| + 1 && |pts| >= 1
    requires DistinctPoints(pts, p) && Through(c, pts, p)
    requires forall i :: 0 <= i < |pts| ==> !Cong(0, pts[i].x, p)
    ensures LagrangeAt(pts, 0, p) % p == c[0] % p <==> c[|c| - 1] % p == 0
  {
    var k, top := |pts|, c[|c| - 1];
    var low := Lowered(c, pts);
    forall i | 0 <= i < k ensures Passes(low, pts[i], p) {
      EvalLowered(c, pts, pts[i].x);
      ProdHasZero(pts, -1, k, i);
      assert Passes(c, pts[i], p);
    }
    LagrangeExact(low, pts, 0, p);
    EvalLowered(c, pts, 0);
    ProdNonzero(pts, -1, k, 0, p);
    OffBy(c[0], top, ProdSkip(pts, -1, k, 0), LagrangeAt(pts, 0, p), p);
  }

  /** c less its top coefficient times the product of all (x - x_i), which has one
      coefficient less. */
  function Lowered(c: Poly, pts: seq<Point>): (low: Poly)
    requires |c| == |pts| + 1
    ensures |low| == |pts|
  {
    AddScaled(c, -c[|c| - 1], NodePoly(pts, -1, |pts|))[..|pts|]
  }

  lemma EvalLowered(c: Poly, pts: seq<Point>, x: int)
    requires |c| == |pts| + 1
    ensures Eval(Lowered(c, pts), x) == Eval(c, x) + -c[|c| - 1] * ProdSkip(pts, -1, |pts|, x)
  {
    var k, top := |pts|, c[|c| - 1];
    var node := NodePoly(pts, -1, k);
    var f := AddScaled(c, -top, node);
    assert f[k] == top + -top * 1 == 0;
    assert f == Lowered(c, pts) + [0];
    EvalSnoc(Lowered(c, pts), x);
    EvalAddScaled(c, -top, node, x);
    EvalNodePoly(pts, -1, k, x);
  }

  lemma OffBy(s: int, top: int, prod: int, l: int, p: int)
    requires Prime(p) && Cong(s + -top * prod, l, p) && !Cong(prod, 0, p)
    ensures l % p == s % p <==> top % p == 0
  {
    CongIsMod(l, s, p);
    CongRefl(prod, p);
    if top % p == 0 {
      CongMul(top, 0, prod, prod, p);
      CongSym(s + -top * prod, l, p);
      CongRefl(s, p);
      CongCancel(s, top * prod, p);
      CongTrans(l, s + -top * prod, s, p);
    }
    if Cong(l, s, p) {
      CongTrans(s + -top * prod, l, s, p);
      var k := CongElim(s + -top * prod, s, p);
      CongIntro(top * prod, 0, -k, p);
      NoZeroDivisors(top, prod, p);
    }
  }

  lemma CongCancel(s: int, e: int, p: int)
    requires Cong(e, 0, p)
    ensures Cong(s - e, s, p)
  {
    var k := CongElim(e, 0, p);
    CongIntro(s - e, s, -k, p);
  }

  /** Two shares of a 3-of-5 sharing whose top coefficient is 0 do give the
      secret. */
  lemma SubThresholdWitness(p: int)
    requires Prime(p) && p > 5
    ensures var c := Coefficients(999999999999, [1, 0], p);
      LagrangeAt(Pick(SharesOf(c, 5, p), [0, 1]), 0, p) % p == 999999999999 % p
  {
    var c := Coefficients(999999999999, [1, 0], p);
    var pts := Pick(SharesOf(c, 5, p), [0, 1]);
    PickedPoints(c, 5, [0, 1], p);
    forall i | 0 <= i < |pts| ensures !Cong(0, pts[i].x, p) {
      CongIsMod(0, pts[i].x, p);
      ModSmall(pts[i].x, p);
      ModSmall(0, p);
    }
    SubThreshold(c, pts, p);
    ModSmall(0, p);
    CongMod(999999999999, p);
    ModSmall(999999999999 % p, p);
  }
}
