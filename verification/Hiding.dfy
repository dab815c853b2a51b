/** Perfect hiding of Shamir shares: what fewer than t shares say about the
    secret of packages/mpc-crypto/src/shamir.ts. */
module Hiding {
  import opened Field
  import opened Polynomial
  import opened Finite

  predicate InField(c: Poly, p: int) {
    forall i :: 0 <= i < |c| ==> 0 <= c[i] < p
  }

  /** All coefficient vectors of length n over the field. */
  ghost function Vectors(n: nat, p: int): set<Poly>
    requires p > 0
  {
    if n == 0 then {[]} else set v, a | v in Vectors(n - 1, p) && 0 <= a < p :: v + [a]
  }

  lemma {:induction false} VectorsMembers(n: nat, p: int, c: Poly)
    requires p > 0
    ensures c in Vectors(n, p) <==> |c| == n && InField(c, p)
  {
    if n > 0 {
      if |c| == n && InField(c, p) {
        VectorsMembers(n - 1, p, c[..n - 1]);
        assert c == c[..n - 1] + [c[n - 1]];
      }
      if c in Vectors(n, p) {
        var v, a :| v in Vectors(n - 1, p) && 0 <= a < p && c == v + [a];
        VectorsMembers(n - 1, p, v);
      }
    }
  }

  /** The sharing polynomials with t coefficients that carry `secret` and
      produce the given shares. */
  ghost function Consistent(pts: seq<Point>, secret: int, t: nat, p: int): set<Poly>
    requires p > 0 && t >= 1
  {
    set c | c in Vectors(t, p) && IsSharing(c, pts, secret, t, p)
  }

  predicate IsSharing(c: Poly, pts: seq<Point>, secret: int, t: nat, p: int)
    requires p > 0
  {
    |c| == t && InField(c, p) && t >= 1 && c[0] == secret % p && Through(c, pts, p)
  }

  lemma ConsistentMembers(pts: seq<Point>, secret: int, t: nat, p: int, c: Poly)
    requires p > 0 && t >= 1
    ensures c in Consistent(pts, secret, t, p) <==> IsSharing(c, pts, secret, t, p)
  {
    VectorsMembers(t, p, c);
  }

  /** Shares an adversary may see: distinct abscissae, none of them 0. */
  predicate ProperShares(pts: seq<Point>, p: int) {
    p > 0 && DistinctPoints([Point(0, 0)] + pts, p)
  }

  /** The points of a polynomial with the given value at 0 that vanishes at all
      shares. */
  ghost function Mask(pts: seq<Point>, at0: int): seq<Point> {
    [Point(0, at0)] + seq(|pts|, i requires 0 <= i < |pts| => Point(pts[i].x, 0))
  }

  /** c + d, coefficient by coefficient, modulo p. */
  ghost function Shift(c: Poly, d: Poly, p: int): Poly
    requires p > 0
  {
    seq(|c|, i requires 0 <= i < |c| => (c[i] + (if i < |d| then d[i] else 0)) % p)
  }

  /** c + d modulo p takes the value of c plus that of d. */
  lemma {:induction false} EvalShift(c: Poly, d: Poly, x: int, p: int)
    requires p > 0 && |d| <= |c|
    ensures Cong(Eval(Shift(c, d, p), x), Eval(c, x) + Eval(d, x), p)
  {
    if c == [] {
      CongRefl(0, p);
    } else {
      var d' := if d == [] then [] else d[1..];
      EvalShift(c[1..], d', x, p);
      var s := Shift(c, d, p);
      assert s[1..] == Shift(c[1..], d', p);
      var d0 := if d == [] then 0 else d[0];
      CongMod(c[0] + d0, p);
      CongRefl(x, p);
      var e := Eval(c[1..], x) + Eval(d', x);
      CongMul(x, x, Eval(s[1..], x), e, p);
      CongAdd(s[0], c[0] + d0, x * Eval(s[1..], x), x * e, p);
      assert x * e == x * Eval(c[1..], x) + x * Eval(d', x);
    }
  }

  lemma ShiftInjective(c: Poly, c': Poly, d: Poly, p: int)
    requires p > 0 && |c| == |c'| && InField(c, p) && InField(c', p)
    requires Shift(c, d, p) == Shift(c', d, p)
    ensures c == c'
  {
    forall i | 0 <= i < |c| ensures c[i] == c'[i] {
      var k := if i < |d| then d[i] else 0;
      assert Shift(c, d, p)[i] == Shift(c', d, p)[i];
      CongIsMod(c[i] + k, c'[i] + k, p);
      CongIsMod(c[i], c'[i], p);
      ModSmall(c[i], p);
      ModSmall(c'[i], p);
    }
  }

  lemma MaskDistinct(pts: seq<Point>, at0: int, p: int)
    requires ProperShares(pts, p)
    ensures DistinctPoints(Mask(pts, at0), p)
  {
    assert Abscissae(Mask(pts, at0)) == Abscissae([Point(0, 0)] + pts);
  }

  /** d has value s' - s at 0 and vanishes at all shares. */
  predicate IsMask(d: Poly, pts: seq<Point>, delta: int, p: int) {
    && 1 <= |d|
    && Cong(d[0], delta, p)
    && forall i :: 0 <= i < |pts| ==> Passes(d, Point(pts[i].x, 0), p)
  }

  lemma MaskExists(pts: seq<Point>, delta: int, p: int)
    requires Prime(p) && ProperShares(pts, p)
    ensures IsMask(Interpolant(Mask(pts, delta), p), pts, delta, p)
  {
    var mask := Mask(pts, delta);
    var d := Interpolant(mask, p);
    MaskDistinct(pts, delta, p);
    InterpolantThrough(mask, p);
    assert Passes(d, mask[0], p);
    assert Eval(d, 0) == d[0];
    forall i | 0 <= i < |pts| ensures Passes(d, Point(pts[i].x, 0), p) {
      assert Passes(d, mask[i + 1], p);
    }
  }

  /** A mask moves a sharing of s to a sharing of s' with the same shares. */
  lemma ShiftMoves(c: Poly, d: Poly, pts: seq<Point>, s: int, s': int, t: nat, p: int)
    requires p > 0 && |d| <= t && IsSharing(c, pts, s, t, p) && IsMask(d, pts, s' - s, p)
    ensures IsSharing(Shift(c, d, p), pts, s', t, p)
  {
    var r := Shift(c, d, p);
    assert r[0] == s' % p by {
      CongMod(s, p);
      CongAdd(c[0], s, d[0], s' - s, p);
      CongIsMod(c[0] + d[0], s', p);
    }
    forall i | 0 <= i < |c| ensures 0 <= r[i] < p {
      CongMod(c[i] + (if i < |d| then d[i] else 0), p);
    }
    forall i | 0 <= i < |pts| ensures Passes(r, pts[i], p) {
      EvalShift(c, d, pts[i].x, p);
      assert Passes(d, Point(pts[i].x, 0), p) && Passes(c, pts[i], p);
      CongAdd(Eval(c, pts[i].x), pts[i].y, Eval(d, pts[i].x), 0, p);
      CongTrans(Eval(r, pts[i].x), Eval(c, pts[i].x) + Eval(d, pts[i].x), pts[i].y, p);
    }
  }

  lemma AtMostAsMany(pts: seq<Point>, s: int, s': int, t: nat, p: int)
    requires Prime(p) && ProperShares(pts, p) && |pts| < t
    ensures |Consistent(pts, s, t, p)| <= |Consistent(pts, s', t, p)|
  {
    var d := Interpolant(Mask(pts, s' - s), p);
    MaskExists(pts, s' - s, p);
    var f := c => Shift(c, d, p);
    var a, b := Consistent(pts, s, t, p), Consistent(pts, s', t, p);
    forall c | c in a ensures f(c) in b {
      ConsistentMembers(pts, s, t, p, c);
      ShiftMoves(c, d, pts, s, s', t, p);
      ConsistentMembers(pts, s', t, p, f(c));
    }
    forall c, c' | c in a && c' in a && f(c) == f(c') ensures c == c' {
      ConsistentMembers(pts, s, t, p, c);
      ConsistentMembers(pts, s, t, p, c');
      ShiftInjective(c, c', d, p);
    }
    InjectionCard(a, b, f);
  }

  /** Perfect hiding: whatever fewer than t shares show, equally many sharings
      explain them for any two secrets. */
  lemma PerfectHiding(pts: seq<Point>, s: int, s': int, t: nat, p: int)
    requires Prime(p) && ProperShares(pts, p) && |pts| < t
    ensures |Consistent(pts, s, t, p)| == |Consistent(pts, s', t, p)|
  {
    AtMostAsMany(pts, s, s', t, p);
    AtMostAsMany(pts, s', s, t, p);
  }

  /** t - 1 shares and a candidate secret determine the polynomial: exactly one
      choice of the random coefficients produces them. */
  lemma UniqueCompletion(pts: seq<Point>, s: int, t: nat, p: int)
    requires Prime(p) && ProperShares(pts, p) && |pts| == t - 1
    ensures |Consistent(pts, s, t, p)| == 1
  {
    var all := [Point(0, s)] + pts;
    assert Abscissae(all) == Abscissae([Point(0, 0)] + pts);
    var f := Interpolant(all, p);
    InterpolantThrough(all, p);
    var c := Shift(Zeros(t), f, p);
    CompletionIsSharing(f, pts, s, t, p);
    ConsistentMembers(pts, s, t, p, c);
    forall c' | c' in Consistent(pts, s, t, p) ensures c' == c {
      ConsistentMembers(pts, s, t, p, c');
      SharingUnique(c, c', pts, s, t, p);
    }
    SingletonCard(Consistent(pts, s, t, p), c);
  }

  lemma CompletionIsSharing(f: Poly, pts: seq<Point>, s: int, t: nat, p: int)
    requires p > 0 && |f| == t >= 1 && Through(f, [Point(0, s)] + pts, p)
    ensures IsSharing(Shift(Zeros(t), f, p), pts, s, t, p)
  {
    var all := [Point(0, s)] + pts;
    var c := Shift(Zeros(t), f, p);
    forall i | 0 <= i < t ensures 0 <= c[i] < p {
      CongMod(f[i], p);
    }
    assert Passes(f, all[0], p);
    assert Eval(f, 0) == f[0];
    CongIsMod(f[0], s, p);
    forall i | 0 <= i < |pts| ensures Passes(c, pts[i], p) {
      assert Passes(f, all[i + 1], p);
      EvalShift(Zeros(t), f, pts[i].x, p);
      EvalZeros(t, pts[i].x);
      CongTrans(Eval(c, pts[i].x), Eval(f, pts[i].x), pts[i].y, p);
    }
  }

  lemma SharingUnique(c: Poly, c': Poly, pts: seq<Point>, s: int, t: nat, p: int)
    requires Prime(p) && ProperShares(pts, p) && |pts| == t - 1
    requires IsSharing(c, pts, s, t, p) && IsSharing(c', pts, s, t, p)
    ensures c == c'
  {
    var all := [Point(0, s)] + pts;
    assert Abscissae(all) == Abscissae([Point(0, 0)] + pts);
    SharingThrough(c, pts, s, t, p);
    SharingThrough(c', pts, s, t, p);
    InterpolationUnique(c, c', all, p);
    forall i | 0 <= i < t ensures c[i] == c'[i] {
      assert Cong(AddScaled(c, -1, c')[i], 0, p);
      CongIsMod(c[i], c'[i], p);
      ModSmall(c[i], p);
      ModSmall(c'[i], p);
    }
  }

  lemma SharingThrough(c: Poly, pts: seq<Point>, s: int, t: nat, p: int)
    requires p > 0 && IsSharing(c, pts, s, t, p)
    ensures Through(c, [Point(0, s)] + pts, p)
  {
    var all := [Point(0, s)] + pts;
    CongMod(s, p);
    assert Eval(c, 0) == c[0];
    assert Passes(c, all[0], p);
    forall i | 0 < i < |all| ensures Passes(c, all[i], p) {
      assert Passes(c, pts[i - 1], p);
    }
  }
}
