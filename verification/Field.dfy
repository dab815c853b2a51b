/** Modular arithmetic of packages/mpc-crypto/src/shamir.ts: BigInt remainders,
    the residue `modp` and the extended-GCD inverse `modinv`.

    The modulus is a parameter. The program fixes it to the BN254 scalar field
    prime; everything below holds for every prime. */
module Field {

  /** BigInt `/`: the quotient truncated toward zero. */
  function TruncDiv(x: int, m: int): int
    requires m > 0
  {
    if x >= 0 then x / m else -((-x) / m)
  }

  /** BigInt `%`: the remainder has the sign of the dividend. */
  function TruncRem(x: int, m: int): int
    requires m > 0
  {
    x - TruncDiv(x, m) * m
  }

  /** `modp`: repairs the sign of the truncated remainder. */
  function Modp(x: int, p: int): (r: int)
    requires p > 0
    ensures r == x % p
  {
    TruncRemRange(x, p);
    TruncRemRange(TruncRem(x, p) + p, p);
    TruncRem(TruncRem(x, p) + p, p)
  }

  lemma TruncRemRange(x: int, p: int)
    requires p > 0
    ensures -p < TruncRem(x, p) < p
    ensures x >= 0 ==> TruncRem(x, p) == x % p
    ensures (TruncRem(x, p) + p) % p == x % p
  {
    if x >= 0 {
      DivUnique(TruncRem(x, p) + p, 1, x % p, p);
    } else {
      var k := (-x) / p;
      var r := (-x) % p;
      assert -x == k * p + r;
      if r == 0 {
        DivUnique(x, -k, 0, p);
        DivUnique(p, 1, 0, p);
      } else {
        assert (-k - 1) * p == -k * p - p;
        DivUnique(x, -k - 1, p - r, p);
        DivUnique(p - r, 0, p - r, p);
      }
    }
  }

  // ----- quotients and residues -----

  lemma MulAtLeast(k: int, p: int)
    requires k >= 1 && p > 0
    ensures k * p >= p
  {
  }

  lemma DivUnique(x: int, q: int, r: int, p: int)
    requires p > 0 && 0 <= r < p && x == q * p + r
    ensures x % p == r && x / p == q
  {
    var q', r' := x / p, x % p;
    assert (q - q') * p == r' - r;
    if q > q' {
      MulAtLeast(q - q', p);
    } else if q < q' {
      assert (q' - q) * p == r - r';
      MulAtLeast(q' - q, p);
    }
  }

  predicate Divides(d: int, x: int) {
    d > 0 && x % d == 0
  }

  /** Congruence modulo p. */
  predicate Cong(a: int, b: int, p: int) {
    Divides(p, a - b)
  }

  ghost predicate Prime(p: int) {
    p >= 2 && forall d :: 1 < d < p ==> !Divides(d, p)
  }

  lemma DividesIntro(k: int, d: int)
    requires d > 0
    ensures Divides(d, k * d)
  {
    DivUnique(k * d, k, 0, d);
  }

  lemma CongIntro(a: int, b: int, k: int, p: int)
    requires p > 0 && a - b == k * p
    ensures Cong(a, b, p)
  {
    DividesIntro(k, p);
  }

  lemma CongElim(a: int, b: int, p: int) returns (k: int)
    requires Cong(a, b, p)
    ensures a - b == k * p
  {
    k := (a - b) / p;
  }

  lemma CongRefl(a: int, p: int)
    requires p > 0
    ensures Cong(a, a, p)
  {
    CongIntro(a, a, 0, p);
  }

  lemma CongSym(a: int, b: int, p: int)
    requires Cong(a, b, p)
    ensures Cong(b, a, p)
  {
    var k := CongElim(a, b, p);
    CongIntro(b, a, -k, p);
  }

  lemma CongTrans(a: int, b: int, c: int, p: int)
    requires Cong(a, b, p) && Cong(b, c, p)
    ensures Cong(a, c, p)
  {
    var k := CongElim(a, b, p);
    var l := CongElim(b, c, p);
    CongIntro(a, c, k + l, p);
  }

  lemma CongAdd(a: int, b: int, c: int, d: int, p: int)
    requires Cong(a, b, p) && Cong(c, d, p)
    ensures Cong(a + c, b + d, p)
  {
    var k := CongElim(a, b, p);
    var l := CongElim(c, d, p);
    CongIntro(a + c, b + d, k + l, p);
  }

  lemma CongMul(a: int, b: int, c: int, d: int, p: int)
    requires Cong(a, b, p) && Cong(c, d, p)
    ensures Cong(a * c, b * d, p)
  {
    var k := CongElim(a, b, p);
    var l := CongElim(c, d, p);
    calc {
      a * c - b * d;
      (a - b) * c + b * (c - d);
      (k * p) * c + b * (l * p);
      (k * c + b * l) * p;
    }
    CongIntro(a * c, b * d, k * c + b * l, p);
  }

  /** The residue represents its class ... */
  lemma CongMod(a: int, p: int)
    requires p > 0
    ensures 0 <= a % p < p && Cong(a % p, a, p)
  {
    assert a % p - a == -(a / p) * p;
    CongIntro(a % p, a, -(a / p), p);
  }

  /** ... and is its only representative below p. */
  lemma CongIsMod(a: int, b: int, p: int)
    requires p > 0
    ensures Cong(a, b, p) <==> a % p == b % p
  {
    CongMod(a, p);
    CongMod(b, p);
    if Cong(a, b, p) {
      var k := CongElim(a, b, p);
      assert a == (k + b / p) * p + b % p;
      DivUnique(a, k + b / p, b % p, p);
    }
    if a % p == b % p {
      CongSym(a % p, a, p);
      CongTrans(a, a % p, b, p);
    }
  }

  lemma ModSmall(a: int, p: int)
    requires 0 <= a < p
    ensures a % p == a
  {
  }

  lemma CongZero(a: int, p: int)
    requires p > 0
    ensures Cong(a, 0, p) <==> a % p == 0
  {
  }

  // ----- inverses -----

  /** Bezout's identity, with the cofactors that make g a common divisor. */
  lemma Bezout(a: nat, b: nat) returns (g: int, x: int, y: int, u: int, v: int)
    requires a > 0 || b > 0
    ensures g > 0 && x * a + y * b == g && a == u * g && b == v * g
    decreases b
  {
    if b == 0 {
      g, x, y, u, v := a, 1, 0, 1, 0;
    } else {
      var q, r := a / b, a % b;
      var x', y', u', v';
      g, x', y', u', v' := Bezout(b, r);
      x, y, u, v := y', x' - q * y', q * u' + v', u';
      assert a == q * b + r;
      BezoutStep(x', y', u', v', q, b, r, g);
    }
  }

  lemma BezoutStep(x: int, y: int, u: int, v: int, q: int, b: int, r: int, g: int)
    ensures y * (q * b + r) + (x - q * y) * b == x * b + y * r
    ensures (q * u + v) * g == q * (u * g) + v * g
  {
    assert y * (q * b + r) == q * y * b + y * r;
    assert (x - q * y) * b == x * b - q * y * b;
    assert (q * u + v) * g == q * u * g + v * g;
  }

  /** A common divisor of a prime and a residue it does not divide is 1. */
  lemma CoprimeDivisor(a: int, g: int, u: int, v: int, p: int)
    requires Prime(p) && 0 < a < p && g > 0 && a == u * g && p == v * g
    ensures g == 1
  {
    DividesIntro(v, g);
    assert Divides(g, p);
    assert u >= 1;
    assert g <= a by { MulAtLeast(u, g); }
  }

  predicate IsInverse(x: int, a: int, p: int) {
    0 <= x < p && Cong(a * x, 1, p)
  }

  lemma InverseExists(a: int, p: int)
    requires Prime(p) && a % p != 0
    ensures exists x :: IsInverse(x, a, p)
  {
    var r := a % p;
    var g, s, t, u, v := Bezout(r, p);
    CoprimeDivisor(r, g, u, v, p);
    var x := s % p;
    CongIntro(r * s, 1, -t, p);
    CongMod(s, p);
    CongMod(a, p);
    CongSym(r, a, p);
    CongMul(a, r, x, s, p);
    CongTrans(a * x, r * s, 1, p);
    assert IsInverse(x, a, p);
  }

  lemma CongUnit(e: int, x: int, p: int)
    requires Cong(e, 1, p)
    ensures Cong(e * x, x, p)
  {
    CongRefl(x, p);
    CongMul(e, 1, x, x, p);
  }

  lemma MulSwap(a: int, b: int, c: int)
    ensures (a * b) * c == (a * c) * b
  {
  }

  lemma InverseUnique(x: int, y: int, a: int, p: int)
    requires IsInverse(x, a, p) && IsInverse(y, a, p)
    ensures x == y
  {
    // x == (a * y) * x == (a * x) * y == y
    CongUnit(a * y, x, p);
    CongUnit(a * x, y, p);
    MulSwap(a, y, x);
    CongSym((a * y) * x, x, p);
    CongTrans(x, (a * y) * x, y, p);
    CongIsMod(x, y, p);
    ModSmall(x, p);
    ModSmall(y, p);
  }

  /** The inverse as mathematics defines it: the one residue x with a * x = 1,
      and 0 on multiples of p. */
  ghost function Inv(a: int, p: int): (x: int)
    requires Prime(p)
    ensures 0 <= x < p
    ensures a % p != 0 ==> IsInverse(x, a, p)
    ensures a % p == 0 ==> x == 0
  {
    if a % p == 0 then 0 else
      InverseExists(a, p);
      var x :| IsInverse(x, a, p);
      x
  }

  /** A prime field has no zero divisors. */
  lemma NoZeroDivisors(a: int, b: int, p: int)
    requires Prime(p) && Cong(a * b, 0, p)
    ensures Cong(a, 0, p) || Cong(b, 0, p)
  {
    if a % p != 0 {
      var x := Inv(a, p);
      // b == (a * x) * b == x * (a * b) == 0
      CongRefl(b, p);
      CongRefl(x, p);
      CongMul(a * x, 1, b, b, p);
      CongMul(x, x, a * b, 0, p);
      assert (a * x) * b == x * (a * b);
      CongSym((a * x) * b, 1 * b, p);
      CongTrans(b, (a * x) * b, 0, p);
    } else {
      CongZero(a, p);
    }
  }

  /** One Euclidean division step keeps `r == s * a` modulo p. */
  lemma EuclidStep(r0: int, r1: int, s0: int, s1: int, q: int, a: int, p: int)
    requires p > 0 && Cong(s0 * a, r0, p) && Cong(s1 * a, r1, p)
    ensures Cong((s0 - q * s1) * a, r0 - q * r1, p)
  {
    CongRefl(-q, p);
    CongMul(-q, -q, s1 * a, r1, p);
    CongAdd(s0 * a, r0, -q * (s1 * a), -q * r1, p);
    assert s0 * a + -q * (s1 * a) == (s0 - q * s1) * a;
  }

  lemma MatrixStep(u: int, v: int, r0: int, r1: int, q: int)
    ensures u * r0 + v * r1 == (u * q + v) * r1 + u * (r0 - q * r1)
  {
    assert u * (r0 - q * r1) == u * r0 - u * q * r1;
    assert (u * q + v) * r1 == u * q * r1 + v * r1;
  }

  /** `modinv`. The ghost matrix (u, v; w, z) recovers the two inputs from the
      current remainders, so the last nonzero remainder divides both. */
  method ModInv(a: int, p: int) returns (inv: int)
    requires Prime(p)
    ensures inv == Inv(a, p)
  {
    var a0 := Modp(a, p);
    var oldR, r := a0, p;
    var oldS, s := 1, 0;
    ghost var u, v, w, z := 1, 0, 0, 1;
    CongRefl(a0, p);
    CongIntro(0, p, -1, p);
    while r != 0
      invariant oldR >= 0 && r >= 0 && (oldR > 0 || r > 0)
      invariant Cong(oldS * a0, oldR, p) && Cong(s * a0, r, p)
      invariant a0 == u * oldR + v * r && p == w * oldR + z * r
      invariant a0 == 0 ==> (oldR, r, oldS, s) in {(0, p, 1, 0), (p, 0, 0, 1)}
      decreases r
    {
      var q := TruncDiv(oldR, r);
      assert oldR == q * r + oldR % r;
      EuclidStep(oldR, r, oldS, s, q, a0, p);
      MatrixStep(u, v, oldR, r, q);
      MatrixStep(w, z, oldR, r, q);
      oldR, r := r, oldR - q * r;
      oldS, s := s, oldS - q * s;
      u, v, w, z := u * q + v, u, w * q + z, w;
    }
    inv := Modp(oldS, p);
    if a0 != 0 {
      CoprimeDivisor(a0, oldR, u, w, p);
      CongMod(oldS, p);
      CongMod(a, p);
      CongSym(a0, a, p);
      CongMul(a, a0, inv, oldS, p);
      CongTrans(a * inv, a0 * oldS, 1, p);
      InverseUnique(inv, Inv(a, p), a, p);
    } else {
      ModSmall(0, p);
    }
  }
}
