/** Rejection sampling of a field element, packages/mpc-crypto/src/shamir.ts.
    The 32-byte draws are a parameter. */
module Sampling {
  import opened Wrappers
  import opened Field

  /** 2^256, the number of values of a 32-byte draw. */
  const DRAW_RANGE: nat := 0x1_0000000000000000_0000000000000000_0000000000000000_0000000000000000

  /** REJECTION_LIMIT, for any draw range. */
  function RejectionLimit(range: nat, p: int): nat
    requires p > 0
  {
    (range / p) * p
  }

  /** `randomFieldElement`: the residue of the first acceptable draw, if the
      given draws contain one. */
  method RandomFieldElement(draws: seq<nat>, range: nat, p: int) returns (r: Option<int>, used: nat)
    requires p > 0
    ensures used <= |draws|
    ensures r.Some? <==> exists k :: 0 <= k < |draws| && draws[k] < RejectionLimit(range, p)
    ensures r.Some? ==> 0 < used && draws[used - 1] < RejectionLimit(range, p)
                        && r.value == draws[used - 1] % p && 0 <= r.value < p
    ensures forall k :: 0 <= k < (if r.Some? then used - 1 else used) ==> draws[k] >= RejectionLimit(range, p)
    ensures r.None? ==> used == |draws|
  {
    used := 0;
    while used < |draws|
      invariant used <= |draws|
      invariant forall k :: 0 <= k < used ==> draws[k] >= RejectionLimit(range, p)
    {
      var raw := draws[used];
      used := used + 1;
      if raw < RejectionLimit(range, p) {
        return Some(TruncRemNat(raw, p)), used;
      }
    }
    return None, used;
  }

  function TruncRemNat(x: nat, p: int): (r: int)
    requires p > 0
    ensures r == x % p && 0 <= r < p
  {
    TruncRemRange(x, p);
    TruncRem(x, p)
  }

  /** The accepted draws below `limit` that reduce to r. */
  function Preimages(r: int, limit: nat, p: int): set<int>
    requires p > 0
  {
    set raw | 0 <= raw < limit && raw % p == r
  }

  lemma {:induction false} BlockCount(q: nat, r: int, p: int)
    requires 0 <= r < p
    ensures |Preimages(r, q * p, p)| == q
  {
    if q == 0 {
      assert Preimages(r, 0, p) == {};
    } else {
      BlockCount(q - 1, r, p);
      var lo := (q - 1) * p;
      assert q * p == lo + p;
      forall raw | lo <= raw < lo + p ensures raw % p == raw - lo {
        DivUnique(raw, q - 1, raw - lo, p);
      }
      assert Preimages(r, lo + p, p) == Preimages(r, lo, p) + {lo + r};
    }
  }

  /** Exactly uniform: every field element has the same number of accepted
      draws, and no larger multiple of p would fit the draw range. */
  lemma ExactlyUniform(range: nat, r: int, p: int)
    requires 0 <= r < p
    ensures |Preimages(r, RejectionLimit(range, p), p)| == range / p
    ensures RejectionLimit(range, p) <= range < RejectionLimit(range, p) + p
  {
    BlockCount(range / p, r, p);
  }

  /** The 32-byte draws of the program: each residue comes from exactly
      floor(2^256 / p) of the accepted ones. */
  lemma FieldElementUniform(r: int, p: int)
    requires 0 <= r < p
    ensures |Preimages(r, RejectionLimit(DRAW_RANGE, p), p)| == DRAW_RANGE / p
    ensures RejectionLimit(DRAW_RANGE, p) <= DRAW_RANGE
  {
    ExactlyUniform(DRAW_RANGE, r, p);
  }
}
