/** The priced matcher of apps/mpc-committee/src/coordinator.ts: two parties
    cross at A's limit price with floor rounding and no partial fills, and a
    greedy loop pairs a whole list. */
module Priced {
  import opened Wrappers
  import opened Field

  /** PRICE_SCALE */
  const SCALE := 1_000_000_000

  /** limit: units of outAsset per unit of inAsset, times SCALE. */
  datatype PricedIntent = PricedIntent(id: string, inAsset: string, outAsset: string,
                                       amount: int, minOutput: int, limit: int)

  datatype PricedMatch = PricedMatch(aId: string, bId: string,
                                     inAssetA: string, outAssetA: string, inAssetB: string, outAssetB: string,
                                     amountA: int, amountB: int, price: int, minOutputA: int, minOutputB: int)

  /** RangeError: BigInt division by zero throws. */
  datatype Outcome = NoMatch | Crossed(m: PricedMatch) | RangeError

  /** BigInt division by a divisor of either sign. */
  function Quot(x: int, m: int): int
    requires m != 0
  {
    if m > 0 then TruncDiv(x, m) else -TruncDiv(x, -m)
  }

  /** `matchPricedPair` */
  function MatchPricedPair(a: PricedIntent, b: PricedIntent): Outcome {
    if a.inAsset != b.outAsset then NoMatch
    else if a.outAsset != b.inAsset then NoMatch
    else if a.inAsset == a.outAsset then NoMatch
    else
      var outputForA := Quot(a.amount * a.limit, SCALE);
      var outputForB := a.amount;
      if b.amount != outputForA then NoMatch
      else if outputForA < a.minOutput then NoMatch
      else if outputForB < b.minOutput then NoMatch
      else if b.amount == 0 then RangeError
      else if Quot(outputForB * SCALE, b.amount) < b.limit then NoMatch
      else Crossed(PricedMatch(a.id, b.id, a.inAsset, a.outAsset, b.inAsset, b.outAsset,
                               a.amount, outputForA, a.limit, a.minOutput, b.minOutput))
  }

  // ----- one pair -----

  /** q is x / m rounded toward zero. */
  predicate IsTrunc(q: int, x: int, m: int)
    requires m > 0
  {
    if x >= 0 then q * m <= x < (q + 1) * m else (q - 1) * m < x <= q * m
  }

  lemma TruncIs(x: int, m: int)
    requires m > 0
    ensures IsTrunc(TruncDiv(x, m), x, m)
  {
    if x >= 0 {
      FloorBounds(x, m);
    } else {
      FloorBounds(-x, m);
      NegatedBounds((-x) / m, x, m);
    }
  }

  lemma NegatedBounds(q: int, x: int, m: int)
    requires q * m <= -x < (q + 1) * m
    ensures (-q - 1) * m < x <= -q * m
  {
    assert (-q - 1) * m == -((q + 1) * m);
    assert -q * m == -(q * m);
  }

  /** BigInt division, for a divisor of either sign. */
  predicate IsQuotient(q: int, x: int, m: int)
    requires m != 0
  {
    if m > 0 then IsTrunc(q, x, m) else IsTrunc(-q, x, -m)
  }

  lemma QuotIs(x: int, m: int)
    requires m != 0
    ensures IsQuotient(Quot(x, m), x, m)
  {
    TruncIs(x, if m > 0 then m else -m);
  }

  lemma TruncUnique(q: int, r: int, x: int, m: int)
    requires m > 0 && IsTrunc(q, x, m) && IsTrunc(r, x, m)
    ensures q == r
  {
    if x >= 0 {
      FloorUnique(x, q, m);
      FloorUnique(x, r, m);
    } else {
      NegatedUp(q, x, m);
      NegatedUp(r, x, m);
      FloorUnique(-x, -q, m);
      FloorUnique(-x, -r, m);
    }
  }

  lemma NegatedUp(q: int, x: int, m: int)
    requires (q - 1) * m < x <= q * m
    ensures -q * m <= -x < (-q + 1) * m
  {
    assert -q * m == -(q * m);
    assert (-q + 1) * m == -((q - 1) * m);
  }

  /** Complementary assets, B spends A's price rounded toward zero, and both
      minimum outputs hold: all that is checked before B's limit. */
  predicate MeetsA(a: PricedIntent, b: PricedIntent) {
    && a.inAsset == b.outAsset && a.outAsset == b.inAsset && a.inAsset != a.outAsset
    && IsTrunc(b.amount, a.amount * a.limit, SCALE)
    && b.amount >= a.minOutput && a.amount >= b.minOutput
  }

  /** The pair for all integers: no match, a division by zero, or a match that
      carries both amounts, A's limit and the minima, when B's limit accepts the
      rate rounded toward zero. */
  lemma PairExactly(a: PricedIntent, b: PricedIntent)
    ensures match MatchPricedPair(a, b)
      case NoMatch => !MeetsA(a, b) || (b.amount != 0 && exists q :: IsQuotient(q, a.amount * SCALE, b.amount) && q < b.limit)
      case RangeError => MeetsA(a, b) && b.amount == 0
      case Crossed(m) =>
        && MeetsA(a, b) && b.amount != 0 && (exists q :: IsQuotient(q, a.amount * SCALE, b.amount) && q >= b.limit)
        && m == PricedMatch(a.id, b.id, a.inAsset, b.inAsset, b.inAsset, a.inAsset,
                            a.amount, b.amount, a.limit, a.minOutput, b.minOutput)
  {
    var q := Quot(a.amount * a.limit, SCALE);
    QuotIs(a.amount * a.limit, SCALE);
    if IsTrunc(b.amount, a.amount * a.limit, SCALE) {
      TruncUnique(q, b.amount, a.amount * a.limit, SCALE);
    }
    if b.amount != 0 {
      QuotIs(a.amount * SCALE, b.amount);
    }
  }

  /** The crossing condition without any division: B spends what A's limit is
      worth up to less than one unit, both minimum outputs hold, and B's limit
      holds exactly. */
  predicate Crosses(a: PricedIntent, b: PricedIntent) {
    && a.inAsset == b.outAsset && a.outAsset == b.inAsset && a.inAsset != a.outAsset
    && b.amount * SCALE <= a.amount * a.limit < (b.amount + 1) * SCALE
    && b.amount >= a.minOutput && a.amount >= b.minOutput
    && b.limit * b.amount <= a.amount * SCALE
  }

  lemma FloorBounds(x: int, m: int)
    requires m > 0 && x >= 0
    ensures x / m * m <= x < (x / m + 1) * m
  {
  }

  lemma FloorUnique(x: int, q: int, m: int)
    requires m > 0 && q * m <= x < (q + 1) * m
    ensures x / m == q
  {
    DivUnique(x, q, x - q * m, m);
  }

  lemma FloorAtLeast(x: int, m: int, k: int)
    requires m > 0
    ensures x / m >= k <==> x >= k * m
  {
    var q, r := x / m, x % m;
    assert x == m * q + r;
    if q >= k {
      MulMono(m, k, q);
    } else {
      MulMono(m, q + 1, k);
      assert m * (q + 1) == m * q + m;
    }
  }

  /** With positive amounts a pair matches exactly when it crosses, and the
      match carries both full amounts at A's price. */
  lemma PairMatchesIffCrosses(a: PricedIntent, b: PricedIntent)
    requires a.amount > 0 && b.amount > 0
    ensures MatchPricedPair(a, b).Crossed? <==> Crosses(a, b)
    ensures MatchPricedPair(a, b) != RangeError
    ensures var r := MatchPricedPair(a, b);
            r.Crossed? ==> r.m == PricedMatch(a.id, b.id, a.inAsset, b.inAsset, b.inAsset, a.inAsset,
                                              a.amount, b.amount, a.limit, a.minOutput, b.minOutput)
  {
    var x := a.amount * a.limit;
    assert x >= 0 || x / SCALE < 0;
    assert Quot(x, SCALE) == b.amount <==> b.amount * SCALE <= x < (b.amount + 1) * SCALE by {
      if x >= 0 {
        FloorBounds(x, SCALE);
        if b.amount * SCALE <= x < (b.amount + 1) * SCALE {
          FloorUnique(x, b.amount, SCALE);
        }
      }
    }
    var y := a.amount * SCALE;
    assert Quot(y, b.amount) >= b.limit <==> b.limit * b.amount <= y by {
      FloorAtLeast(y, b.amount, b.limit);
    }
  }

  /** The pair throws exactly when it would settle for nothing on both sides of
      B: everything up to B's limit check passes and B spends 0. */
  lemma PairThrowsIff(a: PricedIntent, b: PricedIntent)
    ensures MatchPricedPair(a, b) == RangeError <==>
            && a.inAsset == b.outAsset && a.outAsset == b.inAsset && a.inAsset != a.outAsset
            && b.amount == 0 && -SCALE < a.amount * a.limit < SCALE
            && a.minOutput <= 0 && b.minOutput <= a.amount
  {
    var x := a.amount * a.limit;
    assert Quot(x, SCALE) == 0 <==> -SCALE < x < SCALE;
  }

  /** Matched limits cross up to rounding. */
  lemma LimitsCross(a: PricedIntent, b: PricedIntent)
    requires a.amount > 0 && b.amount > 0 && Crosses(a, b)
    ensures a.limit * b.limit * b.amount < SCALE * SCALE * (b.amount + 1)
  {
    assert a.limit <= 0 ==> a.amount * a.limit <= 0;
    calc {
      a.limit * b.limit * b.amount;
      a.limit * (b.limit * b.amount);
    <= { MulMono(a.limit, b.limit * b.amount, a.amount * SCALE); }
      a.limit * (a.amount * SCALE);
      (a.amount * a.limit) * SCALE;
    <
      (b.amount + 1) * SCALE * SCALE;
    }
  }

  lemma MulMono(k: int, x: int, y: int)
    requires k >= 0 && x <= y
    ensures k * x <= k * y
  {
    assert k * (y - x) >= 0;
  }

  // ----- greedy first fit -----

  datatype Pick = Pick(i: nat, j: nat)
  datatype Scan = NotFound | Found(j: nat) | Threw

  /** The inner loop: the first j that is free and crosses with i. */
  function FirstFit(s: seq<PricedIntent>, i: nat, j: nat, used: set<string>): (r: Scan)
    requires i < |s| && j <= |s|
    ensures r.Found? ==> j <= r.j < |s|
    decreases |s| - j
  {
    if j == |s| then NotFound
    else if i == j || s[j].id in used then FirstFit(s, i, j + 1, used)
    else match MatchPricedPair(s[i], s[j])
      case NoMatch => FirstFit(s, i, j + 1, used)
      case Crossed(_) => Found(j)
      case RangeError => Threw
  }

  /** The outer loop from position i; None when a division by zero throws. */
  function Greedy(s: seq<PricedIntent>, i: nat, used: set<string>): Option<seq<Pick>>
    requires i <= |s|
    decreases |s| - i
  {
    if i == |s| then Some([])
    else if s[i].id in used then Greedy(s, i + 1, used)
    else match FirstFit(s, i, 0, used)
      case NotFound => Greedy(s, i + 1, used)
      case Threw => None
      case Found(j) =>
        var rest := Greedy(s, i + 1, used + {s[i].id, s[j].id});
        if rest.None? then None else Some([Pick(i, j)] + rest.value)
  }

  predicate Crossing(s: seq<PricedIntent>, p: Pick) {
    p.i < |s| && p.j < |s| && p.i != p.j && MatchPricedPair(s[p.i], s[p.j]).Crossed?
  }

  predicate AllCrossing(s: seq<PricedIntent>, ps: seq<Pick>) {
    forall k :: 0 <= k < |ps| ==> Crossing(s, ps[k])
  }

  function MatchOf(s: seq<PricedIntent>, p: Pick): PricedMatch
    requires Crossing(s, p)
  {
    MatchPricedPair(s[p.i], s[p.j]).m
  }

  function Render(s: seq<PricedIntent>, ps: seq<Pick>): (ms: seq<PricedMatch>)
    requires AllCrossing(s, ps)
    ensures |ms| == |ps| && forall k :: 0 <= k < |ps| ==> Crossing(s, ps[k]) && ms[k] == MatchOf(s, ps[k])
  {
    seq(|ps|, k requires 0 <= k < |ps| && Crossing(s, ps[k]) => MatchOf(s, ps[k]))
  }

  lemma {:induction false} FirstFitCrosses(s: seq<PricedIntent>, i: nat, j: nat, used: set<string>)
    requires i < |s| && j <= |s|
    ensures var r := FirstFit(s, i, j, used);
            r.Found? ==> Crossing(s, Pick(i, r.j)) && s[r.j].id !in used
    ensures FirstFit(s, i, j, used).NotFound? ==>
            forall k :: j <= k < |s| && k != i && s[k].id !in used ==> MatchPricedPair(s[i], s[k]) == NoMatch
    decreases |s| - j
  {
    if j < |s| {
      FirstFitCrosses(s, i, j + 1, used);
    }
  }

  function PickIds(s: seq<PricedIntent>, ps: seq<Pick>): set<string>
    requires AllCrossing(s, ps)
  {
    if ps == [] then {}
    else
      assert Crossing(s, ps[0]);
      {s[ps[0].i].id, s[ps[0].j].id} + PickIds(s, ps[1..])
  }

  predicate UniquePricedIds(s: seq<PricedIntent>) {
    forall i, j :: 0 <= i < j < |s| ==> s[i].id != s[j].id
  }

  /** No intent is used twice. */
  predicate PicksApart(s: seq<PricedIntent>, ps: seq<Pick>, used: set<string>)
    requires AllCrossing(s, ps)
  {
    ps == [] || (
      assert Crossing(s, ps[0]);
      && s[ps[0].i].id !in used && s[ps[0].j].id !in used && s[ps[0].i].id != s[ps[0].j].id
      && PicksApart(s, ps[1..], used + {s[ps[0].i].id, s[ps[0].j].id}))
  }

  lemma {:induction false} GreedyPicks(s: seq<PricedIntent>, i: nat, used: set<string>)
    requires i <= |s| && UniquePricedIds(s)
    ensures var g := Greedy(s, i, used);
            g.Some? ==> AllCrossing(s, g.value) && PicksApart(s, g.value, used)
    decreases |s| - i
  {
    if i < |s| {
      FirstFitCrosses(s, i, 0, used);
      var scan := FirstFit(s, i, 0, used);
      if s[i].id !in used && scan.Found? {
        var used' := used + {s[i].id, s[scan.j].id};
        GreedyPicks(s, i + 1, used');
        var g := Greedy(s, i, used);
        if g.Some? {
          var rest := Greedy(s, i + 1, used').value;
          assert g.value == [Pick(i, scan.j)] + rest;
          assert forall k :: 0 < k < |g.value| ==> g.value[k] == rest[k - 1];
          assert g.value[1..] == rest;
        }
      } else {
        GreedyPicks(s, i + 1, used);
      }
    }
  }

  /** Every pick crosses, whatever the ids. */
  lemma {:induction false} GreedyCrosses(s: seq<PricedIntent>, i: nat, used: set<string>)
    requires i <= |s|
    ensures var g := Greedy(s, i, used); g.Some? ==> AllCrossing(s, g.value)
    decreases |s| - i
  {
    if i < |s| {
      FirstFitCrosses(s, i, 0, used);
      var scan := FirstFit(s, i, 0, used);
      if s[i].id !in used && scan.Found? {
        GreedyCrosses(s, i + 1, used + {s[i].id, s[scan.j].id});
      } else {
        GreedyCrosses(s, i + 1, used);
      }
    }
  }

  /** Intent i is used, or matches no other free intent in this orientation. */
  predicate Blocked(s: seq<PricedIntent>, i: nat, used: set<string>)
    requires i < |s|
  {
    s[i].id in used ||
    forall k :: 0 <= k < |s| && k != i && s[k].id !in used ==> MatchPricedPair(s[i], s[k]) == NoMatch
  }

  lemma BlockedMonotone(s: seq<PricedIntent>, i: nat, used: set<string>, used': set<string>)
    requires i < |s| && used <= used' && Blocked(s, i, used)
    ensures Blocked(s, i, used')
  {
  }

  /** Maximality: when the loop is done, no two unused intents would match, in
      either orientation. */
  lemma {:induction false} GreedyMaximal(s: seq<PricedIntent>, i: nat, used: set<string>)
    requires i <= |s| && UniquePricedIds(s) && Greedy(s, i, used).Some?
    requires forall h :: 0 <= h < i ==> Blocked(s, h, used)
    ensures AllCrossing(s, Greedy(s, i, used).value)
    ensures forall h :: 0 <= h < |s| ==> Blocked(s, h, used + PickIds(s, Greedy(s, i, used).value))
    decreases |s| - i
  {
    GreedyPicks(s, i, used);
    var ps := Greedy(s, i, used).value;
    if i < |s| {
      FirstFitCrosses(s, i, 0, used);
      var scan := FirstFit(s, i, 0, used);
      if s[i].id !in used && scan.Found? {
        var used' := used + {s[i].id, s[scan.j].id};
        forall h | 0 <= h < i ensures Blocked(s, h, used') { BlockedMonotone(s, h, used, used'); }
        GreedyMaximal(s, i + 1, used');
        var rest := Greedy(s, i + 1, used').value;
        assert ps[1..] == rest;
        assert used + PickIds(s, ps) == used' + PickIds(s, rest);
      } else {
        GreedyMaximal(s, i + 1, used);
      }
    } else {
      assert used + PickIds(s, ps) == used;
    }
  }

  // ----- the picks, without the recursion -----

  /** The ids of the first k picks. */
  function Taken(s: seq<PricedIntent>, ps: seq<Pick>, k: nat): set<string>
    requires k <= |ps| && forall m :: 0 <= m < k ==> ps[m].i < |s| && ps[m].j < |s|
  {
    (set m | 0 <= m < k :: s[ps[m].i].id) + (set m | 0 <= m < k :: s[ps[m].j].id)
  }

  /** Intent i meets no partner before position n among those not taken. */
  predicate NoneBefore(s: seq<PricedIntent>, i: nat, n: nat, taken: set<string>)
    requires i < |s| && n <= |s|
  {
    forall j :: 0 <= j < n && j != i && s[j].id !in taken ==> MatchPricedPair(s[i], s[j]) == NoMatch
  }

  /** The first partner that is not taken and answers is j, with the given answer. */
  predicate FirstAnswer(s: seq<PricedIntent>, i: nat, j: nat, taken: set<string>)
    requires i < |s|
  {
    && j < |s| && j != i && s[j].id !in taken && NoneBefore(s, i, j, taken)
    && MatchPricedPair(s[i], s[j]) != NoMatch
  }

  predicate InRange(s: seq<PricedIntent>, ps: seq<Pick>) {
    forall m :: 0 <= m < |ps| ==> ps[m].i < |s| && ps[m].j < |s|
  }

  /** Pick k: its first side is free, and its second is the first free partner
      that answers, and crosses. */
  predicate GoodPick(s: seq<PricedIntent>, ps: seq<Pick>, k: nat, used: set<string>)
    requires k < |ps| && InRange(s, ps)
  {
    var taken := used + Taken(s, ps, k);
    s[ps[k].i].id !in taken && FirstAnswer(s, ps[k].i, ps[k].j, taken) && MatchPricedPair(s[ps[k].i], s[ps[k].j]).Crossed?
  }

  /** Intent i lies between picks k - 1 and k: it is taken, or nobody answers. */
  predicate Passed(s: seq<PricedIntent>, ps: seq<Pick>, i: nat, k: nat, used: set<string>)
    requires i < |s| && k <= |ps| && InRange(s, ps)
  {
    (k > 0 ==> ps[k - 1].i < i) && (k < |ps| ==> i < ps[k].i)
    ==> s[i].id in used + Taken(s, ps, k) || NoneBefore(s, i, |s|, used + Taken(s, ps, k))
  }

  /** The picks of the first-fit loop over intents lo, ..., hi - 1, given the ids
      used before: taken in order, each with the first partner that answers, and
      nobody passed over. */
  predicate FirstFitPicks(s: seq<PricedIntent>, ps: seq<Pick>, lo: nat, hi: nat, used: set<string>)
    requires lo <= hi <= |s|
  {
    && InRange(s, ps)
    && (forall k :: 0 <= k < |ps| ==> lo <= ps[k].i < hi)
    && (forall k, m :: 0 <= k < m < |ps| ==> ps[k].i < ps[m].i)
    && (forall k :: 0 <= k < |ps| ==> GoodPick(s, ps, k, used))
    && (forall i, k :: lo <= i < hi && 0 <= k <= |ps| ==> Passed(s, ps, i, k, used))
  }

  /** The loop stops at intent i, which the picks so far left free: the first
      partner that answers throws. */
  predicate StopsAt(s: seq<PricedIntent>, ps: seq<Pick>, lo: nat, i: nat, j: nat, used: set<string>)
    requires lo <= i < |s|
  {
    && FirstFitPicks(s, ps, lo, i, used)
    && var taken := used + Taken(s, ps, |ps|);
       s[i].id !in taken && FirstAnswer(s, i, j, taken) && MatchPricedPair(s[i], s[j]) == RangeError
  }

  /** What the inner loop finds. */
  lemma {:induction false} ScanExactly(s: seq<PricedIntent>, i: nat, j: nat, used: set<string>)
    requires i < |s| && j <= |s| && NoneBefore(s, i, j, used)
    ensures match FirstFit(s, i, j, used)
      case NotFound => NoneBefore(s, i, |s|, used)
      case Found(f) => FirstAnswer(s, i, f, used) && MatchPricedPair(s[i], s[f]).Crossed?
      case Threw => exists f: nat :: FirstAnswer(s, i, f, used) && MatchPricedPair(s[i], s[f]) == RangeError
    decreases |s| - j
  {
    if j < |s| {
      if i == j || s[j].id in used || MatchPricedPair(s[i], s[j]) == NoMatch {
        ScanExactly(s, i, j + 1, used);
      } else {
        assert FirstAnswer(s, i, j, used);
      }
    }
  }

  /** Only one partner answers first. */
  lemma AnswerUnique(s: seq<PricedIntent>, i: nat, j: nat, k: nat, used: set<string>)
    requires i < |s| && FirstAnswer(s, i, j, used) && FirstAnswer(s, i, k, used)
    ensures j == k
  {
  }

  lemma TakenShift(s: seq<PricedIntent>, ps: seq<Pick>, k: nat, used: set<string>)
    requires k < |ps| && InRange(s, ps)
    ensures InRange(s, ps[1..])
    ensures used + Taken(s, ps, k + 1) == (used + {s[ps[0].i].id, s[ps[0].j].id}) + Taken(s, ps[1..], k)
  {
    var tail := ps[1..];
    forall m | 0 <= m < k ensures tail[m] == ps[m + 1] {
    }
    forall m | 1 <= m < k + 1 ensures tail[m - 1] == ps[m] {
    }
  }

  /** An intent that is taken, or that nobody answers, is passed over. */
  lemma PassOn(s: seq<PricedIntent>, ps: seq<Pick>, lo: nat, hi: nat, used: set<string>)
    requires lo < hi <= |s| && (s[lo].id in used || NoneBefore(s, lo, |s|, used))
    ensures FirstFitPicks(s, ps, lo, hi, used) <==> FirstFitPicks(s, ps, lo + 1, hi, used)
  {
    if FirstFitPicks(s, ps, lo, hi, used) && ps != [] {
      assert GoodPick(s, ps, 0, used);
      assert Taken(s, ps, 0) == {};
      assert ps[0].i != lo;
    }
    if FirstFitPicks(s, ps, lo + 1, hi, used) {
      forall k | 0 <= k <= |ps| ensures Passed(s, ps, lo, k, used) {
        assert Taken(s, ps, 0) == {};
      }
    }
  }

  /** A free intent whose first answer crosses is the next pick. */
  lemma PickFirst(s: seq<PricedIntent>, ps: seq<Pick>, lo: nat, hi: nat, j: nat, used: set<string>)
    requires lo < hi <= |s| && s[lo].id !in used && FirstAnswer(s, lo, j, used) && FirstFitPicks(s, ps, lo, hi, used)
    ensures ps != [] && ps[0] == Pick(lo, j) && MatchPricedPair(s[lo], s[j]).Crossed?
  {
    assert Taken(s, ps, 0) == {};
    assert Passed(s, ps, lo, 0, used);
    assert ps != [] && ps[0].i == lo;
    assert GoodPick(s, ps, 0, used);
    AnswerUnique(s, lo, ps[0].j, j, used);
  }

  lemma PickTail(s: seq<PricedIntent>, ps: seq<Pick>, lo: nat, hi: nat, used: set<string>)
    requires lo < hi <= |s| && FirstFitPicks(s, ps, lo, hi, used) && ps != [] && ps[0].i == lo
    ensures FirstFitPicks(s, ps[1..], lo + 1, hi, used + {s[lo].id, s[ps[0].j].id})
  {
    var tail, used' := ps[1..], used + {s[lo].id, s[ps[0].j].id};
    forall k | 0 <= k < |tail| ensures GoodPick(s, tail, k, used') {
      TakenShift(s, ps, k, used);
      assert GoodPick(s, ps, k + 1, used);
    }
    forall i, k | lo + 1 <= i < hi && 0 <= k <= |tail| ensures Passed(s, tail, i, k, used') {
      TakenShift(s, ps, k, used);
      assert Passed(s, ps, i, k + 1, used);
    }
  }

  lemma InRangeCons(s: seq<PricedIntent>, p: Pick, ps: seq<Pick>)
    requires p.i < |s| && p.j < |s| && InRange(s, ps)
    ensures InRange(s, [p] + ps) && Taken(s, [p] + ps, 0) == {}
  {
  }

  lemma PickOnGood(s: seq<PricedIntent>, p: Pick, ps: seq<Pick>, k: nat, used: set<string>)
    requires p.i < |s| && p.j < |s| && InRange(s, ps) && InRange(s, [p] + ps)
    requires k < |ps| && GoodPick(s, ps, k, used + {s[p.i].id, s[p.j].id})
    ensures GoodPick(s, [p] + ps, k + 1, used)
  {
    TakenShift(s, [p] + ps, k, used);
    assert ([p] + ps)[1..] == ps;
  }

  lemma PickOnPassed(s: seq<PricedIntent>, p: Pick, ps: seq<Pick>, i: nat, k: nat, used: set<string>)
    requires p.i < |s| && p.j < |s| && InRange(s, ps) && InRange(s, [p] + ps) && p.i < i < |s| && k <= |ps|
    requires Passed(s, ps, i, k, used + {s[p.i].id, s[p.j].id})
    ensures Passed(s, [p] + ps, i, k + 1, used)
  {
    TakenShift(s, [p] + ps, k, used);
    assert ([p] + ps)[1..] == ps;
  }

  lemma PickOn(s: seq<PricedIntent>, ps: seq<Pick>, lo: nat, hi: nat, j: nat, used: set<string>)
    requires lo < hi <= |s| && s[lo].id !in used && FirstAnswer(s, lo, j, used) && MatchPricedPair(s[lo], s[j]).Crossed?
    requires FirstFitPicks(s, ps, lo + 1, hi, used + {s[lo].id, s[j].id})
    ensures FirstFitPicks(s, [Pick(lo, j)] + ps, lo, hi, used)
  {
    var p := Pick(lo, j);
    var all := [p] + ps;
    InRangeCons(s, p, ps);
    AllGood(s, p, ps, lo, hi, used);
    AllPassed(s, p, ps, lo, hi, used);
  }

  lemma AllGood(s: seq<PricedIntent>, p: Pick, ps: seq<Pick>, lo: nat, hi: nat, used: set<string>)
    requires lo < hi <= |s| && p.i == lo && s[lo].id !in used && FirstAnswer(s, lo, p.j, used)
    requires MatchPricedPair(s[lo], s[p.j]).Crossed? && InRange(s, [p] + ps)
    requires FirstFitPicks(s, ps, lo + 1, hi, used + {s[lo].id, s[p.j].id})
    ensures forall k :: 0 <= k < |[p] + ps| ==> GoodPick(s, [p] + ps, k, used)
  {
    InRangeCons(s, p, ps);
    forall k | 0 <= k < |[p] + ps| ensures GoodPick(s, [p] + ps, k, used) {
      if k > 0 {
        assert GoodPick(s, ps, k - 1, used + {s[lo].id, s[p.j].id});
        PickOnGood(s, p, ps, k - 1, used);
      }
    }
  }

  lemma AllPassed(s: seq<PricedIntent>, p: Pick, ps: seq<Pick>, lo: nat, hi: nat, used: set<string>)
    requires lo < hi <= |s| && p.i == lo && p.j < |s| && InRange(s, [p] + ps)
    requires FirstFitPicks(s, ps, lo + 1, hi, used + {s[lo].id, s[p.j].id})
    ensures forall i, k :: lo <= i < hi && 0 <= k <= |[p] + ps| ==> Passed(s, [p] + ps, i, k, used)
  {
    InRangeCons(s, p, ps);
    forall i, k | lo <= i < hi && 0 <= k <= |[p] + ps| ensures Passed(s, [p] + ps, i, k, used) {
      if k > 0 && i > lo {
        assert Passed(s, ps, i, k - 1, used + {s[lo].id, s[p.j].id});
        PickOnPassed(s, p, ps, i, k - 1, used);
      }
    }
  }

  /** The recursion finds the first-fit picks, and nothing else is such a list. */
  lemma {:induction false} GreedyExactly(s: seq<PricedIntent>, lo: nat, used: set<string>)
    requires lo <= |s|
    ensures Greedy(s, lo, used).Some? ==> FirstFitPicks(s, Greedy(s, lo, used).value, lo, |s|, used)
    ensures forall ps :: FirstFitPicks(s, ps, lo, |s|, used) ==> Greedy(s, lo, used) == Some(ps)
    decreases |s| - lo
  {
    if lo < |s| {
      ScanExactly(s, lo, 0, used);
      var scan := FirstFit(s, lo, 0, used);
      if s[lo].id in used || scan.NotFound? {
        GreedyExactly(s, lo + 1, used);
        forall ps: seq<Pick> ensures FirstFitPicks(s, ps, lo, |s|, used) <==> FirstFitPicks(s, ps, lo + 1, |s|, used) {
          PassOn(s, ps, lo, |s|, used);
        }
      } else if scan.Found? {
        GreedyPick(s, lo, scan.j, used);
      } else {
        GreedyThrows(s, lo, used);
      }
    } else {
      forall ps: seq<Pick> | ps != [] ensures !FirstFitPicks(s, ps, lo, |s|, used) {
        assert !(|s| <= ps[0].i < |s|);
      }
      assert FirstFitPicks(s, [], lo, |s|, used);
    }
  }

  lemma GreedyPick(s: seq<PricedIntent>, lo: nat, j: nat, used: set<string>)
    requires lo < |s| && s[lo].id !in used && FirstFit(s, lo, 0, used) == Found(j)
    requires FirstAnswer(s, lo, j, used) && MatchPricedPair(s[lo], s[j]).Crossed?
    ensures Greedy(s, lo, used).Some? ==> FirstFitPicks(s, Greedy(s, lo, used).value, lo, |s|, used)
    ensures forall ps :: FirstFitPicks(s, ps, lo, |s|, used) ==> Greedy(s, lo, used) == Some(ps)
    decreases |s| - lo, 0
  {
    var used' := used + {s[lo].id, s[j].id};
    var rest := Greedy(s, lo + 1, used');
    GreedyExactly(s, lo + 1, used');
    if rest.Some? {
      PickOn(s, rest.value, lo, |s|, j, used);
    }
    forall ps: seq<Pick> | FirstFitPicks(s, ps, lo, |s|, used) ensures Greedy(s, lo, used) == Some(ps) {
      PickFirst(s, ps, lo, |s|, j, used);
      PickTail(s, ps, lo, |s|, used);
      assert ps == [Pick(lo, j)] + ps[1..];
    }
  }

  lemma GreedyThrows(s: seq<PricedIntent>, lo: nat, used: set<string>)
    requires lo < |s| && s[lo].id !in used && FirstFit(s, lo, 0, used).Threw?
    requires exists f: nat :: FirstAnswer(s, lo, f, used) && MatchPricedPair(s[lo], s[f]) == RangeError
    ensures Greedy(s, lo, used).None? && forall ps :: !FirstFitPicks(s, ps, lo, |s|, used)
  {
    var f: nat :| FirstAnswer(s, lo, f, used) && MatchPricedPair(s[lo], s[f]) == RangeError;
    forall ps: seq<Pick> ensures !FirstFitPicks(s, ps, lo, |s|, used) {
      if FirstFitPicks(s, ps, lo, |s|, used) {
        PickFirst(s, ps, lo, |s|, f, used);
      }
    }
  }

  /** All about the outcome for a whole list. */
  lemma PricedExactly(s: seq<PricedIntent>)
    ensures Greedy(s, 0, {}).Some? <==> exists ps :: FirstFitPicks(s, ps, 0, |s|, {})
    ensures forall ps :: FirstFitPicks(s, ps, 0, |s|, {}) ==> Greedy(s, 0, {}) == Some(ps) && AllCrossing(s, ps)
    ensures Greedy(s, 0, {}).None? ==> exists ps, i, j :: 0 <= i < |s| && StopsAt(s, ps, 0, i, j, {})
  {
    GreedyExactly(s, 0, {});
    GreedyCrosses(s, 0, {});
    if Greedy(s, 0, {}).None? {
      var ps, i, j := GreedyStops(s, 0, {});
    }
  }

  /** The recursion stops where the first-fit loop does. */
  lemma {:induction false} GreedyStops(s: seq<PricedIntent>, lo: nat, used: set<string>) returns (ps: seq<Pick>, i: nat, j: nat)
    requires lo <= |s| && Greedy(s, lo, used).None?
    ensures lo <= i < |s| && StopsAt(s, ps, lo, i, j, used)
    decreases |s| - lo
  {
    ScanExactly(s, lo, 0, used);
    var scan := FirstFit(s, lo, 0, used);
    if s[lo].id in used || scan.NotFound? {
      ps, i, j := GreedyStops(s, lo + 1, used);
      PassOn(s, ps, lo, i, used);
    } else if scan.Found? {
      var used' := used + {s[lo].id, s[scan.j].id};
      var tail;
      tail, i, j := GreedyStops(s, lo + 1, used');
      StopsLater(s, tail, lo, i, j, scan.j, used);
      ps := [Pick(lo, scan.j)] + tail;
    } else {
      j :| FirstAnswer(s, lo, j, used) && MatchPricedPair(s[lo], s[j]) == RangeError;
      ps, i := [], lo;
      assert Taken(s, ps, 0) == {};
    }
  }

  /** Putting the first pick in front. */
  lemma StopsLater(s: seq<PricedIntent>, tail: seq<Pick>, lo: nat, i: nat, j: nat, f: nat, used: set<string>)
    requires lo < i < |s| && s[lo].id !in used && FirstAnswer(s, lo, f, used) && MatchPricedPair(s[lo], s[f]).Crossed?
    requires StopsAt(s, tail, lo + 1, i, j, used + {s[lo].id, s[f].id})
    ensures StopsAt(s, [Pick(lo, f)] + tail, lo, i, j, used)
  {
    PickOn(s, tail, lo, i, f, used);
    var ps := [Pick(lo, f)] + tail;
    TakenShift(s, ps, |tail|, used);
    assert ps[1..] == tail;
  }

  // ----- the program -----

  /** `matchPricedIntents`; None when a division by zero throws. */
  method MatchPricedIntents(intents: seq<PricedIntent>) returns (out: Option<seq<PricedMatch>>)
    ensures var g := Greedy(intents, 0, {});
            && out.Some? == g.Some?
            && (g.Some? ==> AllCrossing(intents, g.value) && out == Some(Render(intents, g.value)))
  {
    GreedyCrosses(intents, 0, {});
    var ms: seq<PricedMatch> := [];
    var used: set<string> := {};
    ghost var picks: seq<Pick> := [];
    ghost var goal := Greedy(intents, 0, {});
    assert goal.Some? ==> picks + goal.value == goal.value;
    for i := 0 to |intents|
      invariant AllCrossing(intents, picks) && ms == Render(intents, picks)
      invariant goal == Prepend(picks, Greedy(intents, i, used))
    {
      if intents[i].id !in used {
        var j := 0;
        while j < |intents|
          invariant j <= |intents| && FirstFit(intents, i, 0, used) == FirstFit(intents, i, j, used)
        {
          if i != j && intents[j].id !in used {
            match MatchPricedPair(intents[i], intents[j]) {
              case NoMatch =>
              case RangeError => return None;
              case Crossed(m) =>
                ms := ms + [m];
                used := used + {intents[i].id, intents[j].id};
                PrependSnoc(picks, Pick(i, j), Greedy(intents, i + 1, used));
                picks := picks + [Pick(i, j)];
                break;
            }
          }
          j := j + 1;
        }
      }
    }
    assert picks + [] == picks;
    return Some(ms);
  }

  ghost function Prepend(ps: seq<Pick>, rest: Option<seq<Pick>>): Option<seq<Pick>> {
    if rest.None? then None else Some(ps + rest.value)
  }

  lemma PrependSnoc(ps: seq<Pick>, p: Pick, rest: Option<seq<Pick>>)
    ensures Prepend(ps + [p], rest) == if rest.None? then None else Some(ps + ([p] + rest.value))
  {
    if rest.Some? {
      assert (ps + [p]) + rest.value == ps + ([p] + rest.value);
    }
  }

  // ----- conservation over a whole batch -----

  function Contribution(i: PricedIntent, ids: set<string>, asset: string): int {
    if i.id in ids && i.inAsset == asset then i.amount else 0
  }

  /** What the intents with the given ids spend of an asset. */
  function Spent(s: seq<PricedIntent>, ids: set<string>, asset: string): int {
    if s == [] then 0
    else Spent(s[..|s| - 1], ids, asset) + Contribution(s[|s| - 1], ids, asset)
  }

  /** What the parties of the matches receive of an asset. */
  function Delivered(ms: seq<PricedMatch>, asset: string): int {
    if ms == [] then 0
    else
      (if ms[0].outAssetA == asset then ms[0].amountB else 0)
      + (if ms[0].outAssetB == asset then ms[0].amountA else 0)
      + Delivered(ms[1..], asset)
  }

  lemma {:induction false} SpentUntouched(s: seq<PricedIntent>, ids: set<string>, id: string, asset: string)
    requires forall k :: 0 <= k < |s| ==> s[k].id != id
    ensures Spent(s, ids + {id}, asset) == Spent(s, ids, asset)
  {
    if s != [] {
      SpentUntouched(s[..|s| - 1], ids, id, asset);
    }
  }

  lemma {:induction false} SpentAdd(s: seq<PricedIntent>, ids: set<string>, k: nat, asset: string)
    requires UniquePricedIds(s) && k < |s| && s[k].id !in ids
    ensures Spent(s, ids + {s[k].id}, asset) == Spent(s, ids, asset) + (if s[k].inAsset == asset then s[k].amount else 0)
  {
    var t := s[..|s| - 1];
    if k == |s| - 1 {
      SpentUntouched(t, ids, s[k].id, asset);
    } else {
      SpentAdd(t, ids, k, asset);
    }
  }

  lemma {:induction false} SpentNothing(s: seq<PricedIntent>, asset: string)
    ensures Spent(s, {}, asset) == 0
  {
    if s != [] {
      SpentNothing(s[..|s| - 1], asset);
    }
  }

  /** A crossed pair swaps exactly what the two intents spend. */
  lemma PairConserves(a: PricedIntent, b: PricedIntent)
    requires MatchPricedPair(a, b).Crossed?
    ensures var m := MatchPricedPair(a, b).m;
            && m.amountA == a.amount && m.amountB == b.amount
            && m.outAssetA == b.inAsset && m.outAssetB == a.inAsset
  {
  }

  lemma {:induction false} PicksConserve(s: seq<PricedIntent>, ps: seq<Pick>, used: set<string>, asset: string)
    requires UniquePricedIds(s) && AllCrossing(s, ps) && PicksApart(s, ps, used)
    ensures Spent(s, used + PickIds(s, ps), asset) == Spent(s, used, asset) + Delivered(Render(s, ps), asset)
  {
    if ps == [] {
      assert used + PickIds(s, ps) == used;
    } else {
      var p := ps[0];
      assert Crossing(s, p);
      var a, b := s[p.i], s[p.j];
      var used' := used + {a.id, b.id};
      SpentAdd(s, used, p.i, asset);
      SpentAdd(s, used + {a.id}, p.j, asset);
      assert used' == used + {a.id} + {b.id};
      PairConserves(a, b);
      PicksConserve(s, ps[1..], used', asset);
      assert Render(s, ps)[1..] == Render(s, ps[1..]);
      assert used + PickIds(s, ps) == used' + PickIds(s, ps[1..]);
    }
  }

  /** Whole-batch conservation: of every asset, the matched intents spend
      exactly what the matches deliver. */
  lemma BatchConserves(s: seq<PricedIntent>, asset: string)
    requires UniquePricedIds(s) && Greedy(s, 0, {}).Some?
    ensures var ps := Greedy(s, 0, {}).value;
            AllCrossing(s, ps) && Spent(s, PickIds(s, ps), asset) == Delivered(Render(s, ps), asset)
  {
    GreedyPicks(s, 0, {});
    var ps := Greedy(s, 0, {}).value;
    SpentNothing(s, asset);
    PicksConserve(s, ps, {}, asset);
    assert {} + PickIds(s, ps) == PickIds(s, ps);
  }

  // ----- a batch of positive amounts -----

  predicate AllPositive(s: seq<PricedIntent>) { forall i :: 0 <= i < |s| ==> s[i].amount > 0 }

  lemma {:induction false} FitNeverThrows(s: seq<PricedIntent>, i: nat, j: nat, used: set<string>)
    requires AllPositive(s) && i < |s| && j <= |s|
    ensures !FirstFit(s, i, j, used).Threw?
    decreases |s| - j
  {
    if j < |s| {
      PairMatchesIffCrosses(s[i], s[j]);
      FitNeverThrows(s, i, j + 1, used);
    }
  }

  lemma {:induction false} GreedyNeverThrows(s: seq<PricedIntent>, i: nat, used: set<string>)
    requires AllPositive(s) && i <= |s|
    ensures Greedy(s, i, used).Some?
    decreases |s| - i
  {
    if i < |s| {
      FitNeverThrows(s, i, 0, used);
      var scan := FirstFit(s, i, 0, used);
      if s[i].id !in used && scan.Found? {
        GreedyNeverThrows(s, i + 1, used + {s[i].id, s[scan.j].id});
      } else {
        GreedyNeverThrows(s, i + 1, used);
      }
    }
  }

  /** With positive amounts the matcher never throws, and every match of the batch
      keeps both minimum outputs, B's limit exactly, and A's up to less than one
      base unit. */
  lemma BatchCrosses(s: seq<PricedIntent>)
    requires AllPositive(s)
    ensures Greedy(s, 0, {}).Some?
    ensures var ps := Greedy(s, 0, {}).value;
      AllCrossing(s, ps) && forall k :: 0 <= k < |ps| ==> Crossing(s, ps[k]) && Crosses(s[ps[k].i], s[ps[k].j])
  {
    GreedyNeverThrows(s, 0, {});
    GreedyCrosses(s, 0, {});
    var ps := Greedy(s, 0, {}).value;
    forall k | 0 <= k < |ps| ensures Crossing(s, ps[k]) && Crosses(s[ps[k].i], s[ps[k].j]) {
      PairMatchesIffCrosses(s[ps[k].i], s[ps[k].j]);
    }
  }
}
