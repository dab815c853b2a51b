/** What the netting matcher's result is worth, among all the ways the same
    intents could be paired: it is a valid matching, no valid matching is
    larger, and no other pairing of the same participants nets more. */
module NettingOptimal {
  import opened Finite
  import opened Netting

  // ----- valid matchings -----

  predicate PairsDisjoint(p: Pair, q: Pair) {
    p.a.id != q.a.id && p.a.id != q.b.id && p.b.id != q.a.id && p.b.id != q.b.id
  }

  /** No intent occurs twice. */
  predicate Apart(ps: seq<Pair>) {
    && (forall i :: 0 <= i < |ps| ==> ps[i].a.id != ps[i].b.id)
    && (forall i, j :: 0 <= i < j < |ps| ==> PairsDisjoint(ps[i], ps[j]))
  }

  /** Two submitted intents that want each other's asset. */
  predicate Complementary(s: seq<Intent>, p: Pair) {
    p.a in s && p.b in s && KeyOf(p.b) == Rev(KeyOf(p.a))
  }

  predicate IsMatching(s: seq<Intent>, ps: seq<Pair>) {
    Apart(ps) && forall p :: p in ps ==> Complementary(s, p)
  }

  predicate OutsideIds(p: Pair, used: set<string>) {
    p.a.id !in used && p.b.id !in used
  }

  lemma {:induction false} WalkApart(a: seq<Intent>, b: seq<Intent>, ai: nat, bi: nat, used: set<string>)
    requires ai <= |a| && bi <= |b|
    ensures Apart(Walk(a, b, ai, bi, used))
    ensures forall p :: p in Walk(a, b, ai, bi, used) ==> OutsideIds(p, used)
    decreases |a| - ai + |b| - bi
  {
    if ai < |a| && bi < |b| {
      if a[ai].id in used {
        WalkApart(a, b, ai + 1, bi, used);
      } else if b[bi].id in used || a[ai].id == b[bi].id {
        WalkApart(a, b, ai, bi + 1, used);
      } else {
        var used' := used + {a[ai].id, b[bi].id};
        WalkApart(a, b, ai + 1, bi + 1, used');
        var rest := Walk(a, b, ai + 1, bi + 1, used');
        forall i | 0 <= i < |rest| ensures PairsDisjoint(Pair(a[ai], b[bi]), rest[i]) {
          assert OutsideIds(rest[i], used');
        }
        assert Walk(a, b, ai, bi, used) == [Pair(a[ai], b[bi])] + rest;
      }
    }
  }

  lemma ApartAppend(ps: seq<Pair>, qs: seq<Pair>)
    requires Apart(ps) && Apart(qs) && forall p :: p in qs ==> OutsideIds(p, Ids(ps))
    ensures Apart(ps + qs)
  {
    forall i, j | 0 <= i < |ps| && 0 <= j < |qs| ensures PairsDisjoint(ps[i], qs[j]) {
      IdsHas(ps, i);
      assert OutsideIds(qs[j], Ids(ps));
    }
  }

  lemma {:induction false} VisitsApart(s: seq<Intent>, sort: Sorter, ks: seq<Key>, n: nat)
    requires n <= |ks|
    ensures Apart(Visits(s, sort, ks, n))
  {
    if n > 0 {
      VisitsApart(s, sort, ks, n - 1);
      var ps := Visits(s, sort, ks, n - 1);
      var k := ks[n - 1];
      if Group(s, Rev(k)) != [] {
        WalkApart(SortedGroup(s, sort, k), SortedGroup(s, sort, Rev(k)), 0, 0, Ids(ps));
      }
      ApartAppend(ps, Visit(s, sort, k, Ids(ps)));
    }
  }

  /** The matcher pairs distinct complementary intents and uses none twice. */
  lemma PairsAreMatching(s: seq<Intent>, sort: Sorter)
    requires UniqueIds(s) && IsSorter(sort)
    ensures IsMatching(s, Pairs(s, sort))
  {
    var ks := KeyOrder(s);
    VisitsAreSimple(s, sort);
    VisitsApart(s, sort, ks, |ks|);
    forall p | p in Pairs(s, sort) ensures Complementary(s, p) {
      var i := PairOrigin(s, sort, ks, |ks|, p);
    }
  }

  // ----- counting the pairs of one asset pair -----

  predicate SetApart(m: set<Pair>) {
    && (forall p :: p in m ==> p.a.id != p.b.id)
    && (forall p, q :: p in m && q in m && p != q ==> PairsDisjoint(p, q))
  }

  /** The side of p that sells the input asset of k. */
  function Side(p: Pair, k: Key): Intent {
    if KeyOf(p.a) == k then p.a else p.b
  }

  ghost predicate OnPair(m: set<Pair>, k: Key) {
    forall p :: p in m ==> (KeyOf(p.a) == k && KeyOf(p.b) == Rev(k)) || (KeyOf(p.b) == k && KeyOf(p.a) == Rev(k))
  }

  /** Pairs of the asset pair k inject into its side k. */
  lemma CrossBound(m: set<Pair>, k: Key, side: set<Intent>)
    requires SetApart(m) && OnPair(m, k) && forall p :: p in m ==> Side(p, k) in side
    ensures |m| <= |side|
  {
    var f := p => Side(p, k);
    forall p, q | p in m && q in m && f(p) == f(q) ensures p == q {
      assert !PairsDisjoint(p, q);
    }
    InjectionCard(m, side, f);
  }

  /** Within one group every pair takes two members. */
  lemma {:induction false} SelfBound(m: set<Pair>, group: set<Intent>)
    requires SetApart(m) && forall p :: p in m ==> p.a in group && p.b in group
    ensures 2 * |m| <= |group|
    decreases |m|
  {
    if m != {} {
      var p :| p in m;
      var m', group' := m - {p}, group - {p.a, p.b};
      forall q | q in m' ensures q.a in group' && q.b in group' {
        assert PairsDisjoint(p, q);
      }
      SelfBound(m', group');
      assert group == group' + {p.a, p.b};
      assert |{p.a, p.b}| == 2;
    }
  }

  /** The key under which the matcher would produce p. */
  function Owner(ks: seq<Key>, p: Pair): Key {
    if Leads(ks, KeyOf(p.a)) then KeyOf(p.a) else KeyOf(p.b)
  }

  ghost function Owned(m: set<Pair>, ks: seq<Key>, k: Key): set<Pair> {
    set p | p in m && Owner(ks, p) == k
  }

  ghost function OwnedTo(m: set<Pair>, ks: seq<Key>, n: nat): set<Pair>
    requires n <= |ks|
  {
    set p | p in m && Owner(ks, p) in ks[..n]
  }

  lemma OwnedStep(m: set<Pair>, ks: seq<Key>, n: nat)
    requires 0 < n <= |ks| && NoRepeat(ks)
    ensures |OwnedTo(m, ks, n)| == |OwnedTo(m, ks, n - 1)| + |Owned(m, ks, ks[n - 1])|
  {
    assert ks[..n] == ks[..n - 1] + [ks[n - 1]];
    assert OwnedTo(m, ks, n) == OwnedTo(m, ks, n - 1) + Owned(m, ks, ks[n - 1]);
    assert OwnedTo(m, ks, n - 1) !! Owned(m, ks, ks[n - 1]);
  }

  ghost predicate SetMatching(s: seq<Intent>, m: set<Pair>) {
    SetApart(m) && forall p :: p in m ==> Complementary(s, p)
  }

  lemma KeyOccurs(s: seq<Intent>, x: Intent)
    requires x in s
    ensures KeyOf(x) in KeyOrder(s)
  {
    GroupMembers(s, KeyOf(x));
    GroupNonempty(s, KeyOf(x));
  }

  /** Pairs owned by k lie on the asset pair k; unless k is a same-asset key,
      k leads it. */
  lemma OwnedOnPair(s: seq<Intent>, m: set<Pair>, k: Key)
    requires SetMatching(s, m)
    ensures OnPair(Owned(m, KeyOrder(s), k), k)
    ensures k != Rev(k) && !Leads(KeyOrder(s), k) ==> Owned(m, KeyOrder(s), k) == {}
    ensures OwnedTo(m, KeyOrder(s), |KeyOrder(s)|) == m
  {
    var ks := KeyOrder(s);
    KeyOrderNoRepeat(s);
    forall p | p in m ensures Owner(ks, p) in ks && (Owner(ks, p) != Rev(Owner(ks, p)) ==> Leads(ks, Owner(ks, p))) {
      assert Complementary(s, p);
      KeyOccurs(s, p.a);
      KeyOccurs(s, p.b);
      if !Leads(ks, KeyOf(p.a)) && KeyOf(p.a) != Rev(KeyOf(p.a)) {
        var n :| 0 <= n < |ks| && ks[n] == KeyOf(p.a);
        var i := FollowerComesSecond(ks, n);
      }
    }
    assert ks[..|ks|] == ks;
  }

  // ----- the largest matching -----

  lemma SeqSetCard<T>(t: seq<T>)
    ensures |set x | x in t| <= |t|
  {
    if t != [] {
      var r := t[..|t| - 1];
      SeqSetCard(r);
      assert (set x | x in t) == (set x | x in r) + {t[|t| - 1]};
    }
  }

  lemma OwnedCountBound(s: seq<Intent>, sort: Sorter, m: set<Pair>, k: Key)
    requires UniqueIds(s) && IsSorter(sort) && SetMatching(s, m)
    ensures |Owned(m, KeyOrder(s), k)| <= |PairsFor(s, sort, KeyOrder(s), k)|
  {
    var ks := KeyOrder(s);
    var own := Owned(m, ks, k);
    var a, b := SortedGroup(s, sort, k), SortedGroup(s, sort, Rev(k));
    OwnedOnPair(s, m, k);
    SortedGroupFacts(s, sort, k);
    SortedGroupFacts(s, sort, Rev(k));
    forall p | p in own ensures Side(p, k) in a && Side(p, Rev(k)) in b {
      assert Complementary(s, p);
    }
    SeqSetCard(a);
    SeqSetCard(b);
    if k == Rev(k) {
      SelfBound(own, set x | x in a);
    } else if Leads(ks, k) {
      CrossBound(own, k, set x | x in a);
      CrossBound(own, Rev(k), set x | x in b);
    }
  }

  ghost predicate PartBound(m: set<Pair>, ks: seq<Key>, sizes: seq<nat>, i: nat) {
    i < |ks| == |sizes| && |Owned(m, ks, ks[i])| <= sizes[i]
  }

  function Total(sizes: seq<nat>, n: nat): nat
    requires n <= |sizes|
  {
    if n == 0 then 0 else Total(sizes, n - 1) + sizes[n - 1]
  }

  /** A matching whose part of each key is bounded is bounded by the sum. */
  lemma {:induction false} OwnedTotalBound(m: set<Pair>, ks: seq<Key>, sizes: seq<nat>, n: nat)
    requires n <= |ks| == |sizes| && NoRepeat(ks)
    requires forall i: nat {:trigger PartBound(m, ks, sizes, i)} :: i < n ==> PartBound(m, ks, sizes, i)
    ensures |OwnedTo(m, ks, n)| <= Total(sizes, n)
  {
    if n == 0 {
      assert OwnedTo(m, ks, 0) == {};
    } else {
      OwnedTotalBound(m, ks, sizes, n - 1);
      OwnedStep(m, ks, n);
      assert PartBound(m, ks, sizes, n - 1);
    }
  }

  function Sizes(parts: seq<seq<Pair>>): (sizes: seq<nat>)
    ensures |sizes| == |parts| && forall i :: 0 <= i < |parts| ==> sizes[i] == |parts[i]|
  {
    seq(|parts|, i requires 0 <= i < |parts| => |parts[i]|)
  }

  lemma {:induction false} FlattenSize(parts: seq<seq<Pair>>, n: nat)
    requires n <= |parts|
    ensures |Flatten(parts, n)| == Total(Sizes(parts), n)
  {
    if n > 0 {
      FlattenSize(parts, n - 1);
    }
  }

  lemma MatchingSet(s: seq<Intent>, ps: seq<Pair>)
    requires IsMatching(s, ps)
    ensures SetMatching(s, set p | p in ps) && |set p | p in ps| == |ps|
  {
    forall i, j | 0 <= i < j < |ps| ensures ps[i] != ps[j] {
      assert PairsDisjoint(ps[i], ps[j]);
    }
    DistinctSeqCard(ps);
    forall p, q | p in ps && q in ps && p != q ensures PairsDisjoint(p, q) {
      var i :| 0 <= i < |ps| && ps[i] == p;
      var j :| 0 <= j < |ps| && ps[j] == q;
      assert PairsDisjoint(ps[if i < j then i else j], ps[if i < j then j else i]);
    }
  }

  /** No valid disjoint complementary pairing has more pairs. */
  lemma MaximumCardinality(s: seq<Intent>, sort: Sorter, other: seq<Pair>)
    requires UniqueIds(s) && IsSorter(sort) && IsMatching(s, other)
    ensures |other| <= |Pairs(s, sort)|
  {
    var m := set p | p in other;
    MatchingSet(s, other);
    var ks := KeyOrder(s);
    KeyOrderNoRepeat(s);
    var parts := Parts(s, sort, ks);
    forall i: nat | i < |ks| ensures PartBound(m, ks, Sizes(parts), i) {
      OwnedCountBound(s, sort, m, ks[i]);
    }
    OwnedTotalBound(m, ks, Sizes(parts), |ks|);
    FlattenSize(parts, |ks|);
    OwnedOnPair(s, m, Key("", ""));
  }

  /** How many pairs each asset pair gets, over both visits of the outer loop. */
  lemma ExactCounts(s: seq<Intent>, sort: Sorter, k: Key)
    requires UniqueIds(s) && IsSorter(sort) && k in KeyOrder(s)
    ensures k == Rev(k) ==> |PairsFor(s, sort, KeyOrder(s), k)| == |Group(s, k)| / 2
    ensures k != Rev(k) ==> |PairsFor(s, sort, KeyOrder(s), k)| + |PairsFor(s, sort, KeyOrder(s), Rev(k))|
                            == Min(|Group(s, k)|, |Group(s, Rev(k))|)
  {
    var ks := KeyOrder(s);
    var a, b := SortedGroup(s, sort, k), SortedGroup(s, sort, Rev(k));
    KeyOrderNoRepeat(s);
    SortedGroupFacts(s, sort, k);
    SortedGroupFacts(s, sort, Rev(k));
    GroupNonempty(s, Rev(k));
    if k != Rev(k) {
      var n :| 0 <= n < |ks| && ks[n] == k;
      if !Leads(ks, k) {
        var i := FollowerComesSecond(ks, n);
      } else if Rev(k) in ks {
        SecondGetsNone(ks, k);
      }
    }
  }

  // ----- the largest netted amount -----

  function NettedAmount(p: Pair): int { Min(p.a.amount, p.b.amount) }

  function TotalNetted(ps: seq<Pair>): int {
    if ps == [] then 0 else TotalNetted(ps[..|ps| - 1]) + NettedAmount(ps[|ps| - 1])
  }

  /** What the pairs net above lo each. */
  function Surplus(ps: seq<Pair>, lo: int): int {
    if ps == [] then 0 else Surplus(ps[..|ps| - 1], lo) + (NettedAmount(ps[|ps| - 1]) - lo)
  }

  /** Both sides are at least v. */
  predicate Above(p: Pair, v: int) { NettedAmount(p) >= v }

  function CountAbove(ps: seq<Pair>, v: int): nat {
    if ps == [] then 0 else CountAbove(ps[..|ps| - 1], v) + (if Above(ps[|ps| - 1], v) then 1 else 0)
  }

  /** How many pairs reach each of the n levels above lo, summed up. */
  function Layers(ps: seq<Pair>, lo: int, n: nat): nat {
    if n == 0 then 0 else Layers(ps, lo, n - 1) + CountAbove(ps, lo + n)
  }

  lemma {:induction false} LayersSnoc(ps: seq<Pair>, p: Pair, lo: int, n: nat)
    requires lo <= NettedAmount(p)
    ensures Layers(ps + [p], lo, n) == Layers(ps, lo, n) + Min(NettedAmount(p) - lo, n)
  {
    if n > 0 {
      LayersSnoc(ps, p, lo, n - 1);
      assert (ps + [p])[..|ps|] == ps;
    }
  }

  /** Summing amounts is summing how many pairs reach each level. */
  lemma {:induction false} LayerCake(ps: seq<Pair>, lo: int, n: nat)
    requires forall i :: 0 <= i < |ps| ==> lo <= NettedAmount(ps[i]) <= lo + n
    ensures Surplus(ps, lo) == Layers(ps, lo, n)
  {
    if ps == [] {
      LayersEmpty(lo, n);
    } else {
      var qs, p := ps[..|ps| - 1], ps[|ps| - 1];
      assert ps == qs + [p];
      LayerCake(qs, lo, n);
      LayersSnoc(qs, p, lo, n);
    }
  }

  lemma {:induction false} LayersEmpty(lo: int, n: nat)
    ensures Layers([], lo, n) == 0
  {
    if n > 0 {
      LayersEmpty(lo, n - 1);
    }
  }

  ghost function AboveSet(ps: seq<Pair>, v: int): set<Pair> {
    set p | p in ps && Above(p, v)
  }

  lemma {:induction false} CountAboveSet(ps: seq<Pair>, v: int)
    requires forall i, j :: 0 <= i < j < |ps| ==> ps[i] != ps[j]
    ensures |AboveSet(ps, v)| == CountAbove(ps, v)
  {
    if ps != [] {
      var qs, p := ps[..|ps| - 1], ps[|ps| - 1];
      CountAboveSet(qs, v);
      assert ps == qs + [p];
      assert AboveSet(ps, v) == AboveSet(qs, v) + (if Above(p, v) then {p} else {});
    }
  }

  lemma {:induction false} CountAboveAppend(ps: seq<Pair>, qs: seq<Pair>, v: int)
    ensures CountAbove(ps + qs, v) == CountAbove(ps, v) + CountAbove(qs, v)
  {
    if qs == [] {
      assert ps + qs == ps;
    } else {
      CountAboveAppend(ps, qs[..|qs| - 1], v);
      assert (ps + qs)[..|ps + qs| - 1] == ps + qs[..|qs| - 1];
    }
  }

  /** If exactly the pairs from position c on are above v, they are counted. */
  lemma {:induction false} CountSuffix(ps: seq<Pair>, v: int, c: nat)
    requires c <= |ps| && forall i :: 0 <= i < |ps| ==> (Above(ps[i], v) <==> i >= c)
    ensures CountAbove(ps, v) == |ps| - c
  {
    if ps != [] {
      var qs := ps[..|ps| - 1];
      CountSuffix(qs, v, if c == |ps| then c - 1 else c);
    }
  }

  /** Where the amounts of a sorted prefix reach v. */
  function Cut(a: seq<Intent>, n: nat, v: int): (c: nat)
    requires n <= |a|
    ensures c <= n
  {
    if n == 0 then 0 else if a[n - 1].amount < v then n else Cut(a, n - 1, v)
  }

  lemma {:induction false} CutSplits(a: seq<Intent>, n: nat, v: int)
    requires n <= |a| && Sorted(a)
    ensures forall i :: 0 <= i < n ==> (a[i].amount >= v <==> i >= Cut(a, n, v))
  {
    if n > 0 && a[n - 1].amount >= v {
      CutSplits(a, n - 1, v);
    }
  }

  lemma ZipAbove(a: seq<Intent>, b: seq<Intent>, v: int)
    requires Sorted(a) && Sorted(b)
    ensures var n := Min(|a|, |b|);
            CountAbove(Zip(a, b), v) == Min(n - Cut(a, n, v), n - Cut(b, n, v))
  {
    var n, z := Min(|a|, |b|), Zip(a, b);
    CutSplits(a, n, v);
    CutSplits(b, n, v);
    CountSuffix(z, v, if Cut(a, n, v) < Cut(b, n, v) then Cut(b, n, v) else Cut(a, n, v));
  }

  lemma AdjacentAbove(a: seq<Intent>, v: int)
    requires Sorted(a)
    ensures var n := 2 * (|a| / 2);
            CountAbove(Adjacent(a), v) == (n - Cut(a, n, v)) / 2
  {
    var n, z := 2 * (|a| / 2), Adjacent(a);
    CutSplits(a, n, v);
    forall i | 0 <= i < |z| ensures Above(z[i], v) <==> 2 * i >= Cut(a, n, v) {
      assert a[2 * i].amount <= a[2 * i + 1].amount;
    }
    CountSuffix(z, v, (Cut(a, n, v) + 1) / 2);
  }

  predicate Participates(x: Intent, ps: seq<Pair>) {
    exists p :: p in ps && (p.a == x || p.b == x)
  }

  /** How many members of the group of k take part when k leads. */
  function Depth(s: seq<Intent>, sort: Sorter, k: Key): nat {
    var a, b := |SortedGroup(s, sort, k)|, |SortedGroup(s, sort, Rev(k))|;
    if k == Rev(k) then 2 * (a / 2) else if a < b then a else b
  }

  /** Exactly the smallest members of each side take part. */
  lemma ParticipantPrefix(s: seq<Intent>, sort: Sorter, k: Key, x: Intent)
    requires UniqueIds(s) && IsSorter(sort) && (k == Rev(k) || Leads(KeyOrder(s), k)) && k in KeyOrder(s)
    requires Participates(x, Pairs(s, sort)) && (KeyOf(x) == k || KeyOf(x) == Rev(k))
    ensures x in SortedGroup(s, sort, KeyOf(x))[..Depth(s, sort, k)]
  {
    var ks := KeyOrder(s);
    var p :| p in Pairs(s, sort) && (p.a == x || p.b == x);
    var h := PairOrigin(s, sort, ks, |ks|, p);
    var a, b := SortedGroup(s, sort, k), SortedGroup(s, sort, Rev(k));
    KeyOrderNoRepeat(s);
    KeyOccurs(s, p.a);
    if k != Rev(k) {
      if Rev(k) in ks {
        SecondGetsNone(ks, k);
      }
      assert KeyOf(p.a) == k;
      var j :| 0 <= j < |Zip(a, b)| && Zip(a, b)[j] == p;
    } else {
      var j :| 0 <= j < |Adjacent(a)| && Adjacent(a)[j] == p;
    }
  }

  /** Of a key and its reverse, only the first to occur leads. */
  lemma SecondGetsNone(ks: seq<Key>, k: Key)
    requires NoRepeat(ks) && k != Rev(k) && k in ks && Leads(ks, k) && Rev(k) in ks
    ensures !Leads(ks, Rev(k))
  {
    IndexFacts(ks, k);
    IndexFacts(ks, Rev(k));
  }

  /** Members of a sorted prefix that reach v are at most as many as the
      positions past the cut. */
  lemma PrefixAboveCard(a: seq<Intent>, n: nat, v: int, xs: set<Intent>)
    requires n <= |a| && Sorted(a) && forall x :: x in xs ==> x in a[..n] && x.amount >= v
    ensures |xs| <= n - Cut(a, n, v)
  {
    var c := Cut(a, n, v);
    var tail := a[c..n];
    CutSplits(a, n, v);
    forall x | x in xs ensures x in tail {
      var i :| 0 <= i < n && a[..n][i] == x;
      assert tail[i - c] == x;
    }
    SeqSetCard(tail);
    SubsetCard(xs, set x | x in tail);
  }

  ghost predicate WithinParticipants(m: set<Pair>, ps: seq<Pair>, v: int) {
    forall p :: p in m ==> Participates(p.a, ps) && Participates(p.b, ps) && Above(p, v)
  }

  lemma CrossAbove(own: set<Pair>, k: Key, a: seq<Intent>, d: nat, v: int)
    requires SetApart(own) && OnPair(own, k) && Sorted(a) && d <= |a|
    requires forall p :: p in own ==> Side(p, k) in a[..d] && Above(p, v)
    ensures |own| <= d - Cut(a, d, v)
  {
    var side := set p | p in own :: Side(p, k);
    CrossBound(own, k, side);
    PrefixAboveCard(a, d, v, side);
  }

  lemma CrossAboveBoth(own: set<Pair>, k: Key, a: seq<Intent>, b: seq<Intent>, d: nat, v: int)
    requires SetApart(own) && OnPair(own, k) && Sorted(a) && Sorted(b) && d == Min(|a|, |b|)
    requires forall p :: p in own ==> Side(p, k) in a[..d] && Side(p, Rev(k)) in b[..d] && Above(p, v)
    ensures |own| <= CountAbove(Zip(a, b), v)
  {
    CrossAbove(own, k, a, d, v);
    CrossAbove(own, Rev(k), b, d, v);
    ZipAbove(a, b, v);
  }

  lemma SelfAbove(own: set<Pair>, a: seq<Intent>, v: int)
    requires SetApart(own) && Sorted(a)
    requires forall p :: p in own ==> p.a in a[..2 * (|a| / 2)] && p.b in a[..2 * (|a| / 2)] && Above(p, v)
    ensures |own| <= CountAbove(Adjacent(a), v)
  {
    var both := (set p | p in own :: p.a) + (set p | p in own :: p.b);
    PrefixAboveCard(a, 2 * (|a| / 2), v, both);
    SelfBound(own, both);
    AdjacentAbove(a, v);
  }

  lemma OwnedInPrefix(s: seq<Intent>, sort: Sorter, p: Pair, k: Key)
    requires UniqueIds(s) && IsSorter(sort) && k in KeyOrder(s) && (k == Rev(k) || Leads(KeyOrder(s), k))
    requires Participates(p.a, Pairs(s, sort)) && Participates(p.b, Pairs(s, sort)) && OnPair({p}, k)
    ensures Side(p, k) in SortedGroup(s, sort, k)[..Depth(s, sort, k)]
    ensures Side(p, Rev(k)) in SortedGroup(s, sort, Rev(k))[..Depth(s, sort, k)]
    ensures k == Rev(k) ==> p.b in SortedGroup(s, sort, k)[..Depth(s, sort, k)]
  {
    assert p in {p};
    ParticipantPrefix(s, sort, k, p.a);
    ParticipantPrefix(s, sort, k, p.b);
  }

  lemma OwnedAboveBound(s: seq<Intent>, sort: Sorter, m: set<Pair>, k: Key, v: int)
    requires UniqueIds(s) && IsSorter(sort) && SetMatching(s, m) && k in KeyOrder(s)
    requires WithinParticipants(m, Pairs(s, sort), v)
    ensures |Owned(m, KeyOrder(s), k)| <= CountAbove(PairsFor(s, sort, KeyOrder(s), k), v)
  {
    var ks, d := KeyOrder(s), Depth(s, sort, k);
    var own := Owned(m, ks, k);
    OwnedOnPair(s, m, k);
    if k == Rev(k) || Leads(ks, k) {
      var a, b := SortedGroup(s, sort, k), SortedGroup(s, sort, Rev(k));
      assert Sorted(a) && Sorted(b);
      forall p | p in own
        ensures Side(p, k) in a[..d] && Side(p, Rev(k)) in b[..d] && (k == Rev(k) ==> p.b in a[..d])
      {
        OwnedInPrefix(s, sort, p, k);
      }
      if k == Rev(k) {
        SelfAbove(own, a, v);
      } else {
        CrossAboveBoth(own, k, a, b, d, v);
      }
    }
  }

  function SizesAbove(parts: seq<seq<Pair>>, v: int): (sizes: seq<nat>)
    ensures |sizes| == |parts| && forall i :: 0 <= i < |parts| ==> sizes[i] == CountAbove(parts[i], v)
  {
    seq(|parts|, i requires 0 <= i < |parts| => CountAbove(parts[i], v))
  }

  lemma {:induction false} FlattenAbove(parts: seq<seq<Pair>>, n: nat, v: int)
    requires n <= |parts|
    ensures CountAbove(Flatten(parts, n), v) == Total(SizesAbove(parts, v), n)
  {
    if n > 0 {
      FlattenAbove(parts, n - 1, v);
      CountAboveAppend(Flatten(parts, n - 1), parts[n - 1], v);
    }
  }

  /** The pairs are among the participants of ps. */
  ghost predicate Among(other: seq<Pair>, ps: seq<Pair>) {
    forall p :: p in other ==> Participates(p.a, ps) && Participates(p.b, ps)
  }

  /** At every level v, no rival pairing of the same participants has more
      pairs whose two sides both reach v. */
  lemma LevelBound(s: seq<Intent>, sort: Sorter, other: seq<Pair>, v: int)
    requires UniqueIds(s) && IsSorter(sort) && IsMatching(s, other)
    requires Among(other, Pairs(s, sort))
    ensures CountAbove(other, v) <= CountAbove(Pairs(s, sort), v)
  {
    var m := AboveSet(other, v);
    MatchingSet(s, other);
    forall i, j | 0 <= i < j < |other| ensures other[i] != other[j] {
      assert PairsDisjoint(other[i], other[j]);
    }
    CountAboveSet(other, v);
    var ks := KeyOrder(s);
    KeyOrderNoRepeat(s);
    var parts := Parts(s, sort, ks);
    forall i: nat | i < |ks| ensures PartBound(m, ks, SizesAbove(parts, v), i) {
      OwnedAboveBound(s, sort, m, ks[i], v);
    }
    OwnedTotalBound(m, ks, SizesAbove(parts, v), |ks|);
    FlattenAbove(parts, |ks|, v);
    OwnedOnPair(s, m, Key("", ""));
  }

  /** Level by level fewer pairs, fewer in all. */
  lemma {:induction false} LayersBound(ps: seq<Pair>, qs: seq<Pair>, lo: int, n: nat)
    requires forall v :: CountAbove(ps, v) <= CountAbove(qs, v)
    ensures Layers(ps, lo, n) <= Layers(qs, lo, n)
  {
    if n > 0 {
      LayersBound(ps, qs, lo, n - 1);
    }
  }

  lemma {:induction false} AmountBounds(s: seq<Intent>) returns (lo: int, hi: int)
    ensures lo <= hi && forall x :: x in s ==> lo <= x.amount <= hi
  {
    lo, hi := 0, 0;
    if s != [] {
      lo, hi := AmountBounds(s[..|s| - 1]);
      var x := s[|s| - 1].amount;
      assert s == s[..|s| - 1] + [s[|s| - 1]];
      lo, hi := if x < lo then x else lo, if x > hi then x else hi;
    }
  }

  lemma NettedWithin(s: seq<Intent>, ps: seq<Pair>, lo: int, hi: int)
    requires IsMatching(s, ps) && forall x :: x in s ==> lo <= x.amount <= hi
    ensures forall i :: 0 <= i < |ps| ==> lo <= NettedAmount(ps[i]) <= hi
  {
    assert forall i :: 0 <= i < |ps| ==> Complementary(s, ps[i]);
  }

  /** Optimality: over the whole batch, no valid pairing of intents that the
      matcher paired has a larger total surplus over a floor lo of all amounts. */
  lemma SurplusBound(s: seq<Intent>, sort: Sorter, other: seq<Pair>, lo: int)
    requires UniqueIds(s) && IsSorter(sort) && IsMatching(s, other)
    requires forall x :: x in s ==> lo <= x.amount
    requires Among(other, Pairs(s, sort))
    ensures Surplus(other, lo) <= Surplus(Pairs(s, sort), lo)
  {
    var _, hi := AmountBounds(s);
    var n: nat := if hi < lo then 0 else hi - lo;
    PairsAreMatching(s, sort);
    NettedWithin(s, other, lo, hi);
    NettedWithin(s, Pairs(s, sort), lo, hi);
    LayerCake(other, lo, n);
    LayerCake(Pairs(s, sort), lo, n);
    forall v ensures CountAbove(other, v) <= CountAbove(Pairs(s, sort), v) {
      LevelBound(s, sort, other, v);
    }
    LayersBound(other, Pairs(s, sort), lo, n);
  }
}
