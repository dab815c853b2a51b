/** Optimality among all pairings of the same participants: the netting matcher
    nets the largest total amount and leaves the least total gap. */
module NettingGap {
  import opened Netting
  import opened NettingOptimal
  import opened NettingOrder

  function Gap(p: Pair): int { if p.a.amount < p.b.amount then p.b.amount - p.a.amount else p.a.amount - p.b.amount }

  function TotalGap(ps: seq<Pair>): int {
    if ps == [] then 0 else TotalGap(ps[..|ps| - 1]) + Gap(ps[|ps| - 1])
  }

  /** Everybody in the pairs. */
  function Members(ps: seq<Pair>): seq<Intent> {
    if ps == [] then [] else Members(ps[..|ps| - 1]) + [ps[|ps| - 1].a] + [ps[|ps| - 1].b]
  }

  function Sum(x: seq<int>): int {
    if x == [] then 0 else Sum(x[..|x| - 1]) + x[|x| - 1]
  }

  lemma SumSnoc(x: seq<int>, v: int)
    ensures Sum(x + [v]) == Sum(x) + v
  {
    assert (x + [v])[..|x|] == x;
  }

  lemma {:induction false} SumRemove(x: seq<int>, j: nat)
    requires j < |x|
    ensures Sum(x) == Sum(x[..j] + x[j + 1..]) + x[j]
  {
    var init, last := x[..|x| - 1], x[|x| - 1];
    if j == |x| - 1 {
      assert x[..j] + x[j + 1..] == init;
    } else {
      SumRemove(init, j);
      assert x[..j] + x[j + 1..] == (init[..j] + init[j + 1..]) + [last];
      SumSnoc(init[..j] + init[j + 1..], last);
    }
  }

  lemma {:induction false} SumMultiset(x: seq<int>, y: seq<int>)
    requires multiset(x) == multiset(y)
    ensures Sum(x) == Sum(y)
  {
    if x == [] {
      assert |multiset(y)| == 0;
    } else {
      var init, last := x[..|x| - 1], x[|x| - 1];
      DropLast(x);
      assert last in multiset(y);
      var j :| 0 <= j < |y| && y[j] == last;
      RemoveAt(y, j);
      Cancel(multiset(init), multiset(y[..j] + y[j + 1..]), last);
      SumMultiset(init, y[..j] + y[j + 1..]);
      SumRemove(y, j);
    }
  }

  /** Gaps and twice the netted amounts add up to everything brought in. */
  lemma {:induction false} GapSum(ps: seq<Pair>)
    ensures TotalGap(ps) + 2 * TotalNetted(ps) == Sum(Amounts(Members(ps)))
  {
    if ps != [] {
      var init, last := ps[..|ps| - 1], ps[|ps| - 1];
      GapSum(init);
      var x := Amounts(Members(init));
      assert Amounts(Members(ps)) == x + [last.a.amount] + [last.b.amount];
      SumSnoc(x, last.a.amount);
      SumSnoc(x + [last.a.amount], last.b.amount);
    }
  }

  lemma {:induction false} MembersParticipate(ps: seq<Pair>, x: Intent)
    ensures x in Members(ps) <==> Participates(x, ps)
  {
    if ps != [] {
      var init, last := ps[..|ps| - 1], ps[|ps| - 1];
      MembersParticipate(init, x);
      assert ps == init + [last];
      if Participates(x, init) {
        var p :| p in init && (p.a == x || p.b == x);
        assert p in ps;
      }
      assert last in ps;
    }
  }

  lemma {:induction false} MembersUnique(ps: seq<Pair>)
    requires Apart(ps)
    ensures UniqueIds(Members(ps))
  {
    if ps != [] {
      var init, last := ps[..|ps| - 1], ps[|ps| - 1];
      MembersUnique(init);
      forall x | x in Members(init) ensures x.id != last.a.id && x.id != last.b.id {
        MembersParticipate(init, x);
        var p :| p in init && (p.a == x || p.b == x);
        var i :| 0 <= i < |init| && init[i] == p;
        assert PairsDisjoint(ps[i], ps[|ps| - 1]);
      }
    }
  }

  /** The same participants bring in the same amounts. */
  lemma SameMembers(ps: seq<Pair>, qs: seq<Pair>)
    requires Apart(ps) && Apart(qs) && forall x :: Participates(x, ps) <==> Participates(x, qs)
    ensures multiset(Members(ps)) == multiset(Members(qs))
  {
    forall x ensures multiset(Members(ps))[x] == multiset(Members(qs))[x] {
      MembersUnique(ps);
      MembersUnique(qs);
      NoRepeatMultiset(Members(ps), x);
      NoRepeatMultiset(Members(qs), x);
      MembersParticipate(ps, x);
      MembersParticipate(qs, x);
      assert x in Members(ps) <==> x in multiset(Members(ps));
      assert x in Members(qs) <==> x in multiset(Members(qs));
    }
  }

  lemma {:induction false} MembersCount(ps: seq<Pair>)
    ensures |Members(ps)| == 2 * |ps|
  {
    if ps != [] {
      MembersCount(ps[..|ps| - 1]);
    }
  }

  /** Whoever takes part in one takes part in the other. */
  ghost predicate SameParticipants(ps: seq<Pair>, qs: seq<Pair>) {
    forall x :: Participates(x, ps) <==> Participates(x, qs)
  }

  lemma SameCount(ps: seq<Pair>, qs: seq<Pair>)
    requires Apart(ps) && Apart(qs) && SameParticipants(ps, qs)
    ensures |ps| == |qs|
  {
    SameMembers(ps, qs);
    assert |multiset(Members(ps))| == |Members(ps)| && |multiset(Members(qs))| == |Members(qs)|;
    MembersCount(ps);
    MembersCount(qs);
  }

  /** Of equally many pairs, surplus and netted amount differ alike. */
  lemma {:induction false} SurplusTotal(ps: seq<Pair>, qs: seq<Pair>, lo: int)
    requires |ps| == |qs|
    ensures Surplus(ps, lo) - Surplus(qs, lo) == TotalNetted(ps) - TotalNetted(qs)
  {
    if ps != [] {
      SurplusTotal(ps[..|ps| - 1], qs[..|qs| - 1], lo);
    }
  }

  /** Among all pairings of the same participants, the matcher's nets the largest
      total amount. */
  lemma MaximumNetted(s: seq<Intent>, sort: Sorter, other: seq<Pair>)
    requires UniqueIds(s) && IsSorter(sort) && IsMatching(s, other) && SameParticipants(other, Pairs(s, sort))
    ensures TotalNetted(other) <= TotalNetted(Pairs(s, sort))
  {
    var ps := Pairs(s, sort);
    PairsAreMatching(s, sort);
    forall p | p in other ensures Participates(p.a, ps) && Participates(p.b, ps) {
      assert Participates(p.a, other) && Participates(p.b, other);
    }
    SameCount(other, ps);
    var lo, _ := AmountBounds(s);
    SurplusBound(s, sort, other, lo);
    SurplusTotal(other, ps, lo);
  }

  /** And leaves the least total gap between the two amounts of a pair. */
  lemma MinimumGap(s: seq<Intent>, sort: Sorter, other: seq<Pair>)
    requires UniqueIds(s) && IsSorter(sort) && IsMatching(s, other) && SameParticipants(other, Pairs(s, sort))
    ensures TotalGap(Pairs(s, sort)) <= TotalGap(other)
  {
    var ps := Pairs(s, sort);
    PairsAreMatching(s, sort);
    MaximumNetted(s, sort, other);
    SameMembers(ps, other);
    AmountsMultiset(Members(ps), Members(other));
    SumMultiset(Amounts(Members(ps)), Amounts(Members(other)));
    GapSum(ps);
    GapSum(other);
  }
}
