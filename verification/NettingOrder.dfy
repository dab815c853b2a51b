/** The amounts the netting matcher assigns do not depend on the order in which
    intents arrive, nor on how the sort breaks ties. */
module NettingOrder {
  import opened Netting
  import opened NettingOptimal

  // ----- amounts of a sorted group -----

  function Amounts(a: seq<Intent>): (r: seq<int>)
    ensures |r| == |a| && forall i :: 0 <= i < |a| ==> r[i] == a[i].amount
  {
    seq(|a|, i requires 0 <= i < |a| => a[i].amount)
  }

  predicate Ascending(x: seq<int>) {
    forall i, j :: 0 <= i < j < |x| ==> x[i] <= x[j]
  }

  lemma RemoveAt<T>(x: seq<T>, j: nat)
    requires j < |x|
    ensures multiset(x) == multiset(x[..j] + x[j + 1..]) + multiset{x[j]}
  {
    assert x == x[..j] + [x[j]] + x[j + 1..];
  }

  lemma DropLast<T>(x: seq<T>)
    requires x != []
    ensures multiset(x) == multiset(x[..|x| - 1]) + multiset{x[|x| - 1]}
  {
    assert x == x[..|x| - 1] + [x[|x| - 1]];
  }

  lemma Cancel<T>(a: multiset<T>, b: multiset<T>, e: T)
    requires a + multiset{e} == b + multiset{e}
    ensures a == b
  {
    assert a == (a + multiset{e}) - multiset{e};
    assert b == (b + multiset{e}) - multiset{e};
  }

  lemma SameLast(x: seq<int>, y: seq<int>)
    requires Ascending(x) && Ascending(y) && x != [] && y != [] && multiset(x) == multiset(y)
    ensures x[|x| - 1] == y[|y| - 1]
  {
    var u, v := x[|x| - 1], y[|y| - 1];
    assert u in multiset(y) && v in multiset(x);
    assert u in y && v in x;
  }

  lemma {:induction false} AscendingUnique(x: seq<int>, y: seq<int>)
    requires Ascending(x) && Ascending(y) && multiset(x) == multiset(y)
    ensures x == y
  {
    assert |multiset(x)| == |multiset(y)|;
    if x != [] {
      SameLast(x, y);
      DropLast(x);
      DropLast(y);
      Cancel(multiset(x[..|x| - 1]), multiset(y[..|y| - 1]), x[|x| - 1]);
      AscendingUnique(x[..|x| - 1], y[..|y| - 1]);
    }
  }

  lemma AmountsWithout(b: seq<Intent>, j: nat)
    requires j < |b|
    ensures multiset(Amounts(b)) == multiset(Amounts(b[..j] + b[j + 1..])) + multiset{b[j].amount}
  {
    RemoveAt(Amounts(b), j);
    assert Amounts(b)[..j] + Amounts(b)[j + 1..] == Amounts(b[..j] + b[j + 1..]);
  }

  /** Removing one occurrence of x from two equal multisets. */
  lemma RemoveBoth<T>(a: seq<T>, b: seq<T>, j: nat)
    requires multiset(a) == multiset(b) && a != [] && j < |b| && b[j] == a[|a| - 1]
    ensures multiset(a[..|a| - 1]) == multiset(b[..j] + b[j + 1..])
  {
    DropLast(a);
    RemoveAt(b, j);
    Cancel(multiset(a[..|a| - 1]), multiset(b[..j] + b[j + 1..]), b[j]);
  }

  lemma Occurs<T>(a: seq<T>, b: seq<T>) returns (j: nat)
    requires multiset(a) == multiset(b) && a != []
    ensures j < |b| && b[j] == a[|a| - 1]
  {
    assert a[|a| - 1] in multiset(b);
    j :| 0 <= j < |b| && b[j] == a[|a| - 1];
  }

  lemma {:induction false} AmountsMultiset(a: seq<Intent>, b: seq<Intent>)
    requires multiset(a) == multiset(b)
    ensures multiset(Amounts(a)) == multiset(Amounts(b))
  {
    if a == [] {
      assert |multiset(b)| == 0;
    } else {
      var j := Occurs(a, b);
      RemoveBoth(a, b, j);
      AmountsMultiset(a[..|a| - 1], b[..j] + b[j + 1..]);
      AmountsWithout(b, j);
      AmountsInit(a);
    }
  }

  lemma AmountsInit(a: seq<Intent>)
    requires a != []
    ensures multiset(Amounts(a)) == multiset(Amounts(a[..|a| - 1])) + multiset{a[|a| - 1].amount}
  {
    DropLast(Amounts(a));
    assert Amounts(a)[..|a| - 1] == Amounts(a[..|a| - 1]);
  }

  lemma {:induction false} GroupMultiset(s: seq<Intent>, k: Key, x: Intent)
    ensures multiset(Group(s, k))[x] == if KeyOf(x) == k then multiset(s)[x] else 0
  {
    if s != [] {
      GroupMultiset(s[..|s| - 1], k, x);
      assert s == s[..|s| - 1] + [s[|s| - 1]];
    }
  }

  lemma SortedAmountsUnique(s: seq<Intent>, t: seq<Intent>, sort: Sorter, sort': Sorter, k: Key)
    requires multiset(s) == multiset(t) && IsSorter(sort) && IsSorter(sort')
    ensures Amounts(SortedGroup(s, sort, k)) == Amounts(SortedGroup(t, sort', k))
  {
    var g, h := Group(s, k), Group(t, k);
    forall x ensures multiset(g)[x] == multiset(h)[x] {
      GroupMultiset(s, k, x);
      GroupMultiset(t, k, x);
    }
    assert multiset(g) == multiset(h);
    AmountsMultiset(sort(g), sort'(h));
    AscendingUnique(Amounts(sort(g)), Amounts(sort'(h)));
  }

  // ----- matched amounts of one unordered asset pair -----

  predicate OnAssets(m: Match, k: Key) {
    Key(m.inAsset, m.outAsset) == k || Key(m.inAsset, m.outAsset) == Rev(k)
  }

  /** The matched amounts of the asset pair k, in either orientation. */
  function MatchedAmounts(ms: seq<Match>, k: Key): seq<int> {
    if ms == [] then []
    else
      var r, m := MatchedAmounts(ms[..|ms| - 1], k), ms[|ms| - 1];
      if OnAssets(m, k) then r + [m.amount] else r
  }

  lemma {:induction false} MatchedAppend(ms: seq<Match>, ns: seq<Match>, k: Key)
    ensures MatchedAmounts(ms + ns, k) == MatchedAmounts(ms, k) + MatchedAmounts(ns, k)
  {
    if ns == [] {
      assert ms + ns == ms;
    } else {
      MatchedAppend(ms, ns[..|ns| - 1], k);
      assert (ms + ns)[..|ms + ns| - 1] == ms + ns[..|ns| - 1];
    }
  }

  lemma MatchedConcat(ps: seq<Pair>, qs: seq<Pair>, k: Key)
    ensures MatchedAmounts(Matches(ps + qs), k) == MatchedAmounts(Matches(ps), k) + MatchedAmounts(Matches(qs), k)
  {
    assert Matches(ps + qs) == Matches(ps) + Matches(qs);
    MatchedAppend(Matches(ps), Matches(qs), k);
  }

  function AmountsOf(ps: seq<Pair>): (r: seq<int>)
    ensures |r| == |ps|
  {
    seq(|ps|, i requires 0 <= i < |ps| => NettedAmount(ps[i]))
  }

  lemma {:induction false} MatchedAllOrNone(ps: seq<Pair>, j: Key, k: Key)
    requires forall i :: 0 <= i < |ps| ==> KeyOf(ps[i].a) == j
    ensures MatchedAmounts(Matches(ps), k) == if j == k || j == Rev(k) then AmountsOf(ps) else []
  {
    if ps != [] {
      var qs := ps[..|ps| - 1];
      MatchedAllOrNone(qs, j, k);
      assert Matches(ps)[..|ps| - 1] == Matches(qs);
      assert AmountsOf(ps) == AmountsOf(qs) + [NettedAmount(ps[|ps| - 1])];
    }
  }

  /** The closed form: every second amount of a same-asset group, the
      position-wise minimum of the two sorted sides otherwise. */
  function Expected(x: seq<int>, y: seq<int>, same: bool): seq<int> {
    if same then seq(|x| / 2, i requires 0 <= i < |x| / 2 => Min(x[2 * i], x[2 * i + 1]))
    else seq(Min(|x|, |y|), i requires 0 <= i < Min(|x|, |y|) => Min(x[i], y[i]))
  }

  function ExpectedFor(s: seq<Intent>, sort: Sorter, k: Key): seq<int> {
    Expected(Amounts(SortedGroup(s, sort, k)), Amounts(SortedGroup(s, sort, Rev(k))), k == Rev(k))
  }

  lemma ExpectedSymmetric(s: seq<Intent>, sort: Sorter, k: Key)
    ensures ExpectedFor(s, sort, k) == ExpectedFor(s, sort, Rev(k))
  {
  }

  lemma PairsForAmounts(s: seq<Intent>, sort: Sorter, ks: seq<Key>, k: Key)
    requires k == Rev(k) || Leads(ks, k)
    ensures AmountsOf(PairsFor(s, sort, ks, k)) == ExpectedFor(s, sort, k)
  {
    var a, b := SortedGroup(s, sort, k), SortedGroup(s, sort, Rev(k));
  }

  /** Which of k and its reverse the matcher produces the pairs under. */
  function Leader(ks: seq<Key>, k: Key): Key {
    if k == Rev(k) || Leads(ks, k) then k else Rev(k)
  }

  lemma LeaderLeads(ks: seq<Key>, k: Key)
    requires NoRepeat(ks)
    ensures k == Rev(k) || Leads(ks, Leader(ks, k))
    ensures k != Rev(k) && Rev(Leader(ks, k)) in ks ==> !Leads(ks, Rev(Leader(ks, k)))
  {
    IndexFacts(ks, k);
    IndexFacts(ks, Rev(k));
  }

  /** What visiting one key adds to the amounts of asset pair k. */
  lemma KeyAmounts(s: seq<Intent>, sort: Sorter, ks: seq<Key>, j: Key, k: Key)
    requires UniqueIds(s) && IsSorter(sort) && NoRepeat(ks) && j in ks
    ensures MatchedAmounts(Matches(PairsFor(s, sort, ks, j)), k)
         == if j == Leader(ks, k) then ExpectedFor(s, sort, k) else []
  {
    PairsForElements(s, sort, ks, j);
    var ps := PairsFor(s, sort, ks, j);
    assert forall i :: 0 <= i < |ps| ==> FromKey(s, ps[i], j);
    MatchedAllOrNone(PairsFor(s, sort, ks, j), j, k);
    LeaderLeads(ks, k);
    if j == Leader(ks, k) {
      PairsForAmounts(s, sort, ks, j);
      ExpectedSymmetric(s, sort, k);
    }
  }

  /** Part i yields the amounts e on the asset pair k if it is part `lead`, and
      none otherwise. */
  predicate Contributes(parts: seq<seq<Pair>>, i: nat, k: Key, lead: int, e: seq<int>)
    requires i < |parts|
  {
    MatchedAmounts(Matches(parts[i]), k) == if i == lead then e else []
  }

  /** If only part `lead` has pairs of the asset pair k, so has the whole. */
  lemma {:induction false} OneContributes(parts: seq<seq<Pair>>, n: nat, k: Key, lead: int, e: seq<int>)
    requires n <= |parts|
    requires forall i {:trigger Contributes(parts, i, k, lead, e)} :: 0 <= i < n ==> Contributes(parts, i, k, lead, e)
    ensures MatchedAmounts(Matches(Flatten(parts, n)), k) == if 0 <= lead < n then e else []
  {
    if n > 0 {
      OneContributes(parts, n - 1, k, lead, e);
      assert Contributes(parts, n - 1, k, lead, e);
      MatchedConcat(Flatten(parts, n - 1), parts[n - 1], k);
    }
  }

  /** The matched amounts of an asset pair in closed form. */
  lemma MatchedAmountsClosed(s: seq<Intent>, sort: Sorter, k: Key)
    requires UniqueIds(s) && IsSorter(sort)
    ensures MatchedAmounts(Matches(Pairs(s, sort)), k) == ExpectedFor(s, sort, k)
  {
    var ks, e := KeyOrder(s), ExpectedFor(s, sort, k);
    var parts := Parts(s, sort, ks);
    KeyOrderNoRepeat(s);
    var lead := -1;
    if Leader(ks, k) in ks {
      lead :| 0 <= lead < |ks| && ks[lead] == Leader(ks, k);
    } else {
      AbsentLeader(s, sort, k);
    }
    forall i | 0 <= i < |ks| ensures Contributes(parts, i, k, lead, e) {
      KeyAmounts(s, sort, ks, ks[i], k);
    }
    OneContributes(parts, |ks|, k, lead, e);
  }

  lemma AbsentLeader(s: seq<Intent>, sort: Sorter, k: Key)
    requires UniqueIds(s) && IsSorter(sort) && Leader(KeyOrder(s), k) !in KeyOrder(s)
    ensures ExpectedFor(s, sort, k) == []
  {
    GroupNonempty(s, k);
    GroupNonempty(s, Rev(k));
    SortedGroupFacts(s, sort, k);
    SortedGroupFacts(s, sort, Rev(k));
  }

  /** Order independence: permuting the intents and changing the tie-breaking
      leaves the matched amounts of every unordered asset pair as they were. */
  lemma OrderIndependent(s: seq<Intent>, t: seq<Intent>, sort: Sorter, sort': Sorter, k: Key)
    requires UniqueIds(s) && multiset(s) == multiset(t) && IsSorter(sort) && IsSorter(sort')
    ensures MatchedAmounts(Matches(Pairs(s, sort)), k) == MatchedAmounts(Matches(Pairs(t, sort')), k)
  {
    UniquePermutation(s, t);
    MatchedAmountsClosed(s, sort, k);
    MatchedAmountsClosed(t, sort', k);
    SortedAmountsUnique(s, t, sort, sort', k);
    SortedAmountsUnique(s, t, sort, sort', Rev(k));
  }
}
