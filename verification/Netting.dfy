/** The netting matcher `matchIntents` of apps/mpc-committee/src/coordinator.ts:
    intents are grouped by asset pair, both sides of a pair are sorted by amount
    and a two-pointer loop with a shared `used` set pairs them up.

    A group key is the pair of asset names; the program joins the two names with
    `|`, which is the same thing as long as asset names contain no `|`. The sort
    is a parameter: its comparator never reports a tie, so the order of equal
    amounts is up to the engine. */
module Netting {

  datatype Intent = Intent(id: string, amount: int, inAsset: string, outAsset: string)
  datatype Key = Key(input: string, output: string)
  datatype Match = Match(aId: string, bId: string, amount: int, inAsset: string, outAsset: string)
  datatype Pair = Pair(a: Intent, b: Intent)

  function KeyOf(i: Intent): Key { Key(i.inAsset, i.outAsset) }

  function Rev(k: Key): Key { Key(k.output, k.input) }

  function Min(x: int, y: int): int { if x < y then x else y }

  // ----- sorting, identity -----

  type Sorter = seq<Intent> -> seq<Intent>

  predicate Sorted(s: seq<Intent>) {
    forall i, j :: 0 <= i < j < |s| ==> s[i].amount <= s[j].amount
  }

  /** Any function that returns some amount-sorted permutation. */
  ghost predicate IsSorter(sort: Sorter) {
    forall s {:trigger sort(s)} :: Sorted(sort(s)) && multiset(sort(s)) == multiset(s)
  }

  predicate UniqueIds(s: seq<Intent>) {
    forall i, j :: 0 <= i < j < |s| ==> s[i].id != s[j].id
  }

  lemma {:induction false} NoRepeatMultiset(s: seq<Intent>, x: Intent)
    requires UniqueIds(s)
    ensures multiset(s)[x] <= 1
  {
    if s != [] {
      var t := s[..|s| - 1];
      assert s == t + [s[|s| - 1]];
      NoRepeatMultiset(t, x);
    }
  }

  lemma UniquePermutation(s: seq<Intent>, t: seq<Intent>)
    requires UniqueIds(s) && multiset(s) == multiset(t)
    ensures UniqueIds(t)
  {
    forall i, j | 0 <= i < j < |t| ensures t[i].id != t[j].id {
      assert t[i] in multiset(s) && t[j] in multiset(s);
      if t[i] == t[j] {
        assert t == t[..j] + t[j..];
        assert multiset(t)[t[i]] == multiset(t[..j])[t[i]] + multiset(t[j..])[t[i]];
        assert t[..j][i] == t[i] && t[j..][0] == t[i];
        assert multiset(t)[t[i]] >= 2;
        NoRepeatMultiset(s, t[i]);
      }
    }
  }

  // ----- groups, in first-occurrence order -----

  function Group(s: seq<Intent>, k: Key): seq<Intent> {
    if s == [] then []
    else
      var t, x := s[..|s| - 1], s[|s| - 1];
      if KeyOf(x) == k then Group(t, k) + [x] else Group(t, k)
  }

  function KeyOrder(s: seq<Intent>): seq<Key> {
    if s == [] then []
    else
      var ks, k := KeyOrder(s[..|s| - 1]), KeyOf(s[|s| - 1]);
      if k in ks then ks else ks + [k]
  }

  lemma {:induction false} GroupMembers(s: seq<Intent>, k: Key)
    ensures forall x :: x in Group(s, k) <==> x in s && KeyOf(x) == k
  {
    if s != [] {
      GroupMembers(s[..|s| - 1], k);
      assert s == s[..|s| - 1] + [s[|s| - 1]];
    }
  }

  predicate NoRepeat(ks: seq<Key>) {
    forall i, j :: 0 <= i < j < |ks| ==> ks[i] != ks[j]
  }

  lemma {:induction false} KeyOrderNoRepeat(s: seq<Intent>)
    ensures NoRepeat(KeyOrder(s))
  {
    if s != [] {
      KeyOrderNoRepeat(s[..|s| - 1]);
    }
  }

  lemma {:induction false} GroupNonempty(s: seq<Intent>, k: Key)
    ensures Group(s, k) != [] <==> k in KeyOrder(s)
  {
    if s != [] {
      GroupNonempty(s[..|s| - 1], k);
    }
  }

  lemma {:induction false} GroupUnique(s: seq<Intent>, k: Key)
    requires UniqueIds(s)
    ensures UniqueIds(Group(s, k))
  {
    if s != [] {
      var t := s[..|s| - 1];
      GroupUnique(t, k);
      GroupMembers(t, k);
      forall i | 0 <= i < |Group(t, k)| ensures Group(t, k)[i].id != s[|s| - 1].id {
        assert Group(t, k)[i] in t;
      }
    }
  }

  function SortedGroup(s: seq<Intent>, sort: Sorter, k: Key): seq<Intent> {
    sort(Group(s, k))
  }

  lemma SortedGroupFacts(s: seq<Intent>, sort: Sorter, k: Key)
    requires UniqueIds(s) && IsSorter(sort)
    ensures UniqueIds(SortedGroup(s, sort, k)) && Sorted(SortedGroup(s, sort, k))
    ensures |SortedGroup(s, sort, k)| == |Group(s, k)|
    ensures forall x :: x in SortedGroup(s, sort, k) <==> x in s && KeyOf(x) == k
  {
    var g := Group(s, k);
    GroupMembers(s, k);
    GroupUnique(s, k);
    UniquePermutation(g, sort(g));
    assert |multiset(g)| == |multiset(sort(g))|;
    assert forall x :: x in sort(g) <==> x in multiset(sort(g));
  }

  // ----- what the loops compute -----

  /** The two-pointer loop, from positions ai and bi. */
  function Walk(a: seq<Intent>, b: seq<Intent>, ai: nat, bi: nat, used: set<string>): seq<Pair>
    requires ai <= |a| && bi <= |b|
    decreases |a| - ai + |b| - bi
  {
    if ai == |a| || bi == |b| then []
    else if a[ai].id in used then Walk(a, b, ai + 1, bi, used)
    else if b[bi].id in used || a[ai].id == b[bi].id then Walk(a, b, ai, bi + 1, used)
    else [Pair(a[ai], b[bi])] + Walk(a, b, ai + 1, bi + 1, used + {a[ai].id, b[bi].id})
  }

  function Ids(ps: seq<Pair>): set<string> {
    if ps == [] then {}
    else
      var p := ps[|ps| - 1];
      Ids(ps[..|ps| - 1]) + {p.a.id, p.b.id}
  }

  lemma {:induction false} IdsHas(ps: seq<Pair>, i: nat)
    requires i < |ps|
    ensures ps[i].a.id in Ids(ps) && ps[i].b.id in Ids(ps)
  {
    if i < |ps| - 1 {
      IdsHas(ps[..|ps| - 1], i);
    }
  }

  lemma {:induction false} IdsOnly(ps: seq<Pair>, x: string)
    requires forall i :: 0 <= i < |ps| ==> ps[i].a.id != x && ps[i].b.id != x
    ensures x !in Ids(ps)
  {
    if ps != [] {
      IdsOnly(ps[..|ps| - 1], x);
    }
  }

  /** One iteration of the outer loop. */
  function Visit(s: seq<Intent>, sort: Sorter, k: Key, used: set<string>): seq<Pair> {
    if Group(s, Rev(k)) == [] then []
    else Walk(SortedGroup(s, sort, k), SortedGroup(s, sort, Rev(k)), 0, 0, used)
  }

  /** The first n iterations of the outer loop; `used` always holds the ids of
      the pairs found so far. */
  function VisitsBy(visit: (Key, set<string>) -> seq<Pair>, ks: seq<Key>, n: nat): seq<Pair>
    requires n <= |ks|
  {
    if n == 0 then []
    else
      var ps := VisitsBy(visit, ks, n - 1);
      ps + visit(ks[n - 1], Ids(ps))
  }

  function Visitor(s: seq<Intent>, sort: Sorter): (Key, set<string>) -> seq<Pair> {
    (k, used) => Visit(s, sort, k, used)
  }

  function Visits(s: seq<Intent>, sort: Sorter, ks: seq<Key>, n: nat): seq<Pair>
    requires n <= |ks|
  {
    VisitsBy(Visitor(s, sort), ks, n)
  }

  // ----- the simple form -----

  /** Neighbours a[0], a[1], then a[2], a[3], ... */
  function Adjacent(a: seq<Intent>): (ps: seq<Pair>)
    ensures |ps| == |a| / 2 && forall i :: 0 <= i < |ps| ==> ps[i] == Pair(a[2 * i], a[2 * i + 1])
  {
    seq(|a| / 2, i requires 0 <= i < |a| / 2 => Pair(a[2 * i], a[2 * i + 1]))
  }

  /** Position i of one side with position i of the other. */
  function Zip(a: seq<Intent>, b: seq<Intent>): (ps: seq<Pair>)
    ensures |ps| == Min(|a|, |b|) && forall i :: 0 <= i < |ps| ==> ps[i] == Pair(a[i], b[i])
  {
    seq(Min(|a|, |b|), i requires 0 <= i < Min(|a|, |b|) => Pair(a[i], b[i]))
  }

  /** k comes before its reverse, or the reverse does not occur at all. */
  predicate Leads(ks: seq<Key>, k: Key) {
    IndexOf(ks, Rev(k)) == |ks| || IndexOf(ks, k) < IndexOf(ks, Rev(k))
  }

  /** The first position of k, or the length if it does not occur. */
  function IndexOf(ks: seq<Key>, k: Key): nat {
    if ks == [] || ks[0] == k then 0 else 1 + IndexOf(ks[1..], k)
  }

  lemma {:induction false} IndexFacts(ks: seq<Key>, k: Key)
    ensures IndexOf(ks, k) <= |ks|
    ensures k !in ks[..IndexOf(ks, k)]
    ensures IndexOf(ks, k) == |ks| <==> k !in ks
    ensures IndexOf(ks, k) < |ks| ==> ks[IndexOf(ks, k)] == k
  {
    if ks != [] && ks[0] != k {
      IndexFacts(ks[1..], k);
      var n := IndexOf(ks[1..], k);
      assert ks == [ks[0]] + ks[1..];
      assert ks[..n + 1] == [ks[0]] + ks[1..][..n];
    }
  }

  lemma IndexUnique(ks: seq<Key>, n: nat)
    requires n < |ks| && NoRepeat(ks)
    ensures IndexOf(ks, ks[n]) == n && ks[n] !in ks[..n]
  {
    IndexFacts(ks, ks[n]);
  }

  /** All pairs of the asset pair that k leads: neighbours within a same-asset
      group, the two sorted sides zipped otherwise. */
  function PairsFor(s: seq<Intent>, sort: Sorter, ks: seq<Key>, k: Key): seq<Pair> {
    if k == Rev(k) then Adjacent(SortedGroup(s, sort, k))
    else if Leads(ks, k) then Zip(SortedGroup(s, sort, k), SortedGroup(s, sort, Rev(k)))
    else []
  }

  /** The pairs of each key, in the order the keys are visited. */
  function Parts(s: seq<Intent>, sort: Sorter, ks: seq<Key>): (parts: seq<seq<Pair>>)
    ensures |parts| == |ks| && forall i :: 0 <= i < |ks| ==> parts[i] == PairsFor(s, sort, ks, ks[i])
  {
    seq(|ks|, i requires 0 <= i < |ks| => PairsFor(s, sort, ks, ks[i]))
  }

  function Flatten<T>(parts: seq<seq<T>>, n: nat): seq<T>
    requires n <= |parts|
  {
    if n == 0 then [] else Flatten(parts, n - 1) + parts[n - 1]
  }

  function Pairs(s: seq<Intent>, sort: Sorter): seq<Pair> {
    Flatten(Parts(s, sort, KeyOrder(s)), |KeyOrder(s)|)
  }

  lemma {:induction false} FlattenHas(parts: seq<seq<Pair>>, n: nat, i: nat)
    requires i < n <= |parts|
    ensures forall p :: p in parts[i] ==> p in Flatten(parts, n)
  {
    if i < n - 1 {
      FlattenHas(parts, n - 1, i);
    }
  }

  lemma {:induction false} FlattenFrom(parts: seq<seq<Pair>>, n: nat, p: Pair) returns (i: nat)
    requires n <= |parts| && p in Flatten(parts, n)
    ensures i < n && p in parts[i]
  {
    if p in parts[n - 1] {
      i := n - 1;
    } else {
      i := FlattenFrom(parts, n - 1, p);
    }
  }

  function Render(p: Pair): Match {
    Match(p.a.id, p.b.id, Min(p.a.amount, p.b.amount), p.a.inAsset, p.a.outAsset)
  }

  function Matches(ps: seq<Pair>): (ms: seq<Match>)
    ensures |ms| == |ps| && forall i :: 0 <= i < |ps| ==> ms[i] == Render(ps[i])
  {
    seq(|ps|, i requires 0 <= i < |ps| => Render(ps[i]))
  }

  // ----- the loops compute the simple form -----

  predicate FreshFrom(a: seq<Intent>, i: nat, used: set<string>) {
    forall j :: i <= j < |a| ==> a[j].id !in used
  }

  predicate DisjointIds(a: seq<Intent>, b: seq<Intent>) {
    forall i, j :: 0 <= i < |a| && 0 <= j < |b| ==> a[i].id != b[j].id
  }

  lemma {:induction false} WalkFresh(a: seq<Intent>, b: seq<Intent>, i: nat, used: set<string>)
    requires i <= |a| && i <= |b| && UniqueIds(a) && UniqueIds(b) && DisjointIds(a, b)
    requires FreshFrom(a, i, used) && FreshFrom(b, i, used)
    ensures Walk(a, b, i, i, used) == if i <= |Zip(a, b)| then Zip(a, b)[i..] else []
    decreases |a| - i
  {
    if i < |a| && i < |b| {
      WalkFresh(a, b, i + 1, used + {a[i].id, b[i].id});
    }
  }

  /** For a same-asset group the reverse group is the group itself. */
  lemma {:induction false} WalkSelf(a: seq<Intent>, i: nat, used: set<string>)
    requires i <= |a| / 2 && UniqueIds(a) && FreshFrom(a, 2 * i, used)
    ensures Walk(a, a, 2 * i, 2 * i, used) == Adjacent(a)[i..]
    decreases |a| - 2 * i
  {
    var n := 2 * i;
    if n + 1 < |a| {
      var used' := used + {a[n].id, a[n + 1].id};
      WalkSelf(a, i + 1, used');
      assert Walk(a, a, n, n, used) == Walk(a, a, n, n + 1, used);
      assert Walk(a, a, n + 1, n + 2, used') == Adjacent(a)[i + 1..];
    }
  }

  lemma {:induction false} WalkExhausted(a: seq<Intent>, b: seq<Intent>, ai: nat, bi: nat, used: set<string>)
    requires ai <= |a| && bi <= |b|
    requires (forall j :: ai <= j < |a| ==> a[j].id in used) || (forall j :: bi <= j < |b| ==> b[j].id in used)
    ensures Walk(a, b, ai, bi, used) == []
    decreases |a| - ai + |b| - bi
  {
    if ai < |a| && bi < |b| {
      if a[ai].id in used {
        WalkExhausted(a, b, ai + 1, bi, used);
      } else {
        WalkExhausted(a, b, ai, bi + 1, used);
      }
    }
  }

  /** Both sides of a pair produced under key k come from k and its reverse. */
  predicate FromKey(s: seq<Intent>, p: Pair, k: Key) {
    p.a in s && p.b in s && KeyOf(p.a) == k && KeyOf(p.b) == Rev(k)
  }

  lemma PairsForElements(s: seq<Intent>, sort: Sorter, ks: seq<Key>, k: Key)
    requires UniqueIds(s) && IsSorter(sort)
    ensures forall p :: p in PairsFor(s, sort, ks, k) ==> FromKey(s, p, k)
  {
    var a, b := SortedGroup(s, sort, k), SortedGroup(s, sort, Rev(k));
    SortedGroupFacts(s, sort, k);
    SortedGroupFacts(s, sort, Rev(k));
    forall p | p in PairsFor(s, sort, ks, k) ensures FromKey(s, p, k) {
      var j :| 0 <= j < |PairsFor(s, sort, ks, k)| && PairsFor(s, sort, ks, k)[j] == p;
      assert p.a in a && p.b in b;
    }
  }

  /** Each pair is produced under the key of its A side. */
  lemma PairOrigin(s: seq<Intent>, sort: Sorter, ks: seq<Key>, n: nat, p: Pair) returns (i: nat)
    requires UniqueIds(s) && IsSorter(sort) && n <= |ks| && p in Flatten(Parts(s, sort, ks), n)
    ensures i < n && p in PairsFor(s, sort, ks, ks[i]) && FromKey(s, p, ks[i])
  {
    i := FlattenFrom(Parts(s, sort, ks), n, p);
    PairsForElements(s, sort, ks, ks[i]);
  }

  lemma DifferentIds(s: seq<Intent>, x: Intent, y: Intent)
    requires UniqueIds(s) && x in s && y in s && x != y
    ensures x.id != y.id
  {
  }

  /** If neither k nor its reverse came before position n, the group of k is
      untouched when position n is reached. */
  lemma UntouchedGroup(s: seq<Intent>, sort: Sorter, ks: seq<Key>, n: nat, k: Key)
    requires UniqueIds(s) && IsSorter(sort) && n <= |ks| && k !in ks[..n] && Rev(k) !in ks[..n]
    ensures FreshFrom(SortedGroup(s, sort, k), 0, Ids(Flatten(Parts(s, sort, ks), n)))
  {
    var ps, a := Flatten(Parts(s, sort, ks), n), SortedGroup(s, sort, k);
    SortedGroupFacts(s, sort, k);
    forall j | 0 <= j < |a| ensures a[j].id !in Ids(ps) {
      assert a[j] in a;
      forall i | 0 <= i < |ps| ensures ps[i].a.id != a[j].id && ps[i].b.id != a[j].id {
        var h := PairOrigin(s, sort, ks, n, ps[i]);
        assert ks[..n][h] == ks[h];
        DifferentIds(s, a[j], ps[i].a);
        DifferentIds(s, a[j], ps[i].b);
      }
      IdsOnly(ps, a[j].id);
    }
  }

  lemma LeaderComesFirst(ks: seq<Key>, n: nat)
    requires n < |ks| && NoRepeat(ks) && (Leads(ks, ks[n]) || ks[n] == Rev(ks[n]))
    ensures ks[n] !in ks[..n] && Rev(ks[n]) !in ks[..n]
  {
    IndexUnique(ks, n);
    IndexFacts(ks, Rev(ks[n]));
    assert forall i :: 0 <= i < n ==> ks[i] in ks[..IndexOf(ks, Rev(ks[n]))] || ks[n] == Rev(ks[n]);
  }

  /** A key that does not lead comes after its reverse, which does. */
  lemma FollowerComesSecond(ks: seq<Key>, n: nat) returns (i: nat)
    requires n < |ks| && NoRepeat(ks) && !Leads(ks, ks[n]) && ks[n] != Rev(ks[n])
    ensures i < n && ks[i] == Rev(ks[n]) && Leads(ks, ks[i])
  {
    IndexUnique(ks, n);
    IndexFacts(ks, Rev(ks[n]));
    i := IndexOf(ks, Rev(ks[n]));
  }

  lemma ZipCovers(a: seq<Intent>, b: seq<Intent>, ps: seq<Pair>)
    requires forall p :: p in Zip(a, b) ==> p in ps
    ensures |a| <= |b| ==> forall j :: 0 <= j < |a| ==> a[j].id in Ids(ps)
    ensures |b| <= |a| ==> forall j :: 0 <= j < |b| ==> b[j].id in Ids(ps)
  {
    var z := Zip(a, b);
    forall j | 0 <= j < |z| ensures a[j].id in Ids(ps) && b[j].id in Ids(ps) {
      assert z[j] in ps;
      var i :| 0 <= i < |ps| && ps[i] == z[j];
      IdsHas(ps, i);
    }
  }

  lemma VisitIsPairsFor(s: seq<Intent>, sort: Sorter, ks: seq<Key>, n: nat)
    requires UniqueIds(s) && IsSorter(sort) && NoRepeat(ks) && n < |ks|
    ensures Visit(s, sort, ks[n], Ids(Flatten(Parts(s, sort, ks), n))) == PairsFor(s, sort, ks, ks[n])
  {
    var k, parts := ks[n], Parts(s, sort, ks);
    var used := Ids(Flatten(parts, n));
    var a, b := SortedGroup(s, sort, k), SortedGroup(s, sort, Rev(k));
    SortedGroupFacts(s, sort, k);
    SortedGroupFacts(s, sort, Rev(k));
    if k == Rev(k) || Leads(ks, k) {
      LeaderComesFirst(ks, n);
      UntouchedGroup(s, sort, ks, n, k);
      UntouchedGroup(s, sort, ks, n, Rev(k));
      if k == Rev(k) {
        WalkSelf(a, 0, used);
      } else {
        OppositeSides(s, sort, k);
        WalkFresh(a, b, 0, used);
      }
    } else {
      var i := FollowerComesSecond(ks, n);
      FlattenHas(parts, n, i);
      assert parts[i] == Zip(b, a);
      ZipCovers(b, a, Flatten(parts, n));
      WalkExhausted(a, b, 0, 0, used);
    }
  }

  lemma OppositeSides(s: seq<Intent>, sort: Sorter, k: Key)
    requires UniqueIds(s) && IsSorter(sort) && k != Rev(k)
    ensures DisjointIds(SortedGroup(s, sort, k), SortedGroup(s, sort, Rev(k)))
  {
    var a, b := SortedGroup(s, sort, k), SortedGroup(s, sort, Rev(k));
    SortedGroupFacts(s, sort, k);
    SortedGroupFacts(s, sort, Rev(k));
    forall i, j | 0 <= i < |a| && 0 <= j < |b| ensures a[i].id != b[j].id {
      assert a[i] in a && b[j] in b;
      DifferentIds(s, a[i], b[j]);
    }
  }

  ghost predicate VisitOk(visit: (Key, set<string>) -> seq<Pair>, ks: seq<Key>, parts: seq<seq<Pair>>, n: nat)
    requires n < |ks| == |parts|
  {
    visit(ks[n], Ids(Flatten(parts, n))) == parts[n]
  }

  lemma {:induction false} VisitsArePairs(visit: (Key, set<string>) -> seq<Pair>, ks: seq<Key>, parts: seq<seq<Pair>>, n: nat)
    requires n <= |ks| == |parts| && forall m {:trigger VisitOk(visit, ks, parts, m)} :: 0 <= m < n ==> VisitOk(visit, ks, parts, m)
    ensures VisitsBy(visit, ks, n) == Flatten(parts, n)
  {
    if n > 0 {
      VisitsArePairs(visit, ks, parts, n - 1);
      assert VisitOk(visit, ks, parts, n - 1);
    }
  }

  /** The loop with its `used` set computes the simple form. */
  lemma VisitsAreSimple(s: seq<Intent>, sort: Sorter)
    requires UniqueIds(s) && IsSorter(sort)
    ensures Visits(s, sort, KeyOrder(s), |KeyOrder(s)|) == Pairs(s, sort)
  {
    var ks := KeyOrder(s);
    var parts, visit := Parts(s, sort, ks), Visitor(s, sort);
    KeyOrderNoRepeat(s);
    forall m | 0 <= m < |ks| ensures VisitOk(visit, ks, parts, m) {
      VisitIsPairsFor(s, sort, ks, m);
    }
    VisitsArePairs(visit, ks, parts, |ks|);
  }

  // ----- the answer, read off the input -----

  /** The intents of key k, in input order. */
  function Members(s: seq<Intent>, k: Key): seq<Intent> {
    if s == [] then [] else (if KeyOf(s[0]) == k then [s[0]] else []) + Members(s[1..], k)
  }

  /** Position i is the first whose intent trades its asset pair, in either
      direction. */
  predicate OpensPair(s: seq<Intent>, i: nat) {
    i < |s| && forall j :: 0 <= j < i ==> KeyOf(s[j]) != KeyOf(s[i]) && KeyOf(s[j]) != Rev(KeyOf(s[i]))
  }

  /** The matches of the asset pair that position i opens: A is the side of the
      intent there; the sides are paired by rank, or neighbours by rank when both
      assets are the same. */
  function Block(s: seq<Intent>, sort: Sorter, i: nat): (ms: seq<Match>)
    requires i < |s|
  {
    var x, y := s[i].inAsset, s[i].outAsset;
    var a, b := sort(Members(s, Key(x, y))), sort(Members(s, Key(y, x)));
    if x == y then
      seq(|a| / 2, j requires 0 <= j < |a| / 2 =>
        Match(a[2 * j].id, a[2 * j + 1].id, Min(a[2 * j].amount, a[2 * j + 1].amount), x, y))
    else
      seq(Min(|a|, |b|), j requires 0 <= j < Min(|a|, |b|) => Match(a[j].id, b[j].id, Min(a[j].amount, b[j].amount), x, y))
  }

  /** Each position with the matches it opens. */
  function BlockList(s: seq<Intent>, sort: Sorter): (blocks: seq<seq<Match>>)
    ensures |blocks| == |s|
  {
    seq(|s|, i requires 0 <= i < |s| => if OpensPair(s, i) then Block(s, sort, i) else [])
  }

  /** The matches of all asset pairs, as the input opens them. */
  function Blocks(s: seq<Intent>, sort: Sorter): seq<Match> {
    Flatten(BlockList(s, sort), |s|)
  }

  lemma {:induction false} MembersSnoc(s: seq<Intent>, x: Intent, k: Key)
    ensures Members(s + [x], k) == Members(s, k) + (if KeyOf(x) == k then [x] else [])
  {
    if s != [] {
      MembersSnoc(s[1..], x, k);
      assert (s + [x])[1..] == s[1..] + [x];
    }
  }

  lemma {:induction false} GroupIsMembers(s: seq<Intent>, k: Key)
    ensures Group(s, k) == Members(s, k)
  {
    if s != [] {
      var t, x := s[..|s| - 1], s[|s| - 1];
      GroupIsMembers(t, k);
      MembersSnoc(t, x, k);
      assert s == t + [x];
    }
  }

  /** Keys are listed as they first appear. */
  lemma {:induction false} KeysOfPrefix(s: seq<Intent>, n: nat)
    requires n <= |s|
    ensures KeyOrder(s[..n]) <= KeyOrder(s)
    decreases |s| - n
  {
    if n < |s| {
      KeysOfPrefix(s, n + 1);
      assert s[..n + 1][..n] == s[..n];
    } else {
      assert s[..n] == s;
    }
  }

  lemma {:induction false} KeysListed(s: seq<Intent>, k: Key)
    ensures k in KeyOrder(s) <==> exists j :: 0 <= j < |s| && KeyOf(s[j]) == k
  {
    if s != [] {
      var t := s[..|s| - 1];
      KeysListed(t, k);
      assert forall j :: 0 <= j < |t| ==> t[j] == s[j];
    }
  }

  lemma LeadsIff(ks: seq<Key>, m: nat)
    requires m < |ks| && NoRepeat(ks) && ks[m] != Rev(ks[m])
    ensures Leads(ks, ks[m]) <==> Rev(ks[m]) !in ks[..m]
  {
    var k := ks[m];
    IndexUnique(ks, m);
    IndexFacts(ks, Rev(k));
    var r := IndexOf(ks, Rev(k));
    if r < m {
      assert ks[..m][r] == Rev(k);
    } else {
      forall j | 0 <= j < m ensures ks[j] != Rev(k) {
        assert ks[..r][j] == ks[j];
      }
    }
  }

  /** Position n introduces a new key exactly if nobody before has it, and opens
      its asset pair exactly if that key leads. */
  lemma OpensIff(s: seq<Intent>, n: nat)
    requires n < |s|
    ensures var k, before := KeyOf(s[n]), KeyOrder(s[..n]);
      OpensPair(s, n) <==> k !in before && Rev(k) !in before
  {
    var k := KeyOf(s[n]);
    KeysListed(s[..n], k);
    KeysListed(s[..n], Rev(k));
    assert forall j :: 0 <= j < n ==> s[..n][j] == s[j];
    if k !in KeyOrder(s[..n]) && Rev(k) !in KeyOrder(s[..n]) {
      forall j | 0 <= j < n ensures KeyOf(s[j]) != k && KeyOf(s[j]) != Rev(k) {
        assert s[..n][j] == s[j];
      }
    }
  }

  lemma NeighbourBlock(a: seq<Intent>, k: Key)
    requires forall x :: x in a ==> KeyOf(x) == k
    ensures Matches(Adjacent(a)) == seq(|a| / 2, j requires 0 <= j < |a| / 2 =>
      Match(a[2 * j].id, a[2 * j + 1].id, Min(a[2 * j].amount, a[2 * j + 1].amount), k.input, k.output))
  {
    forall j | 0 <= j < |a| / 2 ensures KeyOf(a[2 * j]) == k {
      assert a[2 * j] in a;
    }
  }

  lemma RankBlock(a: seq<Intent>, b: seq<Intent>, k: Key)
    requires forall x :: x in a ==> KeyOf(x) == k
    ensures Matches(Zip(a, b)) == seq(Min(|a|, |b|), j requires 0 <= j < Min(|a|, |b|) =>
      Match(a[j].id, b[j].id, Min(a[j].amount, b[j].amount), k.input, k.output))
  {
    forall j | 0 <= j < Min(|a|, |b|) ensures KeyOf(a[j]) == k {
      assert a[j] in a;
    }
  }

  lemma SidesAreGroups(s: seq<Intent>, sort: Sorter, k: Key)
    requires UniqueIds(s) && IsSorter(sort)
    ensures sort(Members(s, k)) == SortedGroup(s, sort, k) && forall x :: x in SortedGroup(s, sort, k) ==> KeyOf(x) == k
  {
    GroupIsMembers(s, k);
    SortedGroupFacts(s, sort, k);
  }

  lemma OpenerLeads(s: seq<Intent>, n: nat)
    requires n < |s| && OpensPair(s, n)
    ensures var k, m := KeyOf(s[n]), |KeyOrder(s[..n])|;
      m < |KeyOrder(s)| && KeyOrder(s)[m] == k && (k == Rev(k) || Leads(KeyOrder(s), k))
  {
    var ks, before, k := KeyOrder(s), KeyOrder(s[..n]), KeyOf(s[n]);
    KeyStep(s, n);
    OpensIff(s, n);
    KeyOrderNoRepeat(s);
    if k != Rev(k) {
      LeadsIff(ks, |before|);
      assert ks[..|before|] == before;
    }
  }

  lemma BlockIsPart(s: seq<Intent>, sort: Sorter, n: nat)
    requires n < |s| && OpensPair(s, n) && UniqueIds(s) && IsSorter(sort)
    ensures Block(s, sort, n) == Matches(PairsFor(s, sort, KeyOrder(s), KeyOf(s[n])))
  {
    var k := KeyOf(s[n]);
    OpenerLeads(s, n);
    SidesAreGroups(s, sort, k);
    SidesAreGroups(s, sort, Rev(k));
    if k == Rev(k) {
      NeighbourBlock(SortedGroup(s, sort, k), k);
    } else {
      RankBlock(SortedGroup(s, sort, k), SortedGroup(s, sort, Rev(k)), k);
    }
  }

  /** What position n adds to the list of keys. */
  lemma KeyStep(s: seq<Intent>, n: nat)
    requires n < |s|
    ensures var before, k := KeyOrder(s[..n]), KeyOf(s[n]);
      && KeyOrder(s[..n + 1]) == (if k in before then before else before + [k])
      && KeyOrder(s[..n + 1]) <= KeyOrder(s) && before <= KeyOrder(s)
  {
    assert s[..n + 1][..n] == s[..n];
    KeysOfPrefix(s, n);
    KeysOfPrefix(s, n + 1);
  }

  /** A key that is new but follows its reverse gets nothing. */
  lemma FollowerEmpty(s: seq<Intent>, sort: Sorter, n: nat)
    requires n < |s| && KeyOf(s[n]) !in KeyOrder(s[..n]) && !OpensPair(s, n)
    ensures PairsFor(s, sort, KeyOrder(s), KeyOf(s[n])) == []
  {
    var ks, before, k := KeyOrder(s), KeyOrder(s[..n]), KeyOf(s[n]);
    KeyStep(s, n);
    OpensIff(s, n);
    KeyOrderNoRepeat(s);
    LeadsIff(ks, |before|);
    assert ks[..|before|] == before;
  }

  lemma MatchesAppend(ps: seq<Pair>, qs: seq<Pair>)
    ensures Matches(ps + qs) == Matches(ps) + Matches(qs)
  {
  }

  /** Block i is the part of the key that position i introduces, if any. */
  predicate AddsPart(s: seq<Intent>, blocks: seq<seq<Match>>, parts: seq<seq<Pair>>, i: nat) {
    && i < |s| == |blocks|
    && var before := KeyOrder(s[..i]);
       if KeyOf(s[i]) in before then blocks[i] == [] else |before| < |parts| && blocks[i] == Matches(parts[|before|])
  }

  ghost predicate Follows(s: seq<Intent>, blocks: seq<seq<Match>>, parts: seq<seq<Pair>>, n: nat) {
    && n <= |s| == |blocks| && |KeyOrder(s[..n])| <= |parts|
    && Flatten(blocks, n) == Matches(Flatten(parts, |KeyOrder(s[..n])|))
  }

  lemma FollowsStep(s: seq<Intent>, blocks: seq<seq<Match>>, parts: seq<seq<Pair>>, n: nat)
    requires |parts| == |KeyOrder(s)| && Follows(s, blocks, parts, n) && AddsPart(s, blocks, parts, n)
    ensures Follows(s, blocks, parts, n + 1)
  {
    var m := |KeyOrder(s[..n])|;
    KeyStep(s, n);
    if KeyOf(s[n]) !in KeyOrder(s[..n]) {
      MatchesAppend(Flatten(parts, m), parts[m]);
    } else {
      assert Flatten(blocks, n + 1) == Flatten(blocks, n) + [];
    }
  }

  lemma {:induction false} BlocksFollow(s: seq<Intent>, blocks: seq<seq<Match>>, parts: seq<seq<Pair>>, n: nat)
    requires n <= |s| == |blocks| && |parts| == |KeyOrder(s)|
    requires forall i: nat {:trigger AddsPart(s, blocks, parts, i)} :: i < n ==> AddsPart(s, blocks, parts, i)
    ensures Follows(s, blocks, parts, n)
  {
    if n > 0 {
      BlocksFollow(s, blocks, parts, n - 1);
      assert AddsPart(s, blocks, parts, n - 1);
      FollowsStep(s, blocks, parts, n - 1);
    }
  }

  lemma BlockAdds(s: seq<Intent>, sort: Sorter, i: nat)
    requires i < |s| && UniqueIds(s) && IsSorter(sort)
    ensures AddsPart(s, BlockList(s, sort), Parts(s, sort, KeyOrder(s)), i)
  {
    KeyStep(s, i);
    OpensIff(s, i);
    if OpensPair(s, i) {
      OpenerLeads(s, i);
      BlockIsPart(s, sort, i);
    } else if KeyOf(s[i]) !in KeyOrder(s[..i]) {
      FollowerEmpty(s, sort, i);
    }
  }

  /** The simple form, by positions of the input alone. */
  lemma PairsAreBlocks(s: seq<Intent>, sort: Sorter)
    requires UniqueIds(s) && IsSorter(sort)
    ensures Matches(Pairs(s, sort)) == Blocks(s, sort)
  {
    forall i: nat | i < |s| ensures AddsPart(s, BlockList(s, sort), Parts(s, sort, KeyOrder(s)), i) {
      BlockAdds(s, sort, i);
    }
    BlocksFollow(s, BlockList(s, sort), Parts(s, sort, KeyOrder(s)), |s|);
    assert s[..|s|] == s;
  }

  /** Where an element of the concatenation comes from. */
  lemma {:induction false} Origin<T>(parts: seq<seq<T>>, n: nat, t: nat) returns (i: nat, j: nat)
    requires n <= |parts| && t < |Flatten(parts, n)|
    ensures i < n && j < |parts[i]| && parts[i][j] == Flatten(parts, n)[t]
    ensures t == |Flatten(parts, i)| + j
  {
    var before := Flatten(parts, n - 1);
    if t < |before| {
      i, j := Origin(parts, n - 1, t);
    } else {
      i, j := n - 1, t - |before|;
    }
  }

  lemma {:induction false} FlattenLonger<T>(parts: seq<seq<T>>, i: nat, j: nat)
    requires i < j <= |parts|
    ensures |Flatten(parts, i)| + |parts[i]| <= |Flatten(parts, j)|
  {
    if i < j - 1 {
      FlattenLonger(parts, i, j - 1);
    }
  }

  lemma BlockAssets(s: seq<Intent>, sort: Sorter, i: nat, j: nat)
    requires i < |s| && j < |BlockList(s, sort)[i]|
    ensures var m := BlockList(s, sort)[i][j];
      OpensPair(s, i) && m.inAsset == s[i].inAsset && m.outAsset == s[i].outAsset
  {
  }

  /** A sells the assets of the first intent of the pair: some position has the
      match's direction, and none up to it the opposite one. */
  lemma Oriented(s: seq<Intent>, sort: Sorter, t: nat) returns (i: nat)
    requires t < |Blocks(s, sort)|
    ensures var m := Blocks(s, sort)[t];
      && i < |s| && s[i].inAsset == m.inAsset && s[i].outAsset == m.outAsset
      && (m.inAsset != m.outAsset ==> forall j :: 0 <= j <= i ==> KeyOf(s[j]) != Key(m.outAsset, m.inAsset))
  {
    var blocks, j := BlockList(s, sort), 0;
    i, j := Origin(blocks, |s|, t);
    BlockAssets(s, sort, i, j);
    OpenedFirst(s, i);
  }

  lemma OpenedFirst(s: seq<Intent>, i: nat)
    requires OpensPair(s, i)
    ensures s[i].inAsset != s[i].outAsset ==> forall j :: 0 <= j <= i ==> KeyOf(s[j]) != Key(s[i].outAsset, s[i].inAsset)
  {
  }

  /** Matches come in the order in which their asset pairs first appear. */
  lemma InInputOrder(s: seq<Intent>, sort: Sorter, t: nat, u: nat) returns (i: nat, j: nat)
    requires t <= u < |Blocks(s, sort)|
    ensures i <= j < |s| && OpensPair(s, i) && OpensPair(s, j)
    ensures var m, m' := Blocks(s, sort)[t], Blocks(s, sort)[u];
      && Key(m.inAsset, m.outAsset) == KeyOf(s[i]) && Key(m'.inAsset, m'.outAsset) == KeyOf(s[j])
  {
    var blocks := BlockList(s, sort);
    var a, b;
    i, a := Origin(blocks, |s|, t);
    j, b := Origin(blocks, |s|, u);
    BlockAssets(s, sort, i, a);
    BlockAssets(s, sort, j, b);
    if j < i {
      FlattenLonger(blocks, j, i);
    }
  }

  // ----- the program -----

  method GroupByKey(intents: seq<Intent>) returns (groups: map<Key, seq<Intent>>, order: seq<Key>)
    ensures order == KeyOrder(intents)
    ensures forall k :: k in groups <==> k in order
    ensures forall k :: k in groups ==> groups[k] == Group(intents, k) && groups[k] == Members(intents, k)
  {
    forall k ensures Group(intents, k) == Members(intents, k) {
      GroupIsMembers(intents, k);
    }
    groups, order := map[], [];
    for i := 0 to |intents|
      invariant order == KeyOrder(intents[..i])
      invariant forall k :: k in groups <==> k in order
      invariant forall k :: k in groups ==> groups[k] == Group(intents[..i], k)
    {
      var key := KeyOf(intents[i]);
      assert intents[..i + 1][..i] == intents[..i];
      GroupNonempty(intents[..i], key);
      if key !in groups {
        groups := groups[key := []];
        order := order + [key];
      }
      groups := groups[key := groups[key] + [intents[i]]];
    }
    assert intents[..|intents|] == intents;
  }

  /** The two-pointer loop over the two sorted sides of `key`; `pairs` lists
      the pairs behind `matches`. */
  method PairUp(key: Key, sorted: seq<Intent>, reverseSorted: seq<Intent>,
                matches: seq<Match>, used: set<string>, ghost pairs: seq<Pair>)
    returns (matches': seq<Match>, used': set<string>)
    requires forall a :: a in sorted ==> KeyOf(a) == key
    requires matches == Matches(pairs) && used == Ids(pairs)
    ensures var ps := pairs + Walk(sorted, reverseSorted, 0, 0, used);
            matches' == Matches(ps) && used' == Ids(ps)
  {
    matches', used' := matches, used;
    ghost var ps := pairs;
    ghost var all := pairs + Walk(sorted, reverseSorted, 0, 0, used);
    var ai, bi := 0, 0;
    while ai < |sorted| && bi < |reverseSorted|
      invariant ai <= |sorted| && bi <= |reverseSorted|
      invariant matches' == Matches(ps) && used' == Ids(ps)
      invariant ps + Walk(sorted, reverseSorted, ai, bi, used') == all
      decreases |sorted| - ai + |reverseSorted| - bi
    {
      var a, b := sorted[ai], reverseSorted[bi];
      if a.id in used' {
        ai := ai + 1;
      } else if b.id in used' || a.id == b.id {
        bi := bi + 1;
      } else {
        var matchAmt := if a.amount < b.amount then a.amount else b.amount;
        assert KeyOf(a) == key;
        matches' := matches' + [Match(a.id, b.id, matchAmt, key.input, key.output)];
        used' := used' + {a.id, b.id};
        assert (ps + [Pair(a, b)])[..|ps|] == ps;
        assert ps + ([Pair(a, b)] + Walk(sorted, reverseSorted, ai + 1, bi + 1, used'))
            == (ps + [Pair(a, b)]) + Walk(sorted, reverseSorted, ai + 1, bi + 1, used');
        ps := ps + [Pair(a, b)];
        ai, bi := ai + 1, bi + 1;
      }
    }
    assert ps == all;
  }

  /** Sorting a group keeps its members' asset pair. */
  ghost predicate KeepsKeys(intents: seq<Intent>, sort: Sorter) {
    forall k, x :: x in SortedGroup(intents, sort, k) ==> KeyOf(x) == k
  }

  method VisitGroups(intents: seq<Intent>, sort: Sorter) returns (matches: seq<Match>)
    requires KeepsKeys(intents, sort)
    ensures matches == Matches(Visits(intents, sort, KeyOrder(intents), |KeyOrder(intents)|))
  {
    matches := [];
    var used: set<string> := {};
    var groups, order := GroupByKey(intents);
    for n := 0 to |order|
      invariant matches == Matches(Visits(intents, sort, order, n))
      invariant used == Ids(Visits(intents, sort, order, n))
    {
      var key := order[n];
      var reverseKey := Rev(key);
      GroupNonempty(intents, reverseKey);
      ghost var pairs := Visits(intents, sort, order, n);
      if reverseKey in groups {
        assert SortedGroup(intents, sort, key) == sort(groups[key]);
        matches, used := PairUp(key, sort(groups[key]), sort(groups[reverseKey]), matches, used, pairs);
      } else {
        assert pairs + [] == pairs;
      }
    }
  }

  /** `matchIntents`. */
  method MatchIntents(intents: seq<Intent>, sort: Sorter) returns (matches: seq<Match>)
    requires UniqueIds(intents) && IsSorter(sort)
    ensures matches == Matches(Pairs(intents, sort)) && matches == Blocks(intents, sort)
  {
    PairsAreBlocks(intents, sort);
    forall k, x | x in SortedGroup(intents, sort, k) ensures KeyOf(x) == k {
      SortedGroupFacts(intents, sort, k);
    }
    matches := VisitGroups(intents, sort);
    VisitsAreSimple(intents, sort);
  }
}
