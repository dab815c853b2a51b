/** The statements of persistSignedBatch (apps/mpc-committee/src/persist.ts) and
    queueSettlementJobs / settleOnce (apps/mpc-committee/src/settler.ts) as
    methods on the tables, and what they do when nothing comes between: the same
    as the steps of module Settlement taken in a row. */
module SettlementStore {
  import opened Wrappers
  import opened Netting
  import opened Settlement
  import opened SettlementExact

  // ----- persistence -----

  /** The rows after the first n updates, and whether none of them failed. */
  datatype Marks = Marks(mpc: map<string, MpcRow>, ok: bool)

  function Marked(mpc: map<string, MpcRow>, ms: seq<Match>, n: nat): Marks
    requires n <= 2 * |ms|
  {
    if n == 0 then Marks(mpc, true)
    else
      var prev := Marked(mpc, ms, n - 1);
      var row := MarkRow(prev.mpc, UpdateId(ms, n - 1), UpdateWith(ms, n - 1));
      if prev.ok && row.Some? then Marks(row.value, true) else Marks(prev.mpc, false)
  }

  lemma {:induction false} MarkedStuck(mpc: map<string, MpcRow>, ms: seq<Match>, m: nat, n: nat)
    requires m <= n <= 2 * |ms| && !Marked(mpc, ms, m).ok
    ensures Marked(mpc, ms, n) == Marked(mpc, ms, m)
  {
    if m < n {
      MarkedStuck(mpc, ms, m, n - 1);
    }
  }

  /** Both updates of one match. */
  function MarkMatch(mpc: map<string, MpcRow>, m: Match): Marks {
    var a := MarkRow(mpc, m.aId, m.bId);
    if a.None? then Marks(mpc, false)
    else
      var b := MarkRow(a.value, m.bId, m.aId);
      if b.None? then Marks(a.value, false) else Marks(b.value, true)
  }

  lemma MarkedNextTwo(mpc: map<string, MpcRow>, ms: seq<Match>, i: nat)
    requires i < |ms| && Marked(mpc, ms, 2 * i).ok
    ensures var r := MarkMatch(Marked(mpc, ms, 2 * i).mpc, ms[i]);
      Marked(mpc, ms, 2 * i + 2) == r
  {
    assert UpdateId(ms, 2 * i) == ms[i].aId && UpdateWith(ms, 2 * i) == ms[i].bId;
    assert UpdateId(ms, 2 * i + 1) == ms[i].bId && UpdateWith(ms, 2 * i + 1) == ms[i].aId;
  }

  lemma MarkedMatch(mpc: map<string, MpcRow>, ms: seq<Match>, i: nat)
    requires i < |ms| && Marked(mpc, ms, 2 * i).ok
    ensures var r := MarkMatch(Marked(mpc, ms, 2 * i).mpc, ms[i]);
      if r.ok then Marked(mpc, ms, 2 * (i + 1)) == r else Marked(mpc, ms, 2 * |ms|) == r
  {
    MarkedNextTwo(mpc, ms, i);
    if !Marked(mpc, ms, 2 * i + 2).ok {
      MarkedStuck(mpc, ms, 2 * i + 2, 2 * |ms|);
    }
  }

  /** Some of the first n updates is of id, with other. */
  predicate UpdatedWith(ms: seq<Match>, n: nat, id: string, other: string) {
    exists u :: 0 <= u < n && u < 2 * |ms| && UpdateId(ms, u) == id && UpdateWith(ms, u) == other
  }

  /** Both sides of every match have a row. */
  predicate HasRows(mpc: map<string, MpcRow>, ms: seq<Match>) {
    forall i :: 0 <= i < |ms| ==> ms[i].aId in mpc && ms[i].bId in mpc
  }

  /** id is among the first n updates. */
  predicate Updated(ms: seq<Match>, n: nat, id: string) { exists u :: 0 <= u < n && u < 2 * |ms| && UpdateId(ms, u) == id }

  lemma {:induction false} MarkedFrom(mpc: map<string, MpcRow>, ms: seq<Match>, n: nat, id: string)
    requires n <= 2 * |ms| && HasRows(mpc, ms)
    ensures var r := Marked(mpc, ms, n);
      && r.ok && r.mpc.Keys == mpc.Keys
      && (if Updated(ms, n, id)
          then id in r.mpc && r.mpc[id].matched && r.mpc[id].matchedWith.Some? && UpdatedWith(ms, n, id, r.mpc[id].matchedWith.value)
          else id in mpc ==> r.mpc[id] == mpc[id])
  {
    if n > 0 {
      MarkedFrom(mpc, ms, n - 1, id);
      var x, y := UpdateId(ms, n - 1), UpdateWith(ms, n - 1);
      assert ms[(n - 1) / 2].aId in mpc && ms[(n - 1) / 2].bId in mpc;
      var before, r := Marked(mpc, ms, n - 1), Marked(mpc, ms, n);
      assert r.ok && r.mpc == before.mpc[x := MpcRow(true, Some(y))];
      if x == id {
        assert UpdatedWith(ms, n, id, y);
      } else if Updated(ms, n - 1, id) {
        var u :| 0 <= u < n - 1 && UpdateId(ms, u) == id && UpdateWith(ms, u) == before.mpc[id].matchedWith.value;
        assert UpdatedWith(ms, n, id, before.mpc[id].matchedWith.value);
      }
    }
  }

  lemma MarkedKeys(mpc: map<string, MpcRow>, ms: seq<Match>)
    requires HasRows(mpc, ms)
    ensures var r := Marked(mpc, ms, 2 * |ms|); r.ok && r.mpc.Keys == mpc.Keys
  {
    MarkedFrom(mpc, ms, 2 * |ms|, "");
  }

  lemma RowsSuffice(mpc: map<string, MpcRow>, ms: seq<Match>)
    ensures HasRows(mpc, ms) ==> Marked(mpc, ms, 2 * |ms|).ok
  {
    if HasRows(mpc, ms) {
      MarkedKeys(mpc, ms);
    }
  }

  predicate InMatches(ms: seq<Match>, id: string) { exists i :: 0 <= i < |ms| && Touches(ms[i], id) }

  predicate PairMarked(mpc: map<string, MpcRow>, m: Match) {
    && m.aId in mpc && mpc[m.aId] == MpcRow(true, Some(m.bId))
    && m.bId in mpc && mpc[m.bId] == MpcRow(true, Some(m.aId))
  }

  /** Persisting a sound batch whose rows exist matches both sides of each match
      with one another and touches no other row. */
  lemma PersistedRows(mpc: map<string, MpcRow>, ms: seq<Match>, ids: set<string>)
    requires Sound(ms, ids) && HasRows(mpc, ms)
    ensures var r := Marked(mpc, ms, 2 * |ms|);
      && r.ok && r.mpc.Keys == mpc.Keys
      && (forall i :: 0 <= i < |ms| ==> PairMarked(r.mpc, ms[i]))
      && (forall id :: id in mpc && !InMatches(ms, id) ==> r.mpc[id] == mpc[id])
  {
    MarkedKeys(mpc, ms);
    forall i | 0 <= i < |ms| ensures PairMarked(Marked(mpc, ms, 2 * |ms|).mpc, ms[i]) {
      MarkedPair(mpc, ms, ids, i);
    }
    forall id | id in mpc && !InMatches(ms, id) ensures Marked(mpc, ms, 2 * |ms|).mpc[id] == mpc[id] {
      UntouchedRow(mpc, ms, id);
    }
  }

  lemma MarkedPair(mpc: map<string, MpcRow>, ms: seq<Match>, ids: set<string>, i: nat)
    requires Sound(ms, ids) && HasRows(mpc, ms) && i < |ms|
    ensures PairMarked(Marked(mpc, ms, 2 * |ms|).mpc, ms[i])
  {
    MarkedRow(mpc, ms, ids, 2 * i);
    MarkedRow(mpc, ms, ids, 2 * i + 1);
  }

  lemma UntouchedRow(mpc: map<string, MpcRow>, ms: seq<Match>, id: string)
    requires HasRows(mpc, ms) && id in mpc && !InMatches(ms, id)
    ensures var r := Marked(mpc, ms, 2 * |ms|); id in r.mpc && r.mpc[id] == mpc[id]
  {
    MarkedFrom(mpc, ms, 2 * |ms|, id);
    forall u | 0 <= u < 2 * |ms| ensures UpdateId(ms, u) != id {
      assert !Touches(ms[u / 2], id);
    }
  }

  lemma MarkedRow(mpc: map<string, MpcRow>, ms: seq<Match>, ids: set<string>, u: nat)
    requires Sound(ms, ids) && HasRows(mpc, ms) && u < 2 * |ms|
    ensures var r := Marked(mpc, ms, 2 * |ms|); UpdateId(ms, u) in r.mpc
    ensures var r := Marked(mpc, ms, 2 * |ms|); r.mpc[UpdateId(ms, u)] == MpcRow(true, Some(UpdateWith(ms, u)))
  {
    var id := UpdateId(ms, u);
    MarkedFrom(mpc, ms, 2 * |ms|, id);
    var v :| 0 <= v < 2 * |ms| && UpdateId(ms, v) == id && UpdateWith(ms, v) == Marked(mpc, ms, 2 * |ms|).mpc[id].matchedWith.value;
    assert Touches(ms[u / 2], id) && Touches(ms[v / 2], id);
    assert u / 2 == v / 2;
    assert SoundAt(ms, ids, u / 2);
  }

  // ----- persistence with rows missing -----

  /** The sides of the match both have a row, or neither has. */
  predicate Even(mpc: map<string, MpcRow>, m: Match) { m.aId in mpc <==> m.bId in mpc }

  /** The match is id's, and both sides have a row. */
  predicate BothMarked(mpc: map<string, MpcRow>, m: Match, id: string) { Touches(m, id) && m.aId in mpc && m.bId in mpc }

  function Partner(m: Match, id: string): string { if m.aId == id then m.bId else m.aId }

  /** The row of id after the first n matches of a sound batch: its partner named
      where both rows exist, as before otherwise. */
  ghost predicate RowIs(mpc: map<string, MpcRow>, mpc': map<string, MpcRow>, ms: seq<Match>, n: nat, id: string) {
    n <= |ms| && id in mpc && id in mpc'
    && (forall i :: 0 <= i < n && BothMarked(mpc, ms[i], id) ==> mpc'[id] == MpcRow(true, Some(Partner(ms[i], id))))
    && ((forall i :: 0 <= i < n ==> !BothMarked(mpc, ms[i], id)) ==> mpc'[id] == mpc[id])
  }

  ghost predicate MarkedRows(mpc: map<string, MpcRow>, mpc': map<string, MpcRow>, ms: seq<Match>, n: nat) {
    mpc'.Keys == mpc.Keys && n <= |ms| && forall id :: id in mpc ==> RowIs(mpc, mpc', ms, n, id)
  }

  lemma MarkMatchRows(mpc: map<string, MpcRow>, m: Match)
    requires m.aId != m.bId
    ensures var r := MarkMatch(mpc, m);
      && r.ok == Even(mpc, m)
      && r.mpc == if m.aId in mpc && m.bId in mpc
                  then mpc[m.aId := MpcRow(true, Some(m.bId))][m.bId := MpcRow(true, Some(m.aId))] else mpc
  {
  }

  lemma SameEven(mpc: map<string, MpcRow>, mpc': map<string, MpcRow>, m: Match)
    requires mpc'.Keys == mpc.Keys
    ensures Even(mpc', m) == Even(mpc, m) && (m.aId in mpc' <==> m.aId in mpc) && (m.bId in mpc' <==> m.bId in mpc)
  {
    assert m.aId in mpc'.Keys <==> m.aId in mpc.Keys;
    assert m.bId in mpc'.Keys <==> m.bId in mpc.Keys;
  }

  /** What the n-th match does to rows that the first n have marked. */
  lemma MarkedNext(mpc: map<string, MpcRow>, mpc': map<string, MpcRow>, ms: seq<Match>, ids: set<string>, n: nat)
    requires Sound(ms, ids) && n < |ms| && MarkedRows(mpc, mpc', ms, n)
    ensures MarkMatch(mpc', ms[n]).ok == Even(mpc, ms[n])
    ensures !Even(mpc, ms[n]) ==> MarkMatch(mpc', ms[n]).mpc == mpc'
  {
    assert SoundAt(ms, ids, n);
    MarkMatchRows(mpc', ms[n]);
    SameEven(mpc, mpc', ms[n]);
  }

  lemma RowNext(mpc: map<string, MpcRow>, mpc': map<string, MpcRow>, after: map<string, MpcRow>,
                ms: seq<Match>, ids: set<string>, n: nat, id: string)
    requires Sound(ms, ids) && n < |ms| && RowIs(mpc, mpc', ms, n, id) && id in after
    requires after[id] == if BothMarked(mpc, ms[n], id) then MpcRow(true, Some(Partner(ms[n], id))) else mpc'[id]
    ensures RowIs(mpc, after, ms, n + 1, id)
  {
    if BothMarked(mpc, ms[n], id) {
      forall i | 0 <= i < n ensures !BothMarked(mpc, ms[i], id) {
        assert Touches(ms[n], id);
      }
    } else if forall i :: 0 <= i < n + 1 ==> !BothMarked(mpc, ms[i], id) {
      assert forall i :: 0 <= i < n ==> !BothMarked(mpc, ms[i], id);
    }
  }

  lemma AfterMatch(mpc: map<string, MpcRow>, mpc': map<string, MpcRow>, m: Match, id: string)
    requires mpc'.Keys == mpc.Keys && m.aId != m.bId && Even(mpc, m) && id in mpc
    ensures var after := MarkMatch(mpc', m).mpc;
      && after.Keys == mpc.Keys && id in after && id in mpc'
      && after[id] == if BothMarked(mpc, m, id) then MpcRow(true, Some(Partner(m, id))) else mpc'[id]
  {
    MarkMatchRows(mpc', m);
    SameEven(mpc, mpc', m);
    assert id in mpc'.Keys;
  }

  lemma MarkedRowsNext(mpc: map<string, MpcRow>, mpc': map<string, MpcRow>, ms: seq<Match>, ids: set<string>, n: nat)
    requires Sound(ms, ids) && n < |ms| && MarkedRows(mpc, mpc', ms, n) && Even(mpc, ms[n])
    ensures MarkedRows(mpc, MarkMatch(mpc', ms[n]).mpc, ms, n + 1)
  {
    var after := MarkMatch(mpc', ms[n]).mpc;
    assert SoundAt(ms, ids, n);
    MarkMatchRows(mpc', ms[n]);
    SameEven(mpc, mpc', ms[n]);
    assert after.Keys == mpc.Keys;
    forall id | id in mpc ensures RowIs(mpc, after, ms, n + 1, id) {
      AfterMatch(mpc, mpc', ms[n], id);
      RowNext(mpc, mpc', after, ms, ids, n, id);
    }
  }

  /** The first n matches went through. */
  ghost predicate Through(mpc: map<string, MpcRow>, ms: seq<Match>, n: nat) {
    n <= |ms| && Marked(mpc, ms, 2 * n).ok && MarkedRows(mpc, Marked(mpc, ms, 2 * n).mpc, ms, n)
  }

  lemma ThroughNext(mpc: map<string, MpcRow>, ms: seq<Match>, ids: set<string>, n: nat)
    requires Sound(ms, ids) && n < |ms| && Through(mpc, ms, n) && Even(mpc, ms[n])
    ensures Through(mpc, ms, n + 1)
  {
    MarkedNext(mpc, Marked(mpc, ms, 2 * n).mpc, ms, ids, n);
    MarkedRowsNext(mpc, Marked(mpc, ms, 2 * n).mpc, ms, ids, n);
    MarkedMatch(mpc, ms, n);
  }

  lemma ThroughStops(mpc: map<string, MpcRow>, ms: seq<Match>, ids: set<string>, n: nat)
    requires Sound(ms, ids) && n < |ms| && Through(mpc, ms, n) && !Even(mpc, ms[n])
    ensures Marked(mpc, ms, 2 * |ms|) == Marks(Marked(mpc, ms, 2 * n).mpc, false)
  {
    MarkedNext(mpc, Marked(mpc, ms, 2 * n).mpc, ms, ids, n);
    MarkedMatch(mpc, ms, n);
  }

  /** Persistence of a sound batch, exactly: it goes through if and only if every
      match has both rows or none, and otherwise stops at the first match that has
      one; the rows of the matches before it that have both name their partners,
      and no other row changes. */
  lemma {:induction false} PersistExactly(mpc: map<string, MpcRow>, ms: seq<Match>, ids: set<string>, n: nat)
    requires Sound(ms, ids) && n <= |ms| && forall i :: 0 <= i < n ==> Even(mpc, ms[i])
    ensures Through(mpc, ms, n)
    ensures n < |ms| && !Even(mpc, ms[n]) ==> Marked(mpc, ms, 2 * |ms|) == Marks(Marked(mpc, ms, 2 * n).mpc, false)
  {
    if n > 0 {
      PersistExactly(mpc, ms, ids, n - 1);
      ThroughNext(mpc, ms, ids, n - 1);
    }
    if n < |ms| && !Even(mpc, ms[n]) {
      ThroughStops(mpc, ms, ids, n);
    }
  }

  /** `ON CONFLICT DO NOTHING`: a batch row that is there stays as it is. */
  lemma InsertExactly(batches: map<string, BatchRow>, b: string, ms: seq<Match>, c: string)
    ensures var batches' := InsertBatch(batches, b, ms);
      && (c in batches' <==> c in batches || c == b)
      && (c in batches ==> batches'[c] == batches[c])
      && (c == b && c !in batches ==> batches'[c].matches == ms && batches'[c].status.Pending?)
  {
  }

  // ----- the settler -----

  /** The jobs after the first n matches. */
  function QueuedJobs(jobs: seq<Job>, rfq: map<string, bool>, b: string, ms: seq<Match>, n: nat): seq<Job>
    requires n <= |ms|
  {
    if n == 0 then jobs
    else
      var prev := QueuedJobs(jobs, rfq, b, ms, n - 1);
      if RfqSide(ms[n - 1], rfq) then prev else Enqueued(prev, Job(JobKey(b, n - 1), ms[n - 1]))
  }

  /** How many of the first n matches have no RFQ side. */
  function DirectCount(rfq: map<string, bool>, ms: seq<Match>, n: nat): nat
    requires n <= |ms|
  {
    if n == 0 then 0 else DirectCount(rfq, ms, n - 1) + (if RfqSide(ms[n - 1], rfq) then 0 else 1)
  }

  lemma JobsSnoc(jobs: seq<Job>, job: Job, key: JobKey)
    ensures HasJob(Enqueued(jobs, job), key) <==> HasJob(jobs, key) || key == job.key
  {
    var more := jobs + [job];
    if HasJob(jobs, key) {
      var k :| 0 <= k < |jobs| && jobs[k].key == key;
      assert more[k].key == key;
    } else {
      assert more[|jobs|].key == job.key;
    }
  }

  /** A key has a job afterwards iff it had one, or it is the key of a match
      without an RFQ side. */
  lemma {:induction false} QueuedExactly(jobs: seq<Job>, rfq: map<string, bool>, b: string, ms: seq<Match>, n: nat, key: JobKey)
    requires n <= |ms|
    ensures HasJob(QueuedJobs(jobs, rfq, b, ms, n), key)
            <==> HasJob(jobs, key) || (key.batchId == b && key.index < n && !RfqSide(ms[key.index], rfq))
  {
    if n > 0 {
      QueuedExactly(jobs, rfq, b, ms, n - 1, key);
      JobsSnoc(QueuedJobs(jobs, rfq, b, ms, n - 1), Job(JobKey(b, n - 1), ms[n - 1]), key);
    }
  }

  /** The jobs of a pass: the old ones first, then those of direct matches in
      order, each for the match its key names. */
  ghost predicate PassJobs(jobs: seq<Job>, jobs': seq<Job>, rfq: map<string, bool>, b: string, ms: seq<Match>, n: nat) {
    && jobs <= jobs'
    && (forall k :: |jobs| <= k < |jobs'| ==>
          && jobs'[k].key.batchId == b && jobs'[k].key.index < n && jobs'[k].key.index < |ms|
          && jobs'[k].m == ms[jobs'[k].key.index] && !RfqSide(jobs'[k].m, rfq))
    && (forall k, l :: |jobs| <= k < l < |jobs'| ==> jobs'[k].key.index < jobs'[l].key.index)
  }

  lemma {:induction false} QueuedShape(jobs: seq<Job>, rfq: map<string, bool>, b: string, ms: seq<Match>, n: nat)
    requires n <= |ms|
    ensures PassJobs(jobs, QueuedJobs(jobs, rfq, b, ms, n), rfq, b, ms, n)
  {
    if n > 0 {
      QueuedShape(jobs, rfq, b, ms, n - 1);
    }
  }

  lemma {:induction false} NothingLeft(jobs: seq<Job>, rfq: map<string, bool>, b: string, ms: seq<Match>, n: nat)
    requires n <= |ms| && forall i: nat :: i < n && !RfqSide(ms[i], rfq) ==> HasJob(jobs, JobKey(b, i))
    ensures QueuedJobs(jobs, rfq, b, ms, n) == jobs
  {
    if n > 0 {
      NothingLeft(jobs, rfq, b, ms, n - 1);
    }
  }

  lemma Requeued(jobs: seq<Job>, rfq: map<string, bool>, b: string, ms: seq<Match>, k: nat)
    requires k <= |ms|
    ensures QueuedJobs(QueuedJobs(jobs, rfq, b, ms, k), rfq, b, ms, k) == QueuedJobs(jobs, rfq, b, ms, k)
  {
    var mid := QueuedJobs(jobs, rfq, b, ms, k);
    forall i: nat | i < k && !RfqSide(ms[i], rfq) ensures HasJob(mid, JobKey(b, i)) {
      QueuedExactly(jobs, rfq, b, ms, k, JobKey(b, i));
    }
    NothingLeft(mid, rfq, b, ms, k);
  }

  /** A settler that starts over after another one stopped at match k ends with
      the jobs of one uninterrupted pass. */
  lemma {:induction false} RestartIdempotent(jobs: seq<Job>, rfq: map<string, bool>, b: string, ms: seq<Match>, k: nat, n: nat)
    requires k <= n <= |ms|
    ensures QueuedJobs(QueuedJobs(jobs, rfq, b, ms, k), rfq, b, ms, n) == QueuedJobs(jobs, rfq, b, ms, n)
  {
    if n == k {
      Requeued(jobs, rfq, b, ms, k);
    } else {
      RestartIdempotent(jobs, rfq, b, ms, k, n - 1);
    }
  }

  lemma {:induction false} DirectPositive(rfq: map<string, bool>, ms: seq<Match>, n: nat)
    requires n <= |ms|
    ensures DirectCount(rfq, ms, n) > 0 <==> exists i :: 0 <= i < n && !RfqSide(ms[i], rfq)
  {
    if n > 0 {
      DirectPositive(rfq, ms, n - 1);
    }
  }

  // ----- the tables -----

  /** A batch row after its settler is done with it. */
  function SettledBatch(batches: map<string, BatchRow>, rfq: map<string, bool>, b: string): map<string, BatchRow>
    requires b in batches
  {
    var ms := batches[b].matches;
    batches[b := batches[b].(status := SettledStatus(DirectCount(rfq, ms, |ms|)))]
  }

  class Store {
    var rfq: map<string, bool>
    var mpc: map<string, MpcRow>
    var batches: map<string, BatchRow>
    var jobs: seq<Job>

    constructor ()
      ensures rfq == map[] && mpc == map[] && batches == map[] && jobs == []
    {
      rfq, mpc, batches, jobs := map[], map[], map[], [];
    }

    /** One UPDATE of mpc_intents. */
    method UpdateRow(id: string, other: string) returns (ok: bool)
      modifies this`mpc
      ensures ok == MarkRow(old(mpc), id, other).Some?
      ensures mpc == if ok then MarkRow(old(mpc), id, other).value else old(mpc)
    {
      ok := true;
      if id in mpc {
        if other in mpc {
          mpc := mpc[id := MpcRow(true, Some(other))];
        } else {
          ok := false;
        }
      }
    }

    /** persistSignedBatch; not ok: an update failed and the rest did not happen. */
    method PersistSignedBatch(batchId: string, matches: seq<Match>) returns (ok: bool)
      modifies this`mpc, this`batches
      ensures batches == InsertBatch(old(batches), batchId, matches)
      ensures Marks(mpc, ok) == Marked(old(mpc), matches, 2 * |matches|)
      ensures HasRows(old(mpc), matches) ==> ok
    {
      if batchId !in batches {
        batches := batches[batchId := BatchRow(matches, Pending)];
      }
      RowsSuffice(mpc, matches);
      ok := true;
      for i := 0 to |matches|
        invariant ok && Marks(mpc, true) == Marked(old(mpc), matches, 2 * i)
        invariant batches == InsertBatch(old(batches), batchId, matches)
      {
        MarkedMatch(old(mpc), matches, i);
        ok := UpdateRow(matches[i].aId, matches[i].bId);
        if !ok {
          return;
        }
        ok := UpdateRow(matches[i].bId, matches[i].aId);
        if !ok {
          return;
        }
      }
    }

    method IsRfqRouted(id: string) returns (routed: bool)
      ensures routed <==> id in rfq
    {
      routed := id in rfq;
    }

    method Enqueue(key: JobKey, m: Match)
      modifies this`jobs
      ensures jobs == Enqueued(old(jobs), Job(key, m))
    {
      var k := 0;
      while k < |jobs| && jobs[k].key != key
        invariant k <= |jobs| && forall l :: 0 <= l < k ==> jobs[l].key != key
      {
        k := k + 1;
      }
      if k == |jobs| {
        jobs := jobs + [Job(key, m)];
      }
    }

    /** queueSettlementJobs: exactly the matches without an RFQ side get a job, and
        the batch leaves `pending`. */
    method QueueSettlementJobs(b: string)
      requires b in batches
      modifies this`jobs, this`batches
      ensures jobs == QueuedJobs(old(jobs), rfq, b, old(batches)[b].matches, |old(batches)[b].matches|)
      ensures batches == SettledBatch(old(batches), rfq, b)
      ensures batches[b].status == Queued <==> exists i :: 0 <= i < |batches[b].matches| && !RfqSide(batches[b].matches[i], rfq)
    {
      var ms := batches[b].matches;
      var queued, skipped := 0, 0;
      for i := 0 to |ms|
        invariant jobs == QueuedJobs(old(jobs), rfq, b, ms, i) && queued == DirectCount(rfq, ms, i)
        invariant queued + skipped == i && batches == old(batches)
      {
        var aRouted := IsRfqRouted(ms[i].aId);
        var bRouted := IsRfqRouted(ms[i].bId);
        if aRouted || bRouted {
          skipped := skipped + 1;
        } else {
          Enqueue(JobKey(b, i), ms[i]);
          queued := queued + 1;
        }
      }
      DirectPositive(rfq, ms, |ms|);
      batches := batches[b := batches[b].(status := if queued > 0 then Queued else RfqRouted)];
    }

    /** settleOnce over the pending batches its query returned. */
    method SettleOnce(pending: seq<string>) returns (n: nat)
      requires forall k :: 0 <= k < |pending| ==> pending[k] in batches
      modifies this`jobs, this`batches
      ensures n == |pending| && batches.Keys == old(batches).Keys
      ensures forall b :: b in batches ==> batches[b].matches == old(batches)[b].matches
      ensures forall b :: b in batches && b !in pending ==> batches[b] == old(batches)[b]
      ensures forall k :: 0 <= k < |pending| ==> pending[k] in batches && batches[pending[k]].status != Pending
      ensures forall key :: HasJob(jobs, key) <==> HasJob(old(jobs), key) || DueNow(old(batches), pending, rfq, key)
    {
      for k := 0 to |pending|
        invariant batches.Keys == old(batches).Keys
        invariant forall b :: b in batches ==> batches[b].matches == old(batches)[b].matches
        invariant forall b :: b in batches && b !in pending[..k] ==> batches[b] == old(batches)[b]
        invariant forall l :: 0 <= l < k ==> pending[l] in batches && batches[pending[l]].status != Pending
        invariant forall key :: HasJob(jobs, key) <==> HasJob(old(jobs), key) || DueNow(old(batches), pending[..k], rfq, key)
      {
        ghost var before := jobs;
        ghost var ms := batches[pending[k]].matches;
        QueueSettlementJobs(pending[k]);
        forall key ensures HasJob(jobs, key) <==> HasJob(old(jobs), key) || DueNow(old(batches), pending[..k + 1], rfq, key) {
          QueuedExactly(before, rfq, pending[k], ms, |ms|, key);
          assert pending[..k + 1] == pending[..k] + [pending[k]];
        }
      }
      assert pending[..|pending|] == pending;
      n := |pending|;
    }
  }

  /** The key is that of a match of one of the batches, without an RFQ side. */
  predicate DueNow(batches: map<string, BatchRow>, pending: seq<string>, rfq: map<string, bool>, key: JobKey) {
    && key.batchId in pending && key.batchId in batches && key.index < |batches[key.batchId].matches|
    && !RfqSide(batches[key.batchId].matches[key.index], rfq)
  }

  // ----- the same as the steps taken in a row -----

  /** w' is w after the insert and the first k updates. */
  predicate PersistedTo(w: World, w': World, n: nat, b: string, ms: seq<Match>, k: nat)
    requires k <= 2 * |ms|
  {
    var r := Marked(w.mpc, ms, k);
    && w'.batches == InsertBatch(w.batches, b, ms) && w'.mpc == r.mpc
    && (if r.ok then n in w'.procs && w'.procs[n] == P(Persist(b, ms, k + 1)) else n !in w'.procs)
  }

  lemma PersistFirst(w: World, n: nat, b: string, ms: seq<Match>)
    requires n in w.procs && w.procs[n] == P(Persist(b, ms, 0))
    ensures PersistedTo(w, DoPersist(w, n, Persist(b, ms, 0)), n, b, ms, 0)
  {
  }

  lemma PersistOneMore(w: World, w': World, n: nat, b: string, ms: seq<Match>, k: nat)
    requires k < 2 * |ms| && PersistedTo(w, w', n, b, ms, k)
    ensures PersistedTo(w, if n in w'.procs then DoPersist(w', n, Persist(b, ms, k + 1)) else w', n, b, ms, k + 1)
  {
  }

  /** The next statement of process n, if it is a persistence process. */
  lemma PersistStep(w: World, n: nat)
    ensures Do(w, PersistNext(n)) == if n in w.procs && w.procs[n].P? then DoPersist(w, n, w.procs[n].persist) else w
  {
  }

  lemma PersistFrom(w: World, before: seq<Step>, n: nat, b: string, ms: seq<Match>, k: nat)
    requires k < 2 * |ms| && PersistedTo(w, Run(w, before), n, b, ms, k)
    ensures PersistedTo(w, Run(w, before + [PersistNext(n)]), n, b, ms, k + 1)
  {
    RunThen(w, before, PersistNext(n));
    PersistStep(Run(w, before), n);
    PersistOneMore(w, Run(w, before), n, b, ms, k);
  }

  /** k statements of process n's persistence in a row. */
  function PersistSteps(n: nat, k: nat): seq<Step> {
    if k == 0 then [] else PersistSteps(n, k - 1) + [PersistNext(n)]
  }

  lemma PersistFromStart(w: World, n: nat, b: string, ms: seq<Match>)
    requires n in w.procs && w.procs[n] == P(Persist(b, ms, 0))
    ensures PersistedTo(w, Run(w, [PersistNext(n)]), n, b, ms, 0)
  {
    RunOne(w, PersistNext(n));
    PersistStep(w, n);
    PersistFirst(w, n, b, ms);
  }

  /** A persistence process left alone: insert, then the updates one by one, up
      to the first that fails. */
  lemma {:induction false} PersistUninterrupted(w: World, n: nat, b: string, ms: seq<Match>, k: nat)
    requires n in w.procs && w.procs[n] == P(Persist(b, ms, 0)) && k <= 2 * |ms|
    ensures PersistedTo(w, Run(w, PersistSteps(n, k + 1)), n, b, ms, k)
  {
    if k > 0 {
      PersistUninterrupted(w, n, b, ms, k - 1);
      PersistFrom(w, PersistSteps(n, k), n, b, ms, k - 1);
    } else {
      PersistFromStart(w, n, b, ms);
      assert PersistSteps(n, 1) == [PersistNext(n)];
    }
  }

  /** w' is w after the first k matches of the settler's batch. */
  predicate SettledTo(w: World, w': World, n: nat, b: string, ms: seq<Match>, k: nat)
    requires k <= |ms|
  {
    && w'.rfq == w.rfq && w'.batches == w.batches && n in w'.procs
    && w'.procs[n] == S(Settler(b, ms, k, DirectCount(w.rfq, ms, k), None, None))
    && w'.jobs == QueuedJobs(w.jobs, w.rfq, b, ms, k)
  }

  lemma ReadBoth(w: World, n: nat, t: Settler)
    requires n in w.procs && w.procs[n] == S(t) && t.i < |t.matches| && t.rfqA.None? && t.rfqB.None?
    ensures var w', m := Do(Do(w, ReadSide(n, true)), ReadSide(n, false)), t.matches[t.i];
      && w'.rfq == w.rfq && w'.batches == w.batches && w'.jobs == w.jobs && n in w'.procs
      && w'.procs[n] == S(t.(rfqA := Some(m.aId in w.rfq), rfqB := Some(m.bId in w.rfq)))
  {
    var w1 := Do(w, ReadSide(n, true));
    assert w1.procs[n] == S(t.(rfqA := Some(t.matches[t.i].aId in w.rfq)));
  }

  lemma DecideMatch(w: World, n: nat, t: Settler, a: bool, b: bool)
    requires n in w.procs && w.procs[n] == S(t) && t.i < |t.matches| && t.rfqA == Some(a) && t.rfqB == Some(b)
    ensures var w' := Do(w, SettleMatch(n));
      && w'.rfq == w.rfq && w'.batches == w.batches && n in w'.procs
      && w'.procs[n] == S(Settler(t.batchId, t.matches, t.i + 1, t.queued + (if a || b then 0 else 1), None, None))
      && w'.jobs == if a || b then w.jobs else Enqueued(w.jobs, Job(JobKey(t.batchId, t.i), t.matches[t.i]))
  {
  }

  /** Both reads and the decision about one match. */
  lemma OneMatch(w: World, n: nat, t: Settler)
    requires n in w.procs && w.procs[n] == S(t) && t.i < |t.matches| && t.rfqA.None? && t.rfqB.None?
    ensures var w' := Do(Do(Do(w, ReadSide(n, true)), ReadSide(n, false)), SettleMatch(n));
            var skip := RfqSide(t.matches[t.i], w.rfq);
      && w'.rfq == w.rfq && w'.batches == w.batches && n in w'.procs
      && w'.procs[n] == S(Settler(t.batchId, t.matches, t.i + 1, t.queued + (if skip then 0 else 1), None, None))
      && w'.jobs == if skip then w.jobs else Enqueued(w.jobs, Job(JobKey(t.batchId, t.i), t.matches[t.i]))
  {
    var w', m := Do(Do(w, ReadSide(n, true)), ReadSide(n, false)), t.matches[t.i];
    ReadBoth(w, n, t);
    DecideMatch(w', n, w'.procs[n].settler, m.aId in w.rfq, m.bId in w.rfq);
  }

  lemma RunMatch(w: World, before: seq<Step>, n: nat)
    ensures Run(w, before + [ReadSide(n, true)] + [ReadSide(n, false)] + [SettleMatch(n)])
         == Do(Do(Do(Run(w, before), ReadSide(n, true)), ReadSide(n, false)), SettleMatch(n))
  {
    RunThen(w, before, ReadSide(n, true));
    RunThen(w, before + [ReadSide(n, true)], ReadSide(n, false));
    RunThen(w, before + [ReadSide(n, true)] + [ReadSide(n, false)], SettleMatch(n));
  }

  lemma SettleFrom(w: World, before: seq<Step>, n: nat, b: string, ms: seq<Match>, k: nat)
    requires k < |ms| && SettledTo(w, Run(w, before), n, b, ms, k)
    ensures SettledTo(w, Run(w, before + [ReadSide(n, true)] + [ReadSide(n, false)] + [SettleMatch(n)]), n, b, ms, k + 1)
  {
    RunMatch(w, before, n);
    OneMatch(Run(w, before), n, Settler(b, ms, k, DirectCount(w.rfq, ms, k), None, None));
  }

  /** k matches of process n's settler in a row. */
  function SettlerSteps(n: nat, k: nat): seq<Step> {
    if k == 0 then [] else SettlerSteps(n, k - 1) + [ReadSide(n, true)] + [ReadSide(n, false)] + [SettleMatch(n)]
  }

  /** A settler left alone: its matches in order. */
  lemma {:induction false} SettleUninterrupted(w: World, n: nat, b: string, ms: seq<Match>, k: nat)
    requires n in w.procs && k <= |ms| && w.procs[n] == S(Settler(b, ms, 0, 0, None, None))
    ensures SettledTo(w, Run(w, SettlerSteps(n, k)), n, b, ms, k)
  {
    if k > 0 {
      SettleUninterrupted(w, n, b, ms, k - 1);
      SettleFrom(w, SettlerSteps(n, k - 1), n, b, ms, k - 1);
    } else {
      assert Run(w, []) == w;
    }
  }

  lemma MarkEffect(w: World, n: nat, b: string, queued: nat)
    requires b in w.batches && n in w.procs
    requires w.procs[n] == S(Settler(b, w.batches[b].matches, |w.batches[b].matches|, queued, None, None))
    ensures var w' := Do(w, MarkBatch(n));
      w'.jobs == w.jobs && w'.batches == w.batches[b := w.batches[b].(status := SettledStatus(queued))]
  {
  }

  /** And then the new status: the whole of queueSettlementJobs. */
  lemma MarkUninterrupted(w: World, n: nat, b: string)
    requires b in w.batches && n in w.procs && w.procs[n] == S(Settler(b, w.batches[b].matches, 0, 0, None, None))
    ensures var ms := w.batches[b].matches;
            var done := Run(w, SettlerSteps(n, |ms|) + [MarkBatch(n)]);
      done.batches == SettledBatch(w.batches, w.rfq, b) && done.jobs == QueuedJobs(w.jobs, w.rfq, b, ms, |ms|)
  {
    var ms := w.batches[b].matches;
    SettleUninterrupted(w, n, b, ms, |ms|);
    RunThen(w, SettlerSteps(n, |ms|), MarkBatch(n));
    MarkEffect(Run(w, SettlerSteps(n, |ms|)), n, b, DirectCount(w.rfq, ms, |ms|));
  }
}
