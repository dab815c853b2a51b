/** The hand-off from signed batches to settlement, as a step system over the
    database: persistence (apps/mpc-committee/src/persist.ts), the settler
    (apps/mpc-committee/src/settler.ts) and the RFQ side of the API
    (apps/api/src/routes.ts). Every statement is one step, any process may stop
    for good between two statements, and processes interleave freely.

    The committee appears as what it may do: sign sound batches over submitted
    intents; module Handoff shows that the protocol does no more. */
module Settlement {
  import opened Wrappers
  import opened Netting

  /** A row of mpc_intents. */
  datatype MpcRow = MpcRow(matched: bool, matchedWith: Option<string>)

  datatype BatchStatus = Pending | Queued | RfqRouted

  /** A row of mpc_batches. */
  datatype BatchRow = BatchRow(matches: seq<Match>, status: BatchStatus)

  /** The idempotency key `mpc_settle:<batch>:<index>` of a relayer job. */
  datatype JobKey = JobKey(batchId: string, index: nat)

  datatype Job = Job(key: JobKey, m: Match)

  /** An RFQ settlement; gated: the MPC gate saw the intent routed. */
  datatype RfqSettlement = RfqSettlement(id: string, gated: bool)

  /** persistSignedBatch after `pc` of its statements: the batch row, then two
      row updates per match. */
  datatype Persist = Persist(batchId: string, matches: seq<Match>, pc: nat)

  /** queueSettlementJobs at match `i`: what it read about the two sides, and how
      many jobs it queued so far. */
  datatype Settler = Settler(batchId: string, matches: seq<Match>, i: nat, queued: nat,
                             rfqA: Option<bool>, rfqB: Option<bool>)

  datatype Stage = Found | Routed | Confirmed(gated: bool)

  /** POST /v1/rfq/settle for one intent. */
  datatype Settle = Settle(id: string, stage: Stage)

  datatype Process = P(persist: Persist) | S(settler: Settler) | R(settle: Settle)

  /** rfq: the `intents` table, true when mpc_session_id is set; submitted and
      signed: what the committee was sent and has signed; late: intents whose
      RFQ row was created after they had been submitted; missed: intents whose
      mpc_intents row was absent when persistence came to it; completed: batches
      whose persistence ran to its end. */
  datatype World = World(rfq: map<string, bool>, mpc: map<string, MpcRow>, batches: map<string, BatchRow>,
                         jobs: seq<Job>, settlements: set<RfqSettlement>, procs: map<nat, Process>, next: nat,
                         submitted: set<string>, signed: map<string, seq<Match>>,
                         late: set<string>, missed: set<string>, completed: set<string>)

  const EMPTY := World(map[], map[], map[], [], {}, map[], 0, {}, map[], {}, {}, {})

  datatype Step =
    | RfqInsert(id: string)
    | SubmitToCommittee(id: string)
    | MpcUpsert(id: string)
    | Link(id: string)
    | SignBatch(batchId: string, matches: seq<Match>)
    | PersistNext(p: nat)
    | Poll(batchId: string)
    | ReadSide(p: nat, sideA: bool)
    | SettleMatch(p: nat)
    | MarkBatch(p: nat)
    | SettleOpen(id: string)
    | SettleGate(p: nat)
    | SettleConfirm(p: nat)
    | SettleInsert(p: nat)
    | Crash(p: nat)

  // ----- what the committee may sign -----

  predicate Touches(m: Match, id: string) { m.aId == id || m.bId == id }

  predicate SoundAt(ms: seq<Match>, ids: set<string>, i: nat) {
    i < |ms| ==> ms[i].aId in ids && ms[i].bId in ids && ms[i].aId != ms[i].bId
  }

  /** Distinct submitted intents, each in at most one match. */
  ghost predicate Sound(ms: seq<Match>, ids: set<string>) {
    && (forall i :: 0 <= i < |ms| ==> SoundAt(ms, ids, i))
    && (forall i, j, x :: 0 <= i < |ms| && 0 <= j < |ms| && Touches(ms[i], x) && Touches(ms[j], x) ==> i == j)
  }

  // ----- the steps -----

  function Spawn(w: World, p: Process): World {
    w.(procs := w.procs[w.next := p], next := w.next + 1)
  }

  /** The intent row update u of persistence: side A of match u/2 when u is even. */
  function UpdateId(ms: seq<Match>, u: nat): string
    requires u < 2 * |ms|
  {
    if u % 2 == 0 then ms[u / 2].aId else ms[u / 2].bId
  }

  function UpdateWith(ms: seq<Match>, u: nat): string
    requires u < 2 * |ms|
  {
    if u % 2 == 0 then ms[u / 2].bId else ms[u / 2].aId
  }

  /** `INSERT ... ON CONFLICT DO NOTHING` into mpc_batches. */
  function InsertBatch(batches: map<string, BatchRow>, batchId: string, matches: seq<Match>): map<string, BatchRow> {
    if batchId in batches then batches else batches[batchId := BatchRow(matches, Pending)]
  }

  /** One update of mpc_intents. It changes nothing when id has no row; None when
      the counterparty has none, which violates the foreign key of matched_with. */
  function MarkRow(mpc: map<string, MpcRow>, id: string, other: string): Option<map<string, MpcRow>> {
    if id !in mpc then Some(mpc) else if other !in mpc then None else Some(mpc[id := MpcRow(true, Some(other))])
  }

  /** The next statement of persistSignedBatch; a failing one ends the process. */
  function DoPersist(w: World, n: nat, p: Persist): World {
    if p.pc == 0 then
      w.(batches := InsertBatch(w.batches, p.batchId, p.matches), procs := w.procs[n := P(p.(pc := 1))])
    else if p.pc - 1 < 2 * |p.matches| then
      var id, other := UpdateId(p.matches, p.pc - 1), UpdateWith(p.matches, p.pc - 1);
      var row := MarkRow(w.mpc, id, other);
      if row.None? then w.(procs := w.procs - {n})
      else w.(mpc := row.value, missed := if id in w.mpc then w.missed else w.missed + {id},
              procs := w.procs[n := P(p.(pc := p.pc + 1))])
    else w.(completed := w.completed + {p.batchId}, procs := w.procs - {n})
  }

  predicate HasJob(jobs: seq<Job>, key: JobKey) {
    exists k :: 0 <= k < |jobs| && jobs[k].key == key
  }

  /** `enqueue`: at most one job per key. */
  function Enqueued(jobs: seq<Job>, job: Job): seq<Job> {
    if HasJob(jobs, job.key) then jobs else jobs + [job]
  }

  function SettledStatus(queued: nat): BatchStatus { if queued > 0 then Queued else RfqRouted }

  /** Skip a match with an RFQ side, else enqueue its job. */
  function DoSettleMatch(w: World, n: nat, t: Settler): World {
    if t.i < |t.matches| && t.rfqA.Some? && t.rfqB.Some? then
      var on := t.(i := t.i + 1, rfqA := None, rfqB := None);
      if t.rfqA.value || t.rfqB.value then w.(procs := w.procs[n := S(on)])
      else
        w.(jobs := Enqueued(w.jobs, Job(JobKey(t.batchId, t.i), t.matches[t.i])),
           procs := w.procs[n := S(on.(queued := t.queued + 1))])
    else w
  }

  /** Each side of a match is read once. */
  function DoRead(w: World, n: nat, t: Settler, sideA: bool): World {
    if t.i < |t.matches| && (if sideA then t.rfqA.None? else t.rfqB.None?) then
      w.(procs := w.procs[n := S(if sideA then t.(rfqA := Some(t.matches[t.i].aId in w.rfq))
                                          else t.(rfqB := Some(t.matches[t.i].bId in w.rfq)))])
    else w
  }

  function DoMark(w: World, n: nat, t: Settler): World {
    if t.i == |t.matches| && t.batchId in w.batches then
      w.(batches := w.batches[t.batchId := w.batches[t.batchId].(status := SettledStatus(t.queued))],
         procs := w.procs - {n})
    else w
  }

  function DoSettle(w: World, n: nat, r: Settle, e: Step): World {
    match (r.stage, e)
    case (Found, SettleGate(_)) =>
      var stage := if r.id in w.rfq && w.rfq[r.id] then Routed else Confirmed(false);
      w.(procs := w.procs[n := R(r.(stage := stage))])
    case (Routed, SettleConfirm(_)) =>
      if r.id in w.mpc && w.mpc[r.id].matched then w.(procs := w.procs[n := R(r.(stage := Confirmed(true)))])
      else w.(procs := w.procs - {n})
    case (Confirmed(gated), SettleInsert(_)) =>
      w.(settlements := w.settlements + {RfqSettlement(r.id, gated)}, procs := w.procs - {n})
    case _ => w
  }

  ghost predicate CanSign(w: World, batchId: string, matches: seq<Match>) {
    batchId !in w.signed && Sound(matches, w.submitted)
  }

  ghost function Do(w: World, e: Step): World {
    match e
    case RfqInsert(id) =>
      if id in w.rfq then w
      else w.(rfq := w.rfq[id := false], late := if id in w.submitted then w.late + {id} else w.late)
    case SubmitToCommittee(id) => w.(submitted := w.submitted + {id})
    case MpcUpsert(id) => if id in w.mpc then w else w.(mpc := w.mpc[id := MpcRow(false, None)])
    case Link(id) => if id in w.rfq && id in w.submitted then w.(rfq := w.rfq[id := true]) else w
    case SignBatch(batchId, matches) =>
      if CanSign(w, batchId, matches)
      then Spawn(w.(signed := w.signed[batchId := matches]), P(Persist(batchId, matches, 0))) else w
    case PersistNext(n) => if n in w.procs && w.procs[n].P? then DoPersist(w, n, w.procs[n].persist) else w
    case Poll(batchId) =>
      if batchId in w.batches && w.batches[batchId].status == Pending
      then Spawn(w, S(Settler(batchId, w.batches[batchId].matches, 0, 0, None, None))) else w
    case ReadSide(n, sideA) => if n in w.procs && w.procs[n].S? then DoRead(w, n, w.procs[n].settler, sideA) else w
    case SettleMatch(n) => if n in w.procs && w.procs[n].S? then DoSettleMatch(w, n, w.procs[n].settler) else w
    case MarkBatch(n) => if n in w.procs && w.procs[n].S? then DoMark(w, n, w.procs[n].settler) else w
    case SettleOpen(id) => if id in w.rfq then Spawn(w, R(Settle(id, Found))) else w
    case SettleGate(n) => if n in w.procs && w.procs[n].R? then DoSettle(w, n, w.procs[n].settle, e) else w
    case SettleConfirm(n) => if n in w.procs && w.procs[n].R? then DoSettle(w, n, w.procs[n].settle, e) else w
    case SettleInsert(n) => if n in w.procs && w.procs[n].R? then DoSettle(w, n, w.procs[n].settle, e) else w
    case Crash(n) => w.(procs := w.procs - {n})
  }

  ghost function Run(w: World, steps: seq<Step>): World {
    if steps == [] then w else Do(Run(w, steps[..|steps| - 1]), steps[|steps| - 1])
  }

  // ----- the invariant -----

  ghost predicate SignedOk(signed: map<string, seq<Match>>, submitted: set<string>) {
    forall b :: b in signed ==> Sound(signed[b], submitted)
  }

  ghost predicate BatchesOk(batches: map<string, BatchRow>, signed: map<string, seq<Match>>) {
    forall b :: b in batches ==> b in signed && batches[b].matches == signed[b]
  }

  /** Some persisted batch matches x with y. */
  ghost predicate PairedIn(batches: map<string, BatchRow>, x: string, y: string) {
    exists b, k :: b in batches && 0 <= k < |batches[b].matches| && Joins(batches[b].matches[k], x, y)
  }

  predicate Joins(m: Match, x: string, y: string) {
    (m.aId == x && m.bId == y) || (m.aId == y && m.bId == x)
  }

  ghost predicate MpcOk(mpc: map<string, MpcRow>, batches: map<string, BatchRow>) {
    forall id :: id in mpc && mpc[id].matched ==> mpc[id].matchedWith.Some? && PairedIn(batches, id, mpc[id].matchedWith.value)
  }

  predicate Matched(mpc: map<string, MpcRow>, id: string) { id in mpc && mpc[id].matched }

  /** The first n row updates of a batch took effect, or missed their row. */
  ghost predicate UpdatesDone(ms: seq<Match>, n: nat, mpc: map<string, MpcRow>, missed: set<string>) {
    forall u :: 0 <= u < n && u < 2 * |ms| ==> UpdateId(ms, u) in missed || Matched(mpc, UpdateId(ms, u))
  }

  /** The settler may treat id as not RFQ-routed. */
  predicate Direct(id: string, rfq: map<string, bool>, late: set<string>) { id !in rfq || id in late }

  predicate RfqSide(m: Match, rfq: map<string, bool>) { m.aId in rfq || m.bId in rfq }

  ghost predicate Handled(b: string, ms: seq<Match>, j: nat, jobs: seq<Job>, rfq: map<string, bool>) {
    j < |ms| ==> HasJob(jobs, JobKey(b, j)) || RfqSide(ms[j], rfq)
  }

  predicate ReadOk(r: Option<bool>, id: string, rfq: map<string, bool>, late: set<string>) {
    && (r == Some(true) ==> id in rfq)
    && (r == Some(false) ==> Direct(id, rfq, late))
  }

  ghost predicate PersistOk(p: Persist, w: World) {
    && p.batchId in w.signed && p.matches == w.signed[p.batchId]
    && (p.pc > 0 ==> p.batchId in w.batches && UpdatesDone(p.matches, p.pc - 1, w.mpc, w.missed))
  }

  ghost predicate SettlerOk(t: Settler, w: World) {
    && t.batchId in w.batches && t.matches == w.batches[t.batchId].matches && t.i <= |t.matches|
    && (t.i < |t.matches| ==> ReadOk(t.rfqA, t.matches[t.i].aId, w.rfq, w.late) && ReadOk(t.rfqB, t.matches[t.i].bId, w.rfq, w.late))
    && (forall j :: 0 <= j < t.i ==> Handled(t.batchId, t.matches, j, w.jobs, w.rfq))
  }

  ghost predicate SettleOk(r: Settle, w: World) {
    r.id in w.rfq && (r.stage == Confirmed(true) ==> Matched(w.mpc, r.id))
  }

  ghost predicate ProcOk(p: Process, w: World) {
    match p
    case P(persist) => PersistOk(persist, w)
    case S(settler) => SettlerOk(settler, w)
    case R(settle) => SettleOk(settle, w)
  }

  ghost predicate ProcsOk(w: World) {
    forall n :: n in w.procs ==> n < w.next && ProcOk(w.procs[n], w)
  }

  ghost predicate JobOk(j: Job, w: World) {
    && j.key.batchId in w.batches && j.key.index < |w.batches[j.key.batchId].matches|
    && j.m == w.batches[j.key.batchId].matches[j.key.index]
    && Direct(j.m.aId, w.rfq, w.late) && Direct(j.m.bId, w.rfq, w.late)
  }

  ghost predicate JobsOk(w: World) {
    && (forall k :: 0 <= k < |w.jobs| ==> JobOk(w.jobs[k], w))
    && (forall k, l :: 0 <= k < l < |w.jobs| ==> w.jobs[k].key != w.jobs[l].key)
  }

  /** A batch that left `pending` has been dealt with match by match. */
  ghost predicate StatusOk(w: World) {
    forall b, j :: b in w.batches && w.batches[b].status != Pending && 0 <= j < |w.batches[b].matches|
                   ==> Handled(b, w.batches[b].matches, j, w.jobs, w.rfq)
  }

  ghost predicate SettlementsOk(w: World) {
    forall s :: s in w.settlements ==> s.id in w.rfq && (s.gated ==> Matched(w.mpc, s.id))
  }

  ghost predicate CompletedOk(w: World) {
    forall b :: b in w.completed ==> b in w.batches && UpdatesDone(w.batches[b].matches, 2 * |w.batches[b].matches|, w.mpc, w.missed)
  }

  ghost predicate Inv(w: World) {
    && SignedOk(w.signed, w.submitted) && BatchesOk(w.batches, w.signed) && MpcOk(w.mpc, w.batches)
    && ProcsOk(w) && JobsOk(w) && StatusOk(w) && SettlementsOk(w) && CompletedOk(w)
  }

  // ----- monotone growth -----

  /** Everything the invariant reads only grows. */
  ghost predicate Grows(w: World, w': World) {
    && w.rfq.Keys <= w'.rfq.Keys && w.late <= w'.late && w.missed <= w'.missed && w.submitted <= w'.submitted
    && (forall id :: Matched(w.mpc, id) ==> Matched(w'.mpc, id))
    && (forall b :: b in w.batches ==> b in w'.batches && w'.batches[b].matches == w.batches[b].matches)
    && (forall b :: b in w.signed ==> b in w'.signed && w'.signed[b] == w.signed[b])
    && w.jobs <= w'.jobs
    && (forall id :: id in w.submitted && Direct(id, w.rfq, w.late) ==> Direct(id, w'.rfq, w'.late))
  }

  /** Growth when nobody new was submitted, signed or entered in the RFQ table. */
  lemma GrowsTables(w: World, w': World)
    requires w'.rfq == w.rfq && w'.late == w.late && w'.submitted == w.submitted && w'.signed == w.signed
    requires w.missed <= w'.missed && w.jobs <= w'.jobs
    requires w'.mpc == w.mpc || forall id :: Matched(w.mpc, id) ==> Matched(w'.mpc, id)
    requires w'.batches == w.batches
          || forall b :: b in w.batches ==> b in w'.batches && w'.batches[b].matches == w.batches[b].matches
    ensures Grows(w, w')
  {
  }

  lemma GrowsHandled(w: World, w': World, b: string, ms: seq<Match>, j: nat)
    requires Grows(w, w') && Handled(b, ms, j, w.jobs, w.rfq)
    ensures Handled(b, ms, j, w'.jobs, w'.rfq)
  {
    if j < |ms| && HasJob(w.jobs, JobKey(b, j)) {
      var k :| 0 <= k < |w.jobs| && w.jobs[k].key == JobKey(b, j);
      assert w'.jobs[k].key == JobKey(b, j);
    }
  }

  lemma GrowsUpdates(w: World, w': World, ms: seq<Match>, n: nat)
    requires Grows(w, w') && UpdatesDone(ms, n, w.mpc, w.missed)
    ensures UpdatesDone(ms, n, w'.mpc, w'.missed)
  {
  }

  /** Intents of a persisted batch were submitted. */
  lemma BatchSubmitted(w: World, b: string, j: nat)
    requires SignedOk(w.signed, w.submitted) && BatchesOk(w.batches, w.signed) && b in w.batches && j < |w.batches[b].matches|
    ensures w.batches[b].matches[j].aId in w.submitted && w.batches[b].matches[j].bId in w.submitted
  {
    assert SoundAt(w.signed[b], w.submitted, j);
  }

  lemma GrowsProc(w: World, w': World, p: Process)
    requires Grows(w, w') && SignedOk(w.signed, w.submitted) && BatchesOk(w.batches, w.signed) && ProcOk(p, w)
    ensures ProcOk(p, w')
  {
    match p {
      case P(persist) =>
        if persist.pc > 0 {
          GrowsUpdates(w, w', persist.matches, persist.pc - 1);
        }
      case S(t) =>
        forall j | 0 <= j < t.i ensures Handled(t.batchId, t.matches, j, w'.jobs, w'.rfq) {
          GrowsHandled(w, w', t.batchId, t.matches, j);
        }
        if t.i < |t.matches| {
          BatchSubmitted(w, t.batchId, t.i);
        }
      case R(r) =>
    }
  }

  lemma GrowsJob(w: World, w': World, j: Job)
    requires Grows(w, w') && SignedOk(w.signed, w.submitted) && BatchesOk(w.batches, w.signed) && JobOk(j, w)
    ensures JobOk(j, w')
  {
    BatchSubmitted(w, j.key.batchId, j.key.index);
  }

  lemma GrowsPaired(batches: map<string, BatchRow>, batches': map<string, BatchRow>, x: string, y: string)
    requires forall b :: b in batches ==> b in batches' && batches'[b].matches == batches[b].matches
    requires PairedIn(batches, x, y)
    ensures PairedIn(batches', x, y)
  {
    var b, k :| b in batches && 0 <= k < |batches[b].matches| && Joins(batches[b].matches[k], x, y);
    assert Joins(batches'[b].matches[k], x, y);
  }

  // ----- what a step leaves alone -----

  /** Rows whose own fields are as before keep their part of the invariant. */
  lemma KeepProcs(w: World, w': World, n: nat)
    requires SignedOk(w.signed, w.submitted) && BatchesOk(w.batches, w.signed) && ProcsOk(w) && Grows(w, w')
    requires w.next <= w'.next
    requires forall m :: m in w'.procs && m != n ==> m in w.procs && w'.procs[m] == w.procs[m]
    requires n in w'.procs ==> n < w'.next && ProcOk(w'.procs[n], w')
    ensures ProcsOk(w')
  {
    forall m | m in w'.procs ensures m < w'.next && ProcOk(w'.procs[m], w') {
      if m != n {
        GrowsProc(w, w', w.procs[m]);
      }
    }
  }

  /** Only process n, the tables and the jobs may differ. */
  ghost predicate Stepped(w: World, w': World, n: nat) {
    && w'.next == w.next && w'.signed == w.signed && w'.submitted == w.submitted && w'.procs.Keys <= w.procs.Keys
    && (forall m :: m in w'.procs && m != n ==> w'.procs[m] == w.procs[m])
  }

  /** The invariant from its parts. */
  lemma Assemble(w: World, w': World, n: nat)
    requires Inv(w) && Grows(w, w') && Stepped(w, w', n)
    requires n in w'.procs ==> ProcOk(w'.procs[n], w')
    requires BatchesOk(w'.batches, w'.signed) && MpcOk(w'.mpc, w'.batches)
    requires w'.jobs == w.jobs || JobsOk(w')
    requires w'.batches == w.batches || StatusOk(w')
    requires w'.settlements == w.settlements || SettlementsOk(w')
    requires w'.completed == w.completed || CompletedOk(w')
    ensures Inv(w')
  {
    assert ProcsOk(w') by {
      KeepProcs(w, w', n);
    }
    assert JobsOk(w') by {
      if w'.jobs == w.jobs { KeepJobs(w, w'); }
    }
    assert StatusOk(w') by {
      if w'.batches == w.batches { KeepStatus(w, w'); }
    }
    assert SettlementsOk(w') by {
      if w'.settlements == w.settlements { KeepSettlements(w, w'); }
    }
    assert CompletedOk(w') by {
      if w'.completed == w.completed { KeepCompleted(w, w'); }
    }
  }

  lemma KeepJobs(w: World, w': World)
    requires SignedOk(w.signed, w.submitted) && BatchesOk(w.batches, w.signed) && JobsOk(w) && Grows(w, w')
    requires w'.jobs == w.jobs
    ensures JobsOk(w')
  {
    forall k | 0 <= k < |w.jobs| ensures JobOk(w.jobs[k], w') {
      GrowsJob(w, w', w.jobs[k]);
    }
  }

  lemma KeepStatus(w: World, w': World)
    requires StatusOk(w) && Grows(w, w')
    requires forall b :: b in w'.batches && w'.batches[b].status != Pending ==> b in w.batches && w.batches[b].status != Pending
    ensures StatusOk(w')
  {
    forall b, j | b in w'.batches && w'.batches[b].status != Pending && 0 <= j < |w'.batches[b].matches|
      ensures Handled(b, w'.batches[b].matches, j, w'.jobs, w'.rfq)
    {
      GrowsHandled(w, w', b, w.batches[b].matches, j);
    }
  }

  lemma KeepSettlements(w: World, w': World)
    requires SettlementsOk(w) && Grows(w, w') && w'.settlements == w.settlements
    ensures SettlementsOk(w')
  {
  }

  lemma KeepCompleted(w: World, w': World)
    requires CompletedOk(w) && Grows(w, w') && w'.completed == w.completed
    ensures CompletedOk(w')
  {
    forall b | b in w.completed
      ensures b in w'.batches && UpdatesDone(w'.batches[b].matches, 2 * |w'.batches[b].matches|, w'.mpc, w'.missed)
    {
      GrowsUpdates(w, w', w.batches[b].matches, 2 * |w.batches[b].matches|);
    }
  }

  lemma KeepMpc(mpc: map<string, MpcRow>, batches: map<string, BatchRow>, batches': map<string, BatchRow>)
    requires MpcOk(mpc, batches)
    requires forall b :: b in batches ==> b in batches' && batches'[b].matches == batches[b].matches
    ensures MpcOk(mpc, batches')
  {
    forall id | id in mpc && mpc[id].matched
      ensures mpc[id].matchedWith.Some? && PairedIn(batches', id, mpc[id].matchedWith.value)
    {
      GrowsPaired(batches, batches', id, mpc[id].matchedWith.value);
    }
  }

  lemma SoundGrows(ms: seq<Match>, ids: set<string>, ids': set<string>)
    requires Sound(ms, ids) && ids <= ids'
    ensures Sound(ms, ids')
  {
    forall i | 0 <= i < |ms| ensures SoundAt(ms, ids', i) {
      assert SoundAt(ms, ids, i);
    }
  }

  // ----- every step keeps the invariant -----

  /** A step that touches process n and, besides it, only what the intent
      handler writes: the RFQ table, submissions and unmatched rows. */
  lemma QuietKeeps(w: World, w': World, n: nat)
    requires Inv(w) && Grows(w, w')
    requires w'.signed == w.signed && w'.batches == w.batches && w'.jobs == w.jobs
    requires w'.settlements == w.settlements && w'.completed == w.completed && w.next <= w'.next
    requires MpcOk(w'.mpc, w'.batches)
    requires forall m :: m in w'.procs && m != n ==> m in w.procs && w'.procs[m] == w.procs[m]
    requires n in w'.procs ==> n < w'.next && ProcOk(w'.procs[n], w')
    ensures Inv(w')
  {
    KeepProcs(w, w', n);
    KeepJobs(w, w');
    KeepStatus(w, w');
    KeepSettlements(w, w');
    KeepCompleted(w, w');
    forall b | b in w'.signed ensures Sound(w'.signed[b], w'.submitted) {
      SoundGrows(w.signed[b], w.submitted, w'.submitted);
    }
  }

  lemma IntakeGrows(w: World, e: Step)
    requires e.RfqInsert? || e.SubmitToCommittee? || e.MpcUpsert? || e.Link?
    ensures Grows(w, Do(w, e))
  {
  }

  lemma IntakeMpc(w: World, e: Step)
    requires MpcOk(w.mpc, w.batches) && e.MpcUpsert?
    ensures MpcOk(Do(w, e).mpc, w.batches)
  {
  }

  /** Steps of the API's intent handler. */
  lemma IntakeKeeps(w: World, e: Step)
    requires Inv(w) && (e.RfqInsert? || e.SubmitToCommittee? || e.MpcUpsert? || e.Link?)
    ensures Inv(Do(w, e)) && Grows(w, Do(w, e))
  {
    var w' := Do(w, e);
    IntakeGrows(w, e);
    if e.MpcUpsert? {
      IntakeMpc(w, e);
    }
    assert w.next !in w.procs;
    QuietKeeps(w, w', w.next);
  }

  /** Opening or ending a process. */
  lemma SpawnKeeps(w: World, e: Step)
    requires Inv(w) && (e.Poll? || e.SettleOpen? || e.Crash?)
    ensures Inv(Do(w, e)) && Grows(w, Do(w, e))
  {
    SpawnGrows(w, e);
    SpawnProc(w, e);
    QuietKeeps(w, Do(w, e), w.next);
  }

  lemma SpawnGrows(w: World, e: Step)
    requires e.Poll? || e.SettleOpen? || e.Crash?
    ensures var w' := Do(w, e);
      && Grows(w, w') && w'.signed == w.signed && w'.batches == w.batches && w'.jobs == w.jobs && w'.mpc == w.mpc
      && w'.settlements == w.settlements && w'.completed == w.completed && w.next <= w'.next
  {
    var w' := Do(w, e);
    GrowsTables(w, w');
  }

  lemma SpawnProc(w: World, e: Step)
    requires Inv(w) && (e.Poll? || e.SettleOpen? || e.Crash?)
    ensures var w' := Do(w, e);
      && (forall m :: m in w'.procs && m != w.next ==> m in w.procs && w'.procs[m] == w.procs[m])
      && (w.next in w'.procs ==> w.next < w'.next && ProcOk(w'.procs[w.next], w'))
  {
    assert w.next !in w.procs;
  }

  lemma SignKeeps(w: World, e: Step)
    requires Inv(w) && e.SignBatch?
    ensures Inv(Do(w, e)) && Grows(w, Do(w, e))
  {
    var w' := Do(w, e);
    assert Grows(w, w');
    if CanSign(w, e.batchId, e.matches) {
      KeepProcs(w, w', w.next);
      KeepJobs(w, w');
      KeepStatus(w, w');
      KeepSettlements(w, w');
      KeepCompleted(w, w');
    }
  }

  lemma SettlementsGrow(w: World, settlements: set<RfqSettlement>, procs: map<nat, Process>)
    ensures Grows(w, w.(settlements := settlements, procs := procs))
  {
    GrowsTables(w, w.(settlements := settlements, procs := procs));
  }

  lemma SettleGrows(w: World, n: nat, r: Settle, e: Step)
    requires n in w.procs
    ensures var w' := DoSettle(w, n, r, e); Grows(w, w') && Stepped(w, w', n)
    ensures var w' := DoSettle(w, n, r, e);
      w'.batches == w.batches && w'.mpc == w.mpc && w'.jobs == w.jobs && w'.completed == w.completed && w'.rfq == w.rfq
  {
    var w' := DoSettle(w, n, r, e);
    SettlementsGrow(w, w'.settlements, w'.procs);
    assert w' == w.(settlements := w'.settlements, procs := w'.procs);
  }

  lemma SettleRows(w: World, n: nat, r: Settle, e: Step)
    requires SettleOk(r, w) && SettlementsOk(w)
    ensures SettlementsOk(DoSettle(w, n, r, e))
  {
  }

  lemma SettleProc(w: World, n: nat, r: Settle, e: Step)
    requires n in w.procs && w.procs[n] == R(r) && SettleOk(r, w)
    ensures var w' := DoSettle(w, n, r, e); n in w'.procs ==> ProcOk(w'.procs[n], w')
  {
  }

  lemma SettleKeeps(w: World, n: nat, r: Settle, e: Step)
    requires Inv(w) && n in w.procs && w.procs[n] == R(r)
    ensures var w' := DoSettle(w, n, r, e); Inv(w') && Grows(w, w')
  {
    assert SettleOk(r, w) by {
      assert ProcOk(w.procs[n], w);
    }
    SettleGrows(w, n, r, e);
    SettleRows(w, n, r, e);
    SettleProc(w, n, r, e);
    Assemble(w, DoSettle(w, n, r, e), n);
  }

  lemma ReadGrows(w: World, n: nat, t: Settler, sideA: bool)
    requires n in w.procs && w.procs[n] == S(t) && SettlerOk(t, w)
    ensures var w' := DoRead(w, n, t, sideA); Grows(w, w') && n in w'.procs && ProcOk(w'.procs[n], w')
  {
    GrowsTables(w, DoRead(w, n, t, sideA));
  }

  lemma ReadKeeps(w: World, n: nat, t: Settler, sideA: bool)
    requires Inv(w) && n in w.procs && w.procs[n] == S(t)
    ensures var w' := DoRead(w, n, t, sideA); Inv(w') && Grows(w, w')
  {
    assert SettlerOk(t, w) by {
      assert ProcOk(w.procs[n], w);
    }
    ReadGrows(w, n, t, sideA);
    QuietKeeps(w, DoRead(w, n, t, sideA), n);
  }

  lemma MarkGrows(w: World, n: nat, t: Settler)
    ensures Grows(w, DoMark(w, n, t))
  {
    GrowsTables(w, DoMark(w, n, t));
  }

  lemma MarkStatus(w: World, n: nat, t: Settler)
    requires StatusOk(w) && SettlerOk(t, w)
    ensures StatusOk(DoMark(w, n, t))
  {
  }

  lemma MarkKeeps(w: World, n: nat, t: Settler)
    requires Inv(w) && n in w.procs && w.procs[n] == S(t)
    ensures var w' := DoMark(w, n, t); Inv(w') && Grows(w, w')
  {
    var w' := DoMark(w, n, t);
    assert SettlerOk(t, w) by {
      assert ProcOk(w.procs[n], w);
    }
    MarkGrows(w, n, t);
    MarkStatus(w, n, t);
    KeepMpc(w.mpc, w.batches, w'.batches);
    if t.i == |t.matches| {
      KeepProcs(w, w', n);
      KeepJobs(w, w');
      KeepSettlements(w, w');
      KeepCompleted(w, w');
    }
  }

  lemma JobsGrow(w: World, jobs: seq<Job>, procs: map<nat, Process>)
    requires w.jobs <= jobs
    ensures Grows(w, w.(jobs := jobs, procs := procs))
  {
    GrowsTables(w, w.(jobs := jobs, procs := procs));
  }

  lemma QueueGrows(w: World, n: nat, t: Settler)
    requires n in w.procs
    ensures var w' := DoSettleMatch(w, n, t); Grows(w, w') && Stepped(w, w', n)
    ensures var w' := DoSettleMatch(w, n, t);
      w'.batches == w.batches && w'.mpc == w.mpc && w'.settlements == w.settlements && w'.completed == w.completed
  {
    var w' := DoSettleMatch(w, n, t);
    JobsGrow(w, w'.jobs, w'.procs);
    assert w' == w.(jobs := w'.jobs, procs := w'.procs);
  }

  /** The match is dealt with: it has an RFQ side or a job under its key. */
  lemma QueueHandles(w: World, n: nat, t: Settler)
    requires t.i < |t.matches| && t.rfqA.Some? && t.rfqB.Some?
    requires ReadOk(t.rfqA, t.matches[t.i].aId, w.rfq, w.late) && ReadOk(t.rfqB, t.matches[t.i].bId, w.rfq, w.late)
    ensures var w' := DoSettleMatch(w, n, t); Handled(t.batchId, t.matches, t.i, w'.jobs, w'.rfq)
  {
    var w' := DoSettleMatch(w, n, t);
    if !t.rfqA.value && !t.rfqB.value && !HasJob(w.jobs, JobKey(t.batchId, t.i)) {
      assert w'.jobs[|w.jobs|].key == JobKey(t.batchId, t.i);
    }
  }

  lemma QueueProc(w: World, n: nat, t: Settler)
    requires n in w.procs && w.procs[n] == S(t) && SettlerOk(t, w)
    ensures var w' := DoSettleMatch(w, n, t); n in w'.procs && ProcOk(w'.procs[n], w')
  {
    var w' := DoSettleMatch(w, n, t);
    QueueGrows(w, n, t);
    if t.i < |t.matches| && t.rfqA.Some? && t.rfqB.Some? {
      QueueHandles(w, n, t);
      forall j | 0 <= j < t.i + 1 ensures Handled(t.batchId, t.matches, j, w'.jobs, w'.rfq) {
        if j < t.i {
          GrowsHandled(w, w', t.batchId, t.matches, j);
        }
      }
    }
  }

  lemma QueueJob(w: World, t: Settler)
    requires SettlerOk(t, w) && t.i < |t.matches| && t.rfqA == Some(false) && t.rfqB == Some(false)
    ensures JobOk(Job(JobKey(t.batchId, t.i), t.matches[t.i]), w)
  {
  }

  lemma QueueJobs(w: World, n: nat, t: Settler)
    requires n in w.procs && SettlerOk(t, w) && JobsOk(w)
    ensures JobsOk(DoSettleMatch(w, n, t))
  {
    var w' := DoSettleMatch(w, n, t);
    QueueGrows(w, n, t);
    if w'.jobs != w.jobs {
      QueueJob(w, t);
    }
    forall k | 0 <= k < |w'.jobs| ensures JobOk(w'.jobs[k], w') {
      assert k < |w.jobs| ==> JobOk(w.jobs[k], w);
    }
  }

  lemma QueueKeeps(w: World, n: nat, t: Settler)
    requires Inv(w) && n in w.procs && w.procs[n] == S(t)
    ensures var w' := DoSettleMatch(w, n, t); Inv(w') && Grows(w, w')
  {
    assert SettlerOk(t, w) by {
      assert ProcOk(w.procs[n], w);
    }
    QueueGrows(w, n, t);
    QueueProc(w, n, t);
    QueueJobs(w, n, t);
    Assemble(w, DoSettleMatch(w, n, t), n);
  }

  lemma InsertGrows(batches: map<string, BatchRow>, b: string, ms: seq<Match>)
    ensures var batches' := InsertBatch(batches, b, ms);
      forall c :: c in batches ==> c in batches' && batches'[c].matches == batches[c].matches
  {
  }

  lemma MarkGrowsRows(mpc: map<string, MpcRow>, id: string, other: string)
    ensures var row := MarkRow(mpc, id, other); row.Some? ==> forall x :: Matched(mpc, x) ==> Matched(row.value, x)
  {
  }

  lemma PersistGrows(w: World, n: nat, p: Persist)
    requires n in w.procs
    ensures var w' := DoPersist(w, n, p); Grows(w, w') && Stepped(w, w', n)
    ensures var w' := DoPersist(w, n, p); w'.jobs == w.jobs && w'.settlements == w.settlements
  {
    if p.pc == 0 {
      InsertGrows(w.batches, p.batchId, p.matches);
    } else if p.pc - 1 < 2 * |p.matches| {
      MarkGrowsRows(w.mpc, UpdateId(p.matches, p.pc - 1), UpdateWith(p.matches, p.pc - 1));
    }
    GrowsTables(w, DoPersist(w, n, p));
  }

  lemma PersistMpc(w: World, n: nat, p: Persist)
    requires PersistOk(p, w) && BatchesOk(w.batches, w.signed) && MpcOk(w.mpc, w.batches)
    ensures var w' := DoPersist(w, n, p); MpcOk(w'.mpc, w'.batches) && BatchesOk(w'.batches, w'.signed)
  {
    var w' := DoPersist(w, n, p);
    KeepMpc(w.mpc, w.batches, w'.batches);
    if p.pc > 0 && p.pc - 1 < 2 * |p.matches| {
      var id, other := UpdateId(p.matches, p.pc - 1), UpdateWith(p.matches, p.pc - 1);
      assert PairedIn(w.batches, id, other) by {
        assert Joins(w.batches[p.batchId].matches[(p.pc - 1) / 2], id, other);
      }
    }
  }

  lemma PersistProc(w: World, n: nat, p: Persist)
    requires n in w.procs && w.procs[n] == P(p) && PersistOk(p, w)
    ensures var w' := DoPersist(w, n, p); n in w'.procs ==> ProcOk(w'.procs[n], w')
  {
    var w' := DoPersist(w, n, p);
    PersistGrows(w, n, p);
    if p.pc > 0 {
      GrowsUpdates(w, w', p.matches, p.pc - 1);
    }
  }

  lemma PersistCompletes(w: World, n: nat, p: Persist)
    requires n in w.procs && PersistOk(p, w) && BatchesOk(w.batches, w.signed) && CompletedOk(w)
    ensures CompletedOk(DoPersist(w, n, p))
  {
    var w' := DoPersist(w, n, p);
    PersistGrows(w, n, p);
    if p.pc == 0 || p.pc - 1 < 2 * |p.matches| {
      KeepCompleted(w, w');
    }
  }

  lemma PersistStatus(w: World, n: nat, p: Persist)
    requires n in w.procs && StatusOk(w)
    ensures StatusOk(DoPersist(w, n, p))
  {
    PersistGrows(w, n, p);
    KeepStatus(w, DoPersist(w, n, p));
  }

  lemma PersistKeeps(w: World, n: nat, p: Persist)
    requires Inv(w) && n in w.procs && w.procs[n] == P(p)
    ensures var w' := DoPersist(w, n, p); Inv(w') && Grows(w, w')
  {
    assert PersistOk(p, w) by {
      assert ProcOk(w.procs[n], w);
    }
    PersistGrows(w, n, p);
    PersistMpc(w, n, p);
    PersistProc(w, n, p);
    PersistCompletes(w, n, p);
    PersistStatus(w, n, p);
    Assemble(w, DoPersist(w, n, p), n);
  }

  lemma StepKeeps(w: World, e: Step)
    requires Inv(w)
    ensures Inv(Do(w, e)) && Grows(w, Do(w, e))
  {
    match e {
      case RfqInsert(_) => IntakeKeeps(w, e);
      case SubmitToCommittee(_) => IntakeKeeps(w, e);
      case MpcUpsert(_) => IntakeKeeps(w, e);
      case Link(_) => IntakeKeeps(w, e);
      case SignBatch(_, _) => SignKeeps(w, e);
      case PersistNext(n) => if n in w.procs && w.procs[n].P? { PersistKeeps(w, n, w.procs[n].persist); }
      case Poll(_) => SpawnKeeps(w, e);
      case ReadSide(n, a) => if n in w.procs && w.procs[n].S? { ReadKeeps(w, n, w.procs[n].settler, a); }
      case SettleMatch(n) => if n in w.procs && w.procs[n].S? { QueueKeeps(w, n, w.procs[n].settler); }
      case MarkBatch(n) => if n in w.procs && w.procs[n].S? { MarkKeeps(w, n, w.procs[n].settler); }
      case SettleOpen(_) => SpawnKeeps(w, e);
      case SettleGate(n) => if n in w.procs && w.procs[n].R? { SettleKeeps(w, n, w.procs[n].settle, e); }
      case SettleConfirm(n) => if n in w.procs && w.procs[n].R? { SettleKeeps(w, n, w.procs[n].settle, e); }
      case SettleInsert(n) => if n in w.procs && w.procs[n].R? { SettleKeeps(w, n, w.procs[n].settle, e); }
      case Crash(_) => SpawnKeeps(w, e);
    }
  }

  lemma {:induction false} Reachable(steps: seq<Step>)
    ensures Inv(Run(EMPTY, steps))
  {
    if steps != [] {
      Reachable(steps[..|steps| - 1]);
      StepKeeps(Run(EMPTY, steps[..|steps| - 1]), steps[|steps| - 1]);
    }
  }
}
