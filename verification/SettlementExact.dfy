/** When exactly the hand-off goes wrong: conditions on the state at the decisive
    step, each necessary and sufficient over all continuations. */
module SettlementExact {
  import opened Wrappers
  import opened Netting
  import opened Settlement
  import opened SettlementSafety

  // ----- runs from any state -----

  lemma RunOne(w: World, e: Step)
    ensures Run(w, [e]) == Do(w, e)
  {
    assert [e][..0] == [];
    assert Run(w, []) == w;
  }

  lemma RunThen(w: World, steps: seq<Step>, e: Step)
    ensures Run(w, steps + [e]) == Do(Run(w, steps), e)
  {
    assert (steps + [e])[..|steps|] == steps;
  }

  lemma RunTo(w: World, steps: seq<Step>, e: Step, more: seq<Step>)
    requires more == steps + [e]
    ensures Run(w, more) == Do(Run(w, steps), e)
  {
    RunThen(w, steps, e);
  }

  lemma Snoc<T>(a: seq<T>, b: seq<T>, init: seq<T>, e: T)
    requires b == init + [e]
    ensures a + b == (a + init) + [e]
  {
  }

  lemma {:induction false} RunConcat(w: World, a: seq<Step>, b: seq<Step>)
    ensures Run(w, a + b) == Run(Run(w, a), b)
  {
    if b == [] {
      assert a + b == a;
    } else {
      var init, e := b[..|b| - 1], b[|b| - 1];
      Snoc(a, b, init, e);
      RunConcat(w, a, init);
      RunTo(w, a + init, e, a + b);
      RunTo(Run(w, a), init, e, b);
    }
  }

  // ----- the MPC gate -----

  /** Process n is about to record a settlement of id (ConfirmingRecords). */
  ghost predicate Confirming(w: World, n: nat, id: string) {
    n in w.procs && w.procs[n].R? && w.procs[n].settle.id == id && w.procs[n].settle.stage.Confirmed?
  }

  lemma ConfirmingRecords(w: World, n: nat, id: string)
    requires Confirming(w, n, id)
    ensures exists g :: RfqSettlement(id, g) in Do(w, SettleInsert(n)).settlements
  {
    assert RfqSettlement(id, w.procs[n].settle.stage.gated) in Do(w, SettleInsert(n)).settlements;
  }

  /** A process past its look at the row settles only matched intents. */
  ghost predicate SafeStage(w: World, stage: Stage, id: string) {
    match stage
    case Found => IsLinked(w, id) || MatchedInBatch(w, id)
    case Routed => true
    case Confirmed(_) => MatchedInBatch(w, id)
  }

  ghost predicate GateSafe(w: World, n: nat, id: string) {
    n < w.next && (n in w.procs ==> w.procs[n].R? && w.procs[n].settle.id == id && SafeStage(w, w.procs[n].settle.stage, id))
  }

  predicate SettleStep(e: Step, n: nat) { (e.SettleGate? || e.SettleConfirm? || e.SettleInsert?) && e.p == n }

  lemma SettlerStepped(w: World, m: nat, t: Settler, sideA: bool)
    requires m in w.procs
    ensures Stepped(w, DoRead(w, m, t, sideA), m) && Stepped(w, DoMark(w, m, t), m)
  {
  }

  /** The steps of a process leave the others alone. */
  lemma StepStepped(w: World, e: Step, m: nat)
    requires e.PersistNext? || e.ReadSide? || e.SettleMatch? || e.MarkBatch? || e.SettleGate? || e.SettleConfirm? || e.SettleInsert?
    requires e.p == m
    ensures Stepped(w, Do(w, e), m)
  {
    if m in w.procs {
      match w.procs[m] {
        case P(p) => PersistGrows(w, m, p);
        case S(t) =>
          SettlerStepped(w, m, t, e.ReadSide? && e.sideA);
          QueueGrows(w, m, t);
        case R(r) => SettleGrows(w, m, r, e);
      }
    }
  }

  lemma OtherKindIdle(w: World, e: Step, n: nat)
    requires e.PersistNext? || e.ReadSide? || e.SettleMatch? || e.MarkBatch?
    requires e.p == n && (n in w.procs ==> w.procs[n].R?)
    ensures Do(w, e) == w
  {
  }

  /** A settlement process changes by its own steps only, or ends. */
  lemma OwnStepsOnly(w: World, e: Step, n: nat)
    requires n < w.next && (n in w.procs ==> w.procs[n].R?) && !SettleStep(e, n)
    ensures var w' := Do(w, e); n < w'.next && (n in w'.procs ==> n in w.procs && w'.procs[n] == w.procs[n])
  {
    if e.PersistNext? || e.ReadSide? || e.SettleMatch? || e.MarkBatch? {
      if e.p == n {
        OtherKindIdle(w, e, n);
      } else {
        StepStepped(w, e, e.p);
      }
    } else if e.SettleGate? || e.SettleConfirm? || e.SettleInsert? {
      StepStepped(w, e, e.p);
    }
  }

  lemma MatchedStays(w: World, w': World, id: string)
    requires Grows(w, w') && BatchesOk(w.batches, w.signed) && BatchesOk(w'.batches, w'.signed) && MatchedInBatch(w, id)
    ensures MatchedInBatch(w', id)
  {
    var b, i :| b in w.batches && b in w.signed && w.batches[b].matches == w.signed[b]
                && 0 <= i < |w.signed[b]| && Touches(w.signed[b][i], id);
    assert w'.signed[b] == w.signed[b];
    assert Touches(w'.signed[b][i], id);
  }

  lemma MatchedRowInBatch(w: World, id: string)
    requires BatchesOk(w.batches, w.signed) && MpcOk(w.mpc, w.batches) && Matched(w.mpc, id)
    ensures MatchedInBatch(w, id)
  {
    var y := w.mpc[id].matchedWith.value;
    assert PairedIn(w.batches, id, y);
    var b, i :| b in w.batches && 0 <= i < |w.batches[b].matches| && Joins(w.batches[b].matches[i], id, y);
    assert Touches(w.signed[b][i], id);
  }

  /** What the process's own steps make of its stage. */
  lemma OwnStep(w: World, e: Step, n: nat, id: string)
    requires Inv(w) && GateSafe(w, n, id) && SettleStep(e, n) && n in w.procs
    ensures var w' := Do(w, e); n < w'.next && w'.batches == w.batches && w'.signed == w.signed && w'.rfq == w.rfq
    ensures var w' := Do(w, e);
      n in w'.procs ==> w'.procs[n].R? && w'.procs[n].settle.id == id && SafeStage(w, w'.procs[n].settle.stage, id)
  {
    var r := w.procs[n].settle;
    SettleGrows(w, n, r, e);
    if r.stage.Routed? && Matched(w.mpc, id) {
      MatchedRowInBatch(w, id);
    }
  }

  lemma SafeStageStays(w: World, w': World, stage: Stage, id: string)
    requires Grows(w, w') && BatchesOk(w.batches, w.signed) && BatchesOk(w'.batches, w'.signed) && SafeStage(w, stage, id)
    requires IsLinked(w, id) ==> IsLinked(w', id)
    ensures SafeStage(w', stage, id)
  {
    if MatchedInBatch(w, id) {
      MatchedStays(w, w', id);
    }
  }

  lemma GateStep(w: World, e: Step, n: nat, id: string)
    requires Inv(w) && GateSafe(w, n, id)
    ensures GateSafe(Do(w, e), n, id)
  {
    var w' := Do(w, e);
    StepKeeps(w, e);
    StepIntake(w, e, id);
    if SettleStep(e, n) && n in w.procs {
      OwnStep(w, e, n, id);
      if n in w'.procs {
        SafeStageStays(w, w', w'.procs[n].settle.stage, id);
      }
    } else {
      if SettleStep(e, n) {
        assert w' == w;
      } else {
        OwnStepsOnly(w, e, n);
      }
      if n in w'.procs {
        SafeStageStays(w, w', w'.procs[n].settle.stage, id);
      }
    }
  }

  lemma {:induction false} GateHolds(w: World, more: seq<Step>, n: nat, id: string)
    requires Inv(w) && GateSafe(w, n, id)
    ensures Inv(Run(w, more)) && GateSafe(Run(w, more), n, id)
  {
    if more != [] {
      var init := more[..|more| - 1];
      GateHolds(w, init, n, id);
      StepKeeps(Run(w, init), more[|more| - 1]);
      GateStep(Run(w, init), more[|more| - 1], n, id);
    }
  }

  lemma GateEscapes(w: World, n: nat, id: string)
    requires n in w.procs && w.procs[n] == R(Settle(id, Found)) && !IsLinked(w, id) && !MatchedInBatch(w, id)
    ensures var w' := Do(w, SettleGate(n)); Confirming(w', n, id) && !MatchedInBatch(w', id)
  {
    var w' := Do(w, SettleGate(n));
    assert w'.batches == w.batches && w'.signed == w.signed;
  }

  /** The gate, exactly: a settlement process that is about to look at the intent
      row records only settlements of matched intents, whatever happens next, if
      and only if the intent is already linked or already matched. */
  lemma GateExact(steps: seq<Step>, n: nat, id: string)
    requires var w := Run(EMPTY, steps); n in w.procs && w.procs[n] == R(Settle(id, Found))
    ensures var w := Run(EMPTY, steps);
      (forall more :: Confirming(Run(w, more), n, id) ==> MatchedInBatch(Run(w, more), id))
      <==> IsLinked(w, id) || MatchedInBatch(w, id)
  {
    var w := Run(EMPTY, steps);
    Reachable(steps);
    if IsLinked(w, id) || MatchedInBatch(w, id) {
      forall more | Confirming(Run(w, more), n, id) ensures MatchedInBatch(Run(w, more), id) {
        GateHolds(w, more, n, id);
      }
    } else {
      GateEscapes(w, n, id);
      RunOne(w, SettleGate(n));
    }
  }

  // ----- the two settlement paths -----

  ghost predicate JobFor(w: World, id: string) {
    exists k :: 0 <= k < |w.jobs| && Touches(w.jobs[k].m, id)
  }

  /** The settler read this side as direct, or will if it reads it now. */
  predicate ReadsDirect(r: Option<bool>, x: string, rfq: map<string, bool>) {
    r == Some(false) || (r == None && x !in rfq)
  }

  /** The settler has read id's side of its match as direct, and the other side
      does not stop it. */
  predicate CanQueue(t: Settler, id: string, rfq: map<string, bool>) {
    t.i < |t.matches| &&
    var m := t.matches[t.i];
    || (m.aId == id && t.rfqA == Some(false) && ReadsDirect(t.rfqB, m.bId, rfq))
    || (m.bId == id && t.rfqB == Some(false) && ReadsDirect(t.rfqA, m.aId, rfq))
  }

  ghost predicate Queuing(w: World, id: string) {
    exists n :: n in w.procs && w.procs[n].S? && CanQueue(w.procs[n].settler, id, w.rfq)
  }

  /** id has an RFQ row and no job, and no settler can give it one. */
  ghost predicate RfqOnly(w: World, id: string) {
    id in w.rfq && !JobFor(w, id) && !Queuing(w, id)
  }

  lemma ReadOnly(w: World, n: nat, t: Settler, sideA: bool, id: string)
    requires id in w.rfq && n in w.procs && w.procs[n] == S(t) && !CanQueue(t, id, w.rfq)
    ensures var w' := DoRead(w, n, t, sideA);
      w'.rfq == w.rfq && w'.jobs == w.jobs && n in w'.procs && w'.procs[n].S? && !CanQueue(w'.procs[n].settler, id, w.rfq)
  {
  }

  lemma JobsOnly(jobs: seq<Job>, job: Job, id: string)
    requires forall k :: 0 <= k < |jobs| ==> !Touches(jobs[k].m, id)
    requires !Touches(job.m, id)
    ensures forall k :: 0 <= k < |Enqueued(jobs, job)| ==> !Touches(Enqueued(jobs, job)[k].m, id)
  {
  }

  lemma QueueOnlyJobs(w: World, n: nat, t: Settler, id: string)
    requires !CanQueue(t, id, w.rfq) && !JobFor(w, id)
    ensures !JobFor(DoSettleMatch(w, n, t), id)
  {
    if t.i < |t.matches| && t.rfqA == Some(false) && t.rfqB == Some(false) {
      JobsOnly(w.jobs, Job(JobKey(t.batchId, t.i), t.matches[t.i]), id);
    }
  }

  lemma QueueOnly(w: World, n: nat, t: Settler, id: string)
    requires n in w.procs && w.procs[n] == S(t) && !CanQueue(t, id, w.rfq) && !JobFor(w, id)
    ensures var w' := DoSettleMatch(w, n, t);
      !JobFor(w', id) && n in w'.procs && w'.procs[n].S? && !CanQueue(w'.procs[n].settler, id, w.rfq)
  {
    QueueOnlyJobs(w, n, t, id);
  }

  /** Only process n changed, and it cannot queue id. */
  lemma OneProcess(w: World, w': World, n: nat, id: string)
    requires RfqOnly(w, id) && Stepped(w, w', n) && w'.rfq.Keys >= w.rfq.Keys && !JobFor(w', id)
    requires n in w'.procs && w'.procs[n].S? ==> !CanQueue(w'.procs[n].settler, id, w'.rfq)
    ensures RfqOnly(w', id)
  {
    forall m | m in w'.procs && w'.procs[m].S? ensures !CanQueue(w'.procs[m].settler, id, w'.rfq) {
      if m != n {
        assert !CanQueue(w.procs[m].settler, id, w.rfq);
      }
    }
  }

  lemma SameJobs(w: World, w': World, id: string)
    requires w'.jobs == w.jobs && !JobFor(w, id)
    ensures !JobFor(w', id)
  {
  }

  lemma SettlerOnly(w: World, e: Step, id: string)
    requires RfqOnly(w, id) && (e.ReadSide? || e.SettleMatch? || e.MarkBatch?)
    ensures RfqOnly(Do(w, e), id)
  {
    var w' := Do(w, e);
    if e.p in w.procs && w.procs[e.p].S? {
      var t := w.procs[e.p].settler;
      assert !CanQueue(t, id, w.rfq);
      StepStepped(w, e, e.p);
      SettlerFrame(w, e.p, t, e);
      match e {
        case ReadSide(n, a) => ReadOnly(w, n, t, a, id); SameJobs(w, w', id);
        case SettleMatch(n) => QueueOnly(w, n, t, id);
        case MarkBatch(n) => SameJobs(w, w', id);
      }
      OneProcess(w, w', e.p, id);
    }
  }

  lemma ProcessOnly(w: World, e: Step, id: string)
    requires RfqOnly(w, id) && (e.PersistNext? || e.SettleGate? || e.SettleConfirm? || e.SettleInsert?)
    ensures RfqOnly(Do(w, e), id)
  {
    var w' := Do(w, e);
    StepStepped(w, e, e.p);
    OthersFrame(w, e);
    if e.p in w.procs {
      match w.procs[e.p] {
        case P(p) => PersistGrows(w, e.p, p);
        case S(t) => assert !CanQueue(t, id, w.rfq);
        case R(r) => SettleGrows(w, e.p, r, e);
      }
    }
    SameJobs(w, w', id);
    OneProcess(w, w', e.p, id);
  }

  lemma IntakeOnly(w: World, e: Step, id: string)
    requires RfqOnly(w, id) && (Intake(e) || e.SignBatch? || e.Poll? || e.SettleOpen? || e.Crash?)
    ensures RfqOnly(Do(w, e), id)
  {
    var w' := Do(w, e);
    SameJobs(w, w', id);
    forall m | m in w'.procs && w'.procs[m].S? ensures !CanQueue(w'.procs[m].settler, id, w'.rfq) {
      assert m in w.procs && w.procs[m] == w'.procs[m] ==> !CanQueue(w.procs[m].settler, id, w.rfq);
    }
  }

  lemma {:induction false} StaysRfqOnly(w: World, more: seq<Step>, id: string)
    requires RfqOnly(w, id)
    ensures RfqOnly(Run(w, more), id)
  {
    if more != [] {
      var init, e := more[..|more| - 1], more[|more| - 1];
      StaysRfqOnly(w, init, id);
      var v := Run(w, init);
      if e.ReadSide? || e.SettleMatch? || e.MarkBatch? {
        SettlerOnly(v, e, id);
      } else if e.PersistNext? || e.SettleGate? || e.SettleConfirm? || e.SettleInsert? {
        ProcessOnly(v, e, id);
      } else {
        IntakeOnly(v, e, id);
      }
    }
  }

  // the other half

  ghost predicate CanSettleTwice(w: World, id: string) { exists more :: SettledTwice(Run(w, more), id) }

  lemma LaterToo(w: World, first: seq<Step>, id: string)
    requires CanSettleTwice(Run(w, first), id)
    ensures CanSettleTwice(w, id)
  {
    var more :| SettledTwice(Run(Run(w, first), more), id);
    RunConcat(w, first, more);
    assert SettledTwice(Run(w, first + more), id);
  }

  /** An unlinked intent with a job can be settled by RFQ as well. */
  lemma JobThenSettle(w: World, id: string)
    requires id in w.rfq && !w.rfq[id] && JobFor(w, id)
    ensures CanSettleTwice(w, id)
  {
    var n := w.next;
    var w1 := Do(w, SettleOpen(id));
    assert w1.procs[n] == R(Settle(id, Found)) && w1.rfq == w.rfq && w1.jobs == w.jobs;
    var w2 := Do(w1, SettleGate(n));
    assert w2.procs[n] == R(Settle(id, Confirmed(false))) && w2.jobs == w.jobs;
    var w3 := Do(w2, SettleInsert(n));
    assert RfqSettlement(id, false) in w3.settlements && w3.jobs == w.jobs;
    assert SettledTwice(w3, id);
    RunOne(w, SettleOpen(id));
    RunThen(w, [SettleOpen(id)], SettleGate(n));
    RunThen(w, [SettleOpen(id)] + [SettleGate(n)], SettleInsert(n));
  }

  lemma EnqueuedHas(jobs: seq<Job>, job: Job)
    ensures HasJob(Enqueued(jobs, job), job.key)
  {
    if !HasJob(jobs, job.key) {
      assert (jobs + [job])[|jobs|].key == job.key;
    }
  }

  lemma QueueEffect(w: World, n: nat, t: Settler)
    requires n in w.procs && w.procs[n] == S(t) && t.i < |t.matches| && t.rfqA == Some(false) && t.rfqB == Some(false)
    ensures var w' := Do(w, SettleMatch(n));
      w'.rfq == w.rfq && w'.batches == w.batches && HasJob(w'.jobs, JobKey(t.batchId, t.i))
  {
    EnqueuedHas(w.jobs, Job(JobKey(t.batchId, t.i), t.matches[t.i]));
  }

  lemma KeyedJob(w: World, b: string, i: nat, id: string)
    requires JobsOk(w) && HasJob(w.jobs, JobKey(b, i)) && b in w.batches && i < |w.batches[b].matches|
    requires Touches(w.batches[b].matches[i], id)
    ensures JobFor(w, id)
  {
    var k :| 0 <= k < |w.jobs| && w.jobs[k].key == JobKey(b, i);
    assert JobOk(w.jobs[k], w);
  }

  /** Both sides read as direct: the job is queued. */
  lemma QueuedHasJob(w: World, n: nat, t: Settler, id: string)
    requires Inv(w) && n in w.procs && w.procs[n] == S(t) && t.i < |t.matches| && Touches(t.matches[t.i], id)
    requires t.rfqA == Some(false) && t.rfqB == Some(false)
    ensures var w' := Do(w, SettleMatch(n)); JobFor(w', id) && w'.rfq == w.rfq
  {
    assert t.batchId in w.batches && t.matches == w.batches[t.batchId].matches by {
      assert ProcOk(w.procs[n], w);
    }
    QueueEffect(w, n, t);
    QueueKeeps(w, n, t);
    KeyedJob(Do(w, SettleMatch(n)), t.batchId, t.i, id);
  }

  /** The side a settler that can queue id has still to read, if any. */
  function Missing(t: Settler, n: nat): seq<Step> {
    if t.rfqA.None? then [ReadSide(n, true)] else if t.rfqB.None? then [ReadSide(n, false)] else []
  }

  lemma ReadsMissing(w: World, n: nat, t: Settler, id: string)
    requires n in w.procs && w.procs[n] == S(t) && CanQueue(t, id, w.rfq)
    ensures var w' := Run(w, Missing(t, n));
      w'.rfq == w.rfq && n in w'.procs && w'.procs[n] == S(t.(rfqA := Some(false), rfqB := Some(false)))
  {
    if t.rfqA.None? {
      RunOne(w, ReadSide(n, true));
    } else if t.rfqB.None? {
      RunOne(w, ReadSide(n, false));
    } else {
      assert Run(w, []) == w;
    }
  }

  lemma MissingKeeps(w: World, n: nat, t: Settler)
    requires Inv(w)
    ensures Inv(Run(w, Missing(t, n)))
  {
    if t.rfqA.None? {
      RunOne(w, ReadSide(n, true));
      StepKeeps(w, ReadSide(n, true));
    } else if t.rfqB.None? {
      RunOne(w, ReadSide(n, false));
      StepKeeps(w, ReadSide(n, false));
    } else {
      assert Run(w, []) == w;
    }
  }

  lemma QueueThenSettle(w: World, n: nat, t: Settler, id: string)
    requires Inv(w) && n in w.procs && w.procs[n] == S(t) && CanQueue(t, id, w.rfq) && id in w.rfq && !w.rfq[id]
    ensures CanSettleTwice(w, id)
  {
    ReadsMissing(w, n, t, id);
    MissingKeeps(w, n, t);
    var w1 := Run(w, Missing(t, n));
    QueuedHasJob(w1, n, t.(rfqA := Some(false), rfqB := Some(false)), id);
    JobThenSettle(Do(w1, SettleMatch(n)), id);
    RunOne(w1, SettleMatch(n));
    LaterToo(w1, [SettleMatch(n)], id);
    LaterToo(w, Missing(t, n), id);
  }

  /** A settler's match has two different sides. */
  lemma SidesDiffer(w: World, n: nat, t: Settler)
    requires Inv(w) && n in w.procs && w.procs[n] == S(t) && t.i < |t.matches|
    ensures t.matches[t.i].aId != t.matches[t.i].bId
  {
    assert ProcOk(w.procs[n], w);
    assert SoundAt(w.signed[t.batchId], w.submitted, t.i);
  }

  lemma RowInserted(w: World, id: string)
    requires id !in w.rfq
    ensures var w1 := Do(w, RfqInsert(id)); w1.rfq == w.rfq[id := false] && w1.jobs == w.jobs && w1.procs == w.procs
  {
  }

  lemma StaleReader(w: World, n: nat, id: string)
    requires Inv(w) && id !in w.rfq && n in w.procs && w.procs[n].S? && CanQueue(w.procs[n].settler, id, w.rfq)
    ensures CanSettleTwice(Do(w, RfqInsert(id)), id)
  {
    var t := w.procs[n].settler;
    SidesDiffer(w, n, t);
    RowInserted(w, id);
    StepKeeps(w, RfqInsert(id));
    assert CanQueue(t, id, w.rfq[id := false]);
    QueueThenSettle(Do(w, RfqInsert(id)), n, t, id);
  }

  lemma EarlyJob(w: World, id: string)
    requires id !in w.rfq && JobFor(w, id)
    ensures CanSettleTwice(Do(w, RfqInsert(id)), id)
  {
    RowInserted(w, id);
    JobThenSettle(Do(w, RfqInsert(id)), id);
  }

  lemma NeitherYet(w: World, id: string)
    requires id !in w.rfq && !JobFor(w, id) && !Queuing(w, id)
    ensures !CanSettleTwice(Do(w, RfqInsert(id)), id)
  {
    InsertedOnly(w, id);
    forall more ensures !SettledTwice(Run(Do(w, RfqInsert(id)), more), id) {
      StaysRfqOnly(Do(w, RfqInsert(id)), more, id);
    }
  }

  /** Exclusion, exactly: when an intent gets its RFQ row, some continuation
      settles it on both paths if and only if it has a relayer job already, or a
      settler has read its side of a match as direct and may still queue it. */
  lemma ExclusionExact(steps: seq<Step>, id: string)
    requires id !in Run(EMPTY, steps).rfq
    ensures var w := Run(EMPTY, steps);
      CanSettleTwice(Do(w, RfqInsert(id)), id) <==> JobFor(w, id) || Queuing(w, id)
  {
    var w := Run(EMPTY, steps);
    Reachable(steps);
    if JobFor(w, id) {
      EarlyJob(w, id);
    } else if Queuing(w, id) {
      var n :| n in w.procs && w.procs[n].S? && CanQueue(w.procs[n].settler, id, w.rfq);
      StaleReader(w, n, id);
    } else {
      NeitherYet(w, id);
    }
  }

  lemma InsertedOnly(w: World, id: string)
    requires id !in w.rfq && !JobFor(w, id) && !Queuing(w, id)
    ensures RfqOnly(Do(w, RfqInsert(id)), id)
  {
    var w1 := Do(w, RfqInsert(id));
    SameJobs(w, w1, id);
    forall n | n in w1.procs && w1.procs[n].S? ensures !CanQueue(w1.procs[n].settler, id, w1.rfq) {
      assert !CanQueue(w.procs[n].settler, id, w.rfq);
    }
  }

  // ----- matched rows -----

  /** The step is a row update of id that finds no row. */
  ghost predicate Misses(w: World, e: Step, id: string) {
    e.PersistNext? && e.p in w.procs && w.procs[e.p].P? && id !in w.mpc &&
    var p := w.procs[e.p].persist;
    0 < p.pc <= 2 * |p.matches| && UpdateId(p.matches, p.pc - 1) == id
  }

  ghost predicate MissAt(steps: seq<Step>, k: nat, id: string) {
    k < |steps| && Misses(Run(EMPTY, steps[..k]), steps[k], id)
  }

  /** In this run persistence came to id's row before the row existed. */
  ghost predicate MissedUpdate(steps: seq<Step>, id: string) { exists k: nat :: MissAt(steps, k, id) }

  lemma PersistMissed(w: World, n: nat, p: Persist, id: string)
    requires n in w.procs && w.procs[n] == P(p)
    ensures id in DoPersist(w, n, p).missed <==> id in w.missed || Misses(w, PersistNext(n), id)
  {
  }

  lemma OtherMissed(w: World, e: Step)
    requires !e.PersistNext?
    ensures Do(w, e).missed == w.missed
  {
  }

  lemma StepMissed(w: World, e: Step, id: string)
    ensures id in Do(w, e).missed <==> id in w.missed || Misses(w, e, id)
  {
    if !e.PersistNext? {
      OtherMissed(w, e);
    } else if e.p in w.procs && w.procs[e.p].P? {
      PersistMissed(w, e.p, w.procs[e.p].persist, id);
    }
  }

  lemma MissedSnoc(steps: seq<Step>, e: Step, id: string)
    ensures MissedUpdate(steps + [e], id) <==> MissedUpdate(steps, id) || Misses(Run(EMPTY, steps), e, id)
  {
    var more := steps + [e];
    assert more[..|steps|] == steps;
    forall k: nat | k < |steps| ensures MissAt(more, k, id) <==> MissAt(steps, k, id) {
      assert more[..k] == steps[..k];
    }
    if MissedUpdate(steps, id) {
      var k: nat :| MissAt(steps, k, id);
      assert MissAt(more, k, id);
    } else if Misses(Run(EMPTY, steps), e, id) {
      assert MissAt(more, |steps|, id);
    }
  }

  lemma {:induction false} MissedIff(steps: seq<Step>, id: string)
    ensures id in Run(EMPTY, steps).missed <==> MissedUpdate(steps, id)
  {
    if steps != [] {
      var init, e := steps[..|steps| - 1], steps[|steps| - 1];
      MissedIff(init, id);
      StepMissed(Run(EMPTY, init), e, id);
      MissedSnoc(init, e, id);
      assert steps == init + [e];
    }
  }

  /** One persistence process per batch. */
  ghost predicate OneWriter(procs: map<nat, Process>) {
    forall m, n :: m in procs && n in procs && procs[m].P? && procs[n].P? && procs[m].persist.batchId == procs[n].persist.batchId ==> m == n
  }

  predicate PastUpdate(procs: map<nat, Process>, b: string, u: nat) {
    forall n :: n in procs && procs[n].P? && procs[n].persist.batchId == b ==> procs[n].persist.pc > u + 1
  }

  predicate IsUpdate(signed: map<string, seq<Match>>, b: string, u: nat, id: string) {
    b in signed && u < 2 * |signed[b]| && UpdateId(signed[b], u) == id
  }

  /** id's one update is over. */
  ghost predicate UpdateOver(procs: map<nat, Process>, signed: map<string, seq<Match>>, id: string) {
    exists b, u: nat :: IsUpdate(signed, b, u, id) && PastUpdate(procs, b, u)
  }

  ghost predicate MissedForGood(w: World) {
    OneWriter(w.procs) && forall id :: id in w.missed ==> !Matched(w.mpc, id) && UpdateOver(w.procs, w.signed, id)
  }

  lemma SameUpdate(w: World, b: string, u: nat, c: string, v: nat, id: string)
    requires SignedOk(w.signed, w.submitted) && SignedOnce(w.signed) && IsUpdate(w.signed, b, u, id) && IsUpdate(w.signed, c, v, id)
    ensures b == c && u == v
  {
    assert Touches(w.signed[b][u / 2], id) && Touches(w.signed[c][v / 2], id);
    assert b == c;
    assert Sound(w.signed[b], w.submitted);
    assert u / 2 == v / 2;
    assert SoundAt(w.signed[b], w.submitted, u / 2);
  }

  /** A persistence process becomes itself, further on. */
  predicate MovesOn(w: World, n: nat, p: Process) {
    && n in w.procs && (p.P? ==> w.procs[n].P?)
    && (p.P? ==> p.persist.batchId == w.procs[n].persist.batchId && p.persist.pc >= w.procs[n].persist.pc)
  }

  /** The updates that are over stay over when one process moves on or ends. */
  lemma OverStays(w: World, w': World, n: nat, id: string)
    requires Stepped(w, w', n) && UpdateOver(w.procs, w.signed, id)
    requires n in w'.procs ==> MovesOn(w, n, w'.procs[n])
    ensures UpdateOver(w'.procs, w'.signed, id)
  {
    var b, u: nat :| IsUpdate(w.signed, b, u, id) && PastUpdate(w.procs, b, u);
    assert IsUpdate(w'.signed, b, u, id) && PastUpdate(w'.procs, b, u);
  }

  lemma PersistMoves(w: World, n: nat, p: Persist)
    requires n in w.procs && w.procs[n] == P(p)
    ensures var w' := DoPersist(w, n, p);
      n in w'.procs ==> w'.procs[n] == P(p.(pc := p.pc + 1))
  {
  }

  lemma WriterStays(w: World, w': World, n: nat)
    requires OneWriter(w.procs) && Stepped(w, w', n)
    requires n in w'.procs ==> MovesOn(w, n, w'.procs[n])
    ensures OneWriter(w'.procs)
  {
  }

  /** A persistence step never marks a row that was missed, and one that misses a
      row is the last to come to it. */
  lemma PersistOnce(w: World, n: nat, p: Persist, id: string)
    requires Inv(w) && SignedOnce(w.signed) && MissedForGood(w) && n in w.procs && w.procs[n] == P(p)
    requires id in DoPersist(w, n, p).missed
    ensures var w' := DoPersist(w, n, p); !Matched(w'.mpc, id) && UpdateOver(w'.procs, w'.signed, id)
  {
    var w' := DoPersist(w, n, p);
    PersistGrows(w, n, p);
    PersistMoves(w, n, p);
    PersistMissed(w, n, p, id);
    assert p.batchId in w.signed && p.matches == w.signed[p.batchId] by {
      assert ProcOk(w.procs[n], w);
    }
    if id in w.missed {
      OverStays(w, w', n, id);
      MissedUnmarked(w, n, p, id);
    } else {
      FirstMiss(w, n, p, id);
    }
  }

  lemma MissedUnmarked(w: World, n: nat, p: Persist, id: string)
    requires SignedOk(w.signed, w.submitted) && SignedOnce(w.signed) && n in w.procs && w.procs[n] == P(p)
    requires p.batchId in w.signed && p.matches == w.signed[p.batchId]
    requires !Matched(w.mpc, id) && UpdateOver(w.procs, w.signed, id)
    ensures !Matched(DoPersist(w, n, p).mpc, id)
  {
    var b, u: nat :| IsUpdate(w.signed, b, u, id) && PastUpdate(w.procs, b, u);
    if 0 < p.pc <= 2 * |p.matches| && UpdateId(p.matches, p.pc - 1) == id {
      assert IsUpdate(w.signed, p.batchId, p.pc - 1, id);
      SameUpdate(w, b, u, p.batchId, p.pc - 1, id);
      assert false;
    }
  }

  lemma FirstMiss(w: World, n: nat, p: Persist, id: string)
    requires OneWriter(w.procs) && n in w.procs && w.procs[n] == P(p) && Misses(w, PersistNext(n), id)
    requires p.batchId in w.signed && p.matches == w.signed[p.batchId]
    ensures var w' := DoPersist(w, n, p); !Matched(w'.mpc, id) && UpdateOver(w'.procs, w'.signed, id)
  {
    var w' := DoPersist(w, n, p);
    PersistMoves(w, n, p);
    PersistGrows(w, n, p);
    assert IsUpdate(w'.signed, p.batchId, p.pc - 1, id);
    forall m | m in w'.procs && w'.procs[m].P? && w'.procs[m].persist.batchId == p.batchId
      ensures w'.procs[m].persist.pc > p.pc
    {
      assert m in w.procs && w.procs[m].P? && w.procs[m].persist.batchId == p.batchId;
    }
    assert PastUpdate(w'.procs, p.batchId, p.pc - 1);
  }

  lemma PersistForGood(w: World, n: nat, p: Persist)
    requires Inv(w) && SignedOnce(w.signed) && MissedForGood(w) && n in w.procs && w.procs[n] == P(p)
    ensures MissedForGood(DoPersist(w, n, p))
  {
    var w' := DoPersist(w, n, p);
    PersistGrows(w, n, p);
    PersistMoves(w, n, p);
    WriterStays(w, w', n);
    forall id | id in w'.missed ensures !Matched(w'.mpc, id) && UpdateOver(w'.procs, w'.signed, id) {
      PersistOnce(w, n, p, id);
    }
  }

  lemma SettlerNoWriter(w: World, n: nat, t: Settler, sideA: bool)
    requires n in w.procs && w.procs[n] == S(t)
    ensures var w' := DoRead(w, n, t, sideA); n in w'.procs ==> !w'.procs[n].P?
    ensures var w' := DoSettleMatch(w, n, t); n in w'.procs ==> !w'.procs[n].P?
    ensures var w' := DoMark(w, n, t); n in w'.procs ==> !w'.procs[n].P?
  {
  }

  lemma SettleNoWriter(w: World, n: nat, r: Settle, e: Step)
    requires n in w.procs && w.procs[n] == R(r)
    ensures var w' := DoSettle(w, n, r, e); n in w'.procs ==> !w'.procs[n].P?
  {
  }

  /** The processes of settler and RFQ are no writers, and change no row. */
  lemma NoWriter(w: World, e: Step)
    requires e.ReadSide? || e.SettleMatch? || e.MarkBatch? || e.SettleGate? || e.SettleConfirm? || e.SettleInsert?
    ensures var w' := Do(w, e); w'.mpc == w.mpc && w'.missed == w.missed && (e.p in w'.procs ==> MovesOn(w, e.p, w'.procs[e.p]))
  {
    OtherMissed(w, e);
    if e.p in w.procs {
      match w.procs[e.p] {
        case P(_) =>
        case S(t) =>
          SettlerNoWriter(w, e.p, t, e.ReadSide? && e.sideA);
          if e.ReadSide? || e.SettleMatch? || e.MarkBatch? {
            SettlerFrame(w, e.p, t, e);
          }
        case R(r) =>
          SettleNoWriter(w, e.p, r, e);
          SettleFrame(w, e.p, r, e);
      }
    }
  }

  lemma ProcessForGood(w: World, e: Step)
    requires MissedForGood(w)
    requires e.ReadSide? || e.SettleMatch? || e.MarkBatch? || e.SettleGate? || e.SettleConfirm? || e.SettleInsert?
    ensures MissedForGood(Do(w, e))
  {
    var w' := Do(w, e);
    NoWriter(w, e);
    StepStepped(w, e, e.p);
    WriterStays(w, w', e.p);
    forall id | id in w'.missed ensures UpdateOver(w'.procs, w'.signed, id) {
      OverStays(w, w', e.p, id);
    }
  }

  /** Procs of w' are those of w, or new and no writers of a signed batch. */
  lemma NewProcsForGood(w: World, w': World)
    requires Inv(w) && MissedForGood(w) && w'.missed == w.missed
    requires forall b :: b in w.signed ==> b in w'.signed && w'.signed[b] == w.signed[b]
    requires forall n :: n in w'.procs && w'.procs[n].P?
               ==> (n in w.procs && w'.procs[n] == w.procs[n]) || (n == w.next && w'.procs[n].persist.batchId !in w.signed)
    requires forall id :: Matched(w'.mpc, id) ==> Matched(w.mpc, id)
    ensures MissedForGood(w')
  {
    forall n | n in w.procs && w.procs[n].P? ensures w.procs[n].persist.batchId in w.signed {
      assert ProcOk(w.procs[n], w);
    }
    forall id | id in w'.missed ensures UpdateOver(w'.procs, w'.signed, id) {
      var b, u: nat :| IsUpdate(w.signed, b, u, id) && PastUpdate(w.procs, b, u);
      assert IsUpdate(w'.signed, b, u, id) && PastUpdate(w'.procs, b, u);
    }
  }

  lemma IntakeProcs(w: World, e: Step)
    requires Intake(e) || e.SignBatch? || e.Poll? || e.SettleOpen? || e.Crash?
    ensures var w' := Do(w, e);
      forall n :: n in w'.procs && w'.procs[n].P?
        ==> (n in w.procs && w'.procs[n] == w.procs[n]) || (n == w.next && w'.procs[n].persist.batchId !in w.signed)
  {
  }

  lemma IntakeTables(w: World, e: Step)
    requires Intake(e) || e.SignBatch? || e.Poll? || e.SettleOpen? || e.Crash?
    ensures var w' := Do(w, e);
      && w'.missed == w.missed && (forall id :: Matched(w'.mpc, id) ==> Matched(w.mpc, id))
      && (forall b :: b in w.signed ==> b in w'.signed && w'.signed[b] == w.signed[b])
  {
  }

  lemma IntakeForGood(w: World, e: Step)
    requires Inv(w) && MissedForGood(w) && (Intake(e) || e.SignBatch? || e.Poll? || e.SettleOpen? || e.Crash?)
    ensures MissedForGood(Do(w, e))
  {
    IntakeProcs(w, e);
    IntakeTables(w, e);
    NewProcsForGood(w, Do(w, e));
  }

  lemma StepForGood(w: World, e: Step)
    requires Inv(w) && SignedOnce(w.signed) && MissedForGood(w)
    ensures MissedForGood(Do(w, e))
  {
    if e.PersistNext? {
      if e.p in w.procs && w.procs[e.p].P? {
        PersistForGood(w, e.p, w.procs[e.p].persist);
      }
    } else if e.ReadSide? || e.SettleMatch? || e.MarkBatch? || e.SettleGate? || e.SettleConfirm? || e.SettleInsert? {
      ProcessForGood(w, e);
    } else {
      IntakeForGood(w, e);
    }
  }

  lemma SignedOnceBefore(w: World, w': World)
    requires Grows(w, w') && SignedOnce(w'.signed)
    ensures SignedOnce(w.signed)
  {
    forall b, c, i, j, x |
      (b in w.signed && c in w.signed && 0 <= i < |w.signed[b]| && 0 <= j < |w.signed[c]|
       && Touches(w.signed[b][i], x) && Touches(w.signed[c][j], x)) ensures b == c
    {
      assert Touches(w'.signed[b][i], x) && Touches(w'.signed[c][j], x);
    }
  }

  lemma {:induction false} MissedStaysUnmatched(steps: seq<Step>)
    requires SignedOnce(Run(EMPTY, steps).signed)
    ensures MissedForGood(Run(EMPTY, steps))
  {
    if steps != [] {
      var init, e := steps[..|steps| - 1], steps[|steps| - 1];
      Reachable(init);
      StepKeeps(Run(EMPTY, init), e);
      SignedOnceBefore(Run(EMPTY, init), Run(EMPTY, steps));
      MissedStaysUnmatched(init);
      StepForGood(Run(EMPTY, init), e);
    }
  }

  lemma UpdatedOrMissed(w: World, b: string, i: nat, id: string)
    requires CompletedOk(w) && b in w.completed && b in w.batches && i < |w.batches[b].matches| && Touches(w.batches[b].matches[i], id)
    ensures id in w.missed || Matched(w.mpc, id)
  {
    var ms := w.batches[b].matches;
    assert UpdatesDone(ms, 2 * |ms|, w.mpc, w.missed);
    assert UpdateId(ms, 2 * i) == ms[i].aId && UpdateId(ms, 2 * i + 1) == ms[i].bId;
  }

  /** With every intent signed once: of a batch whose persistence ran to its end,
      an intent is matched if and only if its row existed when its update ran. */
  lemma MatchedExactly(steps: seq<Step>, b: string, i: nat, id: string)
    requires var w := Run(EMPTY, steps);
      && SignedOnce(w.signed) && b in w.completed && b in w.batches
      && i < |w.batches[b].matches| && Touches(w.batches[b].matches[i], id)
    ensures Matched(Run(EMPTY, steps).mpc, id) <==> !MissedUpdate(steps, id)
  {
    Reachable(steps);
    MissedIff(steps, id);
    MissedStaysUnmatched(steps);
    UpdatedOrMissed(Run(EMPTY, steps), b, i, id);
  }

  /** Persistence as a whole: with every intent signed once and all persisted
      batches persisted to the end, the matched rows are those of the batches'
      intents except the missed ones, nobody is matched with himself, and two rows
      name each other unless the other one was missed. */
  lemma MatchedInvolution(steps: seq<Step>, id: string)
    requires SignedOnce(Run(EMPTY, steps).signed) && AllCompleted(Run(EMPTY, steps))
    ensures var w := Run(EMPTY, steps); Matched(w.mpc, id) <==> MatchedInBatch(w, id) && !MissedUpdate(steps, id)
    ensures var mpc := Run(EMPTY, steps).mpc;
      Matched(mpc, id) ==>
        && mpc[id].matchedWith.Some? && mpc[id].matchedWith.value != id
        && var y := mpc[id].matchedWith.value;
           if MissedUpdate(steps, y) then !Matched(mpc, y) else Matched(mpc, y) && mpc[y].matchedWith == Some(id)
  {
    var w := Run(EMPTY, steps);
    Reachable(steps);
    if MatchedInBatch(w, id) {
      var b, i :| b in w.batches && b in w.signed && w.batches[b].matches == w.signed[b] && 0 <= i < |w.signed[b]| && Touches(w.signed[b][i], id);
      MatchedExactly(steps, b, i, id);
    }
    if Matched(w.mpc, id) {
      MatchedRowInBatch(w, id);
      MatchedRows(steps, id);
      PartnerExactly(steps, id);
    }
  }

  lemma PartnerExactly(steps: seq<Step>, id: string)
    requires SignedOnce(Run(EMPTY, steps).signed) && AllCompleted(Run(EMPTY, steps)) && Matched(Run(EMPTY, steps).mpc, id)
    ensures var mpc := Run(EMPTY, steps).mpc;
      mpc[id].matchedWith.Some? && (Matched(mpc, mpc[id].matchedWith.value) <==> !MissedUpdate(steps, mpc[id].matchedWith.value))
  {
    var w := Run(EMPTY, steps);
    Reachable(steps);
    var y := w.mpc[id].matchedWith.value;
    assert PairedIn(w.batches, id, y);
    var b, i :| b in w.batches && 0 <= i < |w.batches[b].matches| && Joins(w.batches[b].matches[i], id, y);
    MatchedExactly(steps, b, i, y);
  }

  /** Rows in place before their batch is signed are never missed. */
  lemma RowsFirstSuffice(steps: seq<Step>, id: string)
    requires RowsFirst(steps)
    ensures !MissedUpdate(steps, id)
  {
    NothingMissed(steps);
    MissedIff(steps, id);
  }
}
