/** What holds of the settlement hand-off over whole runs, whatever processes
    crash and however they interleave. */
module SettlementSafety {
  import opened Wrappers
  import opened Netting
  import opened Settlement

  lemma RunSnoc(steps: seq<Step>, e: Step)
    ensures Run(EMPTY, steps + [e]) == Do(Run(EMPTY, steps), e)
  {
    assert (steps + [e])[..|steps|] == steps;
  }

  // ----- what the intent handler has done so far -----

  predicate Intake(e: Step) { e.RfqInsert? || e.SubmitToCommittee? || e.MpcUpsert? || e.Link? }

  lemma PersistFrame(w: World, n: nat, p: Persist)
    ensures var w' := DoPersist(w, n, p);
      w'.rfq == w.rfq && w'.submitted == w.submitted && w'.late == w.late && w'.mpc.Keys == w.mpc.Keys
  {
  }

  lemma SettleFrame(w: World, n: nat, r: Settle, e: Step)
    ensures var w' := DoSettle(w, n, r, e);
      w'.rfq == w.rfq && w'.submitted == w.submitted && w'.late == w.late && w'.mpc == w.mpc
  {
  }

  lemma SettlerFrame(w: World, n: nat, t: Settler, e: Step)
    requires e.ReadSide? || e.SettleMatch? || e.MarkBatch?
    ensures var w' := if e.ReadSide? then DoRead(w, n, t, e.sideA) else if e.SettleMatch? then DoSettleMatch(w, n, t) else DoMark(w, n, t);
      w'.rfq == w.rfq && w'.submitted == w.submitted && w'.late == w.late && w'.mpc == w.mpc
  {
  }

  /** Only the intent handler creates rows and submits. */
  lemma OthersFrame(w: World, e: Step)
    requires !Intake(e)
    ensures var w' := Do(w, e);
      w'.rfq == w.rfq && w'.submitted == w.submitted && w'.late == w.late && w'.mpc.Keys == w.mpc.Keys
  {
    if e.PersistNext? && e.p in w.procs && w.procs[e.p].P? {
      PersistFrame(w, e.p, w.procs[e.p].persist);
    } else if (e.ReadSide? || e.SettleMatch? || e.MarkBatch?) && e.p in w.procs && w.procs[e.p].S? {
      SettlerFrame(w, e.p, w.procs[e.p].settler, e);
    } else if (e.SettleGate? || e.SettleConfirm? || e.SettleInsert?) && e.p in w.procs && w.procs[e.p].R? {
      SettleFrame(w, e.p, w.procs[e.p].settle, e);
    }
  }

  predicate IsLinked(w: World, id: string) { id in w.rfq && w.rfq[id] }

  lemma StepIntake(w: World, e: Step, id: string)
    ensures var w' := Do(w, e);
      && (id in w'.rfq <==> id in w.rfq || e == RfqInsert(id))
      && (id in w'.submitted <==> id in w.submitted || e == SubmitToCommittee(id))
      && (id in w'.mpc <==> id in w.mpc || e == MpcUpsert(id))
      && (id in w'.late <==> id in w.late || (e == RfqInsert(id) && id !in w.rfq && id in w.submitted))
      && (IsLinked(w', id) <==> IsLinked(w, id) || (e == Link(id) && id in w.rfq && id in w.submitted))
  {
    if !Intake(e) {
      OthersFrame(w, e);
      assert id in w.mpc.Keys <==> id in w.mpc;
    }
  }

  /** A run's rows and submissions, read off its steps. */
  lemma {:induction false} RunIntake(steps: seq<Step>, id: string)
    ensures var w := Run(EMPTY, steps);
      && (id in w.rfq <==> RfqInsert(id) in steps)
      && (id in w.submitted <==> SubmitToCommittee(id) in steps)
      && (id in w.mpc <==> MpcUpsert(id) in steps)
  {
    if steps != [] {
      var n := |steps| - 1;
      RunIntake(steps[..n], id);
      StepIntake(Run(EMPTY, steps[..n]), steps[n], id);
      assert steps == steps[..n] + [steps[n]];
    }
  }

  // ----- an intent settles on one path only -----

  /** At step k id's RFQ row is first inserted, after id was submitted. */
  ghost predicate LateAt(steps: seq<Step>, k: nat, id: string) {
    k < |steps| && steps[k] == RfqInsert(id) && RfqInsert(id) !in steps[..k] && SubmitToCommittee(id) in steps[..k]
  }

  ghost predicate LateRow(steps: seq<Step>, id: string) { exists k: nat :: LateAt(steps, k, id) }

  lemma LateSnoc(steps: seq<Step>, e: Step, id: string)
    ensures LateRow(steps + [e], id)
            <==> LateRow(steps, id) || (e == RfqInsert(id) && RfqInsert(id) !in steps && SubmitToCommittee(id) in steps)
  {
    var more := steps + [e];
    assert more[..|steps|] == steps;
    forall k: nat | k < |steps| ensures LateAt(more, k, id) <==> LateAt(steps, k, id) {
      assert more[..k] == steps[..k];
    }
    if LateRow(steps, id) {
      var k: nat :| LateAt(steps, k, id);
      assert LateAt(more, k, id);
    } else if e == RfqInsert(id) && RfqInsert(id) !in steps && SubmitToCommittee(id) in steps {
      assert LateAt(more, |steps|, id);
    }
  }

  lemma {:induction false} LateIff(steps: seq<Step>, id: string)
    ensures id in Run(EMPTY, steps).late <==> LateRow(steps, id)
  {
    if steps != [] {
      var n := |steps| - 1;
      LateIff(steps[..n], id);
      RunIntake(steps[..n], id);
      StepIntake(Run(EMPTY, steps[..n]), steps[n], id);
      assert steps == steps[..n] + [steps[n]];
      LateSnoc(steps[..n], steps[n], id);
    }
  }

  /** id has a relayer job, and an RFQ settlement. */
  ghost predicate SettledTwice(w: World, id: string) {
    && (exists k :: 0 <= k < |w.jobs| && Touches(w.jobs[k].m, id))
    && (exists s :: s in w.settlements && s.id == id)
  }

  /** Settlement paths exclude each other unless the RFQ row came late. */
  lemma Exclusion(steps: seq<Step>, id: string)
    ensures SettledTwice(Run(EMPTY, steps), id) ==> LateRow(steps, id)
  {
    var w := Run(EMPTY, steps);
    Reachable(steps);
    LateIff(steps, id);
    if SettledTwice(w, id) {
      var k :| 0 <= k < |w.jobs| && Touches(w.jobs[k].m, id);
      assert JobOk(w.jobs[k], w);
    }
  }

  // ----- exactly one job per direct match -----

  ghost predicate JobsFor(w: World, b: string, i: nat, ks: set<int>) {
    forall k :: k in ks <==> 0 <= k < |w.jobs| && w.jobs[k].key == JobKey(b, i)
  }

  /** Of a batch that left `pending`, each match has exactly one job when neither
      side has an RFQ row, and none otherwise. */
  lemma ExactlyOnce(steps: seq<Step>, b: string, i: nat)
    requires var w := Run(EMPTY, steps); b in w.batches && w.batches[b].status != Pending && i < |w.batches[b].matches|
    requires var m := Run(EMPTY, steps).batches[b].matches[i]; !LateRow(steps, m.aId) && !LateRow(steps, m.bId)
    ensures var w := Run(EMPTY, steps); var m := w.batches[b].matches[i];
      if RfqSide(m, w.rfq) then !HasJob(w.jobs, JobKey(b, i))
      else exists k :: JobsFor(w, b, i, {k}) && w.jobs[k].m == m
  {
    var w := Run(EMPTY, steps);
    var m := w.batches[b].matches[i];
    Reachable(steps);
    LateIff(steps, m.aId);
    LateIff(steps, m.bId);
    assert Handled(b, w.batches[b].matches, i, w.jobs, w.rfq);
    if HasJob(w.jobs, JobKey(b, i)) {
      var k :| 0 <= k < |w.jobs| && w.jobs[k].key == JobKey(b, i);
      assert JobOk(w.jobs[k], w);
      assert JobsFor(w, b, i, {k});
    }
  }

  /** Whatever the batch's status, and even for late rows: no match has two jobs,
      and no job is for anything but its match. */
  lemma AtMostOnce(steps: seq<Step>, k: nat, l: nat)
    requires k < |Run(EMPTY, steps).jobs| && l < |Run(EMPTY, steps).jobs|
    ensures var w := Run(EMPTY, steps); var j := w.jobs[k].key;
      && j.batchId in w.batches && j.index < |w.batches[j.batchId].matches|
      && w.jobs[k].m == w.batches[j.batchId].matches[j.index]
      && (w.jobs[k].key == w.jobs[l].key ==> k == l)
  {
    var w := Run(EMPTY, steps);
    Reachable(steps);
    assert JobOk(w.jobs[k], w);
  }

  // ----- the MPC gate -----

  /** Some persisted batch, which the committee signed, matches id. */
  ghost predicate MatchedInBatch(w: World, id: string) {
    exists b, i :: b in w.batches && b in w.signed && w.batches[b].matches == w.signed[b]
                   && 0 <= i < |w.signed[b]| && Touches(w.signed[b][i], id)
  }

  /** A settlement that passed the gate is of a matched intent. */
  lemma GatedSettlement(steps: seq<Step>, s: RfqSettlement)
    requires s in Run(EMPTY, steps).settlements && s.gated
    ensures MatchedInBatch(Run(EMPTY, steps), s.id)
  {
    var w := Run(EMPTY, steps);
    Reachable(steps);
    var y := w.mpc[s.id].matchedWith.value;
    assert PairedIn(w.batches, s.id, y);
    var b, i :| b in w.batches && 0 <= i < |w.batches[b].matches| && Joins(w.batches[b].matches[i], s.id, y);
    assert Touches(w.signed[b][i], s.id);
  }

  /** At step k a settlement of id passed the gate's look at `mpc_session_id`
      before id had been linked to its session. */
  ghost predicate EarlyAt(steps: seq<Step>, k: nat, id: string) {
    && k < |steps| && steps[k].SettleGate?
    && var w := Run(EMPTY, steps[..k]);
       steps[k].p in w.procs && w.procs[steps[k].p] == R(Settle(id, Found)) && !IsLinked(w, id)
  }

  ghost predicate EarlyGate(steps: seq<Step>, id: string) { exists k: nat :: EarlyAt(steps, k, id) }

  ghost predicate ProcGated(p: Process, id: string) {
    p.R? && p.settle.id == id ==> p.settle.stage != Confirmed(false)
  }

  /** Settlements of id, recorded or under way, went through the gate. */
  ghost predicate AllGated(w: World, id: string) {
    && (forall n :: n in w.procs ==> ProcGated(w.procs[n], id))
    && (forall s :: s in w.settlements && s.id == id ==> s.gated)
  }

  lemma SettleGated(w: World, n: nat, r: Settle, e: Step, id: string)
    requires AllGated(w, id) && n in w.procs && w.procs[n] == R(r)
    requires e.SettleGate? && r == Settle(id, Found) ==> IsLinked(w, id)
    ensures AllGated(DoSettle(w, n, r, e), id)
  {
    assert ProcGated(w.procs[n], id);
  }

  lemma OtherGated(w: World, e: Step, id: string)
    requires AllGated(w, id) && !e.SettleGate? && !e.SettleConfirm? && !e.SettleInsert?
    ensures AllGated(Do(w, e), id)
  {
  }

  lemma {:induction false} GatedUnlessEarly(steps: seq<Step>, id: string)
    requires !EarlyGate(steps, id)
    ensures AllGated(Run(EMPTY, steps), id)
  {
    if steps != [] {
      var n := |steps| - 1;
      var before, e := steps[..n], steps[n];
      var w := Run(EMPTY, before);
      forall k: nat ensures !EarlyAt(before, k, id) {
        assert !EarlyAt(steps, k, id);
        assert k < n ==> before[..k] == steps[..k];
      }
      GatedUnlessEarly(before, id);
      assert !EarlyAt(steps, n, id);
      if !e.SettleGate? && !e.SettleConfirm? && !e.SettleInsert? {
        OtherGated(w, e, id);
      } else if e.p in w.procs && w.procs[e.p].R? {
        SettleGated(w, e.p, w.procs[e.p].settle, e, id);
      }
    }
  }

  /** Settlement safety: a recorded settlement of an intent none of whose
      settlements read the gate before the intent was linked implies that a
      persisted signed batch matches it, crashes or not. */
  lemma SettledImpliesMatched(steps: seq<Step>, s: RfqSettlement)
    requires s in Run(EMPTY, steps).settlements && !EarlyGate(steps, s.id)
    ensures MatchedInBatch(Run(EMPTY, steps), s.id)
  {
    GatedUnlessEarly(steps, s.id);
    GatedSettlement(steps, s);
  }

  // ----- matched rows -----

  /** No intent is in two signed batches. */
  ghost predicate SignedOnce(signed: map<string, seq<Match>>) {
    forall b, c, i, j, x ::
      (b in signed && c in signed && 0 <= i < |signed[b]| && 0 <= j < |signed[c]|
       && Touches(signed[b][i], x) && Touches(signed[c][j], x)) ==> b == c
  }

  /** A matched row names the other side of the one match its intent is in. */
  lemma PartnerUnique(w: World, x: string, y: string, z: string)
    requires SignedOk(w.signed, w.submitted) && BatchesOk(w.batches, w.signed) && SignedOnce(w.signed)
    requires PairedIn(w.batches, x, y) && PairedIn(w.batches, y, z)
    ensures x != y && z == x
  {
    var b, i :| b in w.batches && 0 <= i < |w.batches[b].matches| && Joins(w.batches[b].matches[i], x, y);
    var c, j :| c in w.batches && 0 <= j < |w.batches[c].matches| && Joins(w.batches[c].matches[j], y, z);
    assert Touches(w.signed[b][i], y) && Touches(w.signed[c][j], y);
    assert b == c;
    assert Sound(w.signed[b], w.submitted);
    assert i == j;
    assert SoundAt(w.signed[b], w.submitted, i);
  }

  /** With every intent signed once, `matched_with` has no fixed point, and where
      both rows are matched they name each other, at any moment of any run. */
  lemma MatchedRows(steps: seq<Step>, id: string)
    requires SignedOnce(Run(EMPTY, steps).signed) && Matched(Run(EMPTY, steps).mpc, id)
    ensures var mpc := Run(EMPTY, steps).mpc;
      && mpc[id].matchedWith.Some? && mpc[id].matchedWith.value != id
      && (Matched(mpc, mpc[id].matchedWith.value) ==> mpc[mpc[id].matchedWith.value].matchedWith == Some(id))
  {
    var w := Run(EMPTY, steps);
    Reachable(steps);
    var y := w.mpc[id].matchedWith.value;
    assert PairedIn(w.batches, id, y);
    assert PairedIn(w.batches, y, id) by {
      var b, k :| b in w.batches && 0 <= k < |w.batches[b].matches| && Joins(w.batches[b].matches[k], id, y);
      assert Joins(w.batches[b].matches[k], y, id);
    }
    PartnerUnique(w, id, y, id);
    if Matched(w.mpc, y) {
      PartnerUnique(w, id, y, w.mpc[y].matchedWith.value);
    }
  }

  /** Every row exists before a batch with its intent is signed. */
  ghost predicate RowsFirst(steps: seq<Step>) {
    forall k: nat, i: nat, x ::
      (k < |steps| && steps[k].SignBatch? && i < |steps[k].matches| && Touches(steps[k].matches[i], x))
      ==> MpcUpsert(x) in steps[..k]
  }

  /** Intents of signed batches have rows, and no update missed one. */
  ghost predicate RowsExist(w: World) {
    && w.missed == {}
    && (forall b, i, x :: b in w.signed && 0 <= i < |w.signed[b]| && Touches(w.signed[b][i], x) ==> x in w.mpc)
  }

  lemma RowsStep(w: World, e: Step)
    requires Inv(w) && RowsExist(w)
    requires e.SignBatch? ==> forall i, x :: 0 <= i < |e.matches| && Touches(e.matches[i], x) ==> x in w.mpc
    ensures RowsExist(Do(w, e))
  {
    if e.PersistNext? {
      if e.p in w.procs && w.procs[e.p].P? {
        var p := w.procs[e.p].persist;
        assert PersistOk(p, w) by {
          assert ProcOk(w.procs[e.p], w);
        }
        PersistRows(w, e.p, p);
      }
    } else {
      OtherRows(w, e);
    }
  }

  /** A persistence process finds every row. */
  lemma PersistRows(w: World, n: nat, p: Persist)
    requires n in w.procs && RowsExist(w) && PersistOk(p, w)
    ensures RowsExist(DoPersist(w, n, p))
  {
    PersistFrame(w, n, p);
    PersistGrows(w, n, p);
    if 0 < p.pc && p.pc - 1 < 2 * |p.matches| {
      assert Touches(w.signed[p.batchId][(p.pc - 1) / 2], UpdateId(p.matches, p.pc - 1));
    }
  }

  lemma OtherRows(w: World, e: Step)
    requires RowsExist(w) && !e.PersistNext?
    requires e.SignBatch? ==> forall i, x :: 0 <= i < |e.matches| && Touches(e.matches[i], x) ==> x in w.mpc
    ensures RowsExist(Do(w, e))
  {
    if !Intake(e) {
      OthersFrame(w, e);
    }
  }

  lemma {:induction false} NothingMissed(steps: seq<Step>)
    requires RowsFirst(steps)
    ensures RowsExist(Run(EMPTY, steps))
  {
    if steps != [] {
      var n := |steps| - 1;
      var before, e := steps[..n], steps[n];
      var w := Run(EMPTY, before);
      forall k: nat, i: nat, x | k < n && before[k].SignBatch? && i < |before[k].matches| && Touches(before[k].matches[i], x)
        ensures MpcUpsert(x) in before[..k]
      {
        assert before[..k] == steps[..k] && before[k] == steps[k];
      }
      NothingMissed(before);
      Reachable(before);
      if e.SignBatch? {
        forall i: nat, x | i < |e.matches| && Touches(e.matches[i], x) ensures x in w.mpc {
          assert MpcUpsert(x) in steps[..n];
          RunIntake(before, x);
        }
      }
      RowsStep(w, e);
    }
  }

  ghost predicate AllCompleted(w: World) { forall b :: b in w.batches ==> b in w.completed }
}
