/** The hand-off gets things done: what each statement achieves when its turn
    comes, and whole passes taken in a row. */
module SettlementProgress {
  import opened Wrappers
  import opened Netting
  import opened Settlement
  import opened SettlementSafety
  import opened SettlementExact
  import opened SettlementStore

  // ----- the gate lets matched intents through -----

  /** The look at the intent row: routed exactly when the row is linked. */
  lemma GateLooks(w: World, n: nat, id: string)
    requires n in w.procs && w.procs[n] == R(Settle(id, Found))
    ensures var w' := Do(w, SettleGate(n));
      w' == w.(procs := w.procs[n := R(Settle(id, if IsLinked(w, id) then Routed else Confirmed(false)))])
  {
  }

  /** The look at the match: it lets exactly matched intents through, and ends the
      process otherwise. */
  lemma ConfirmLooks(w: World, n: nat, id: string)
    requires n in w.procs && w.procs[n] == R(Settle(id, Routed))
    ensures var w' := Do(w, SettleConfirm(n));
      if Matched(w.mpc, id) then w' == w.(procs := w.procs[n := R(Settle(id, Confirmed(true)))])
      else w' == w.(procs := w.procs - {n})
  {
  }

  lemma InsertRecords(w: World, n: nat, id: string, gated: bool)
    requires n in w.procs && w.procs[n] == R(Settle(id, Confirmed(gated)))
    ensures Do(w, SettleInsert(n)) == w.(settlements := w.settlements + {RfqSettlement(id, gated)}, procs := w.procs - {n})
  {
  }

  lemma OpenStarts(w: World, id: string)
    ensures Do(w, SettleOpen(id)) ==
      if id in w.rfq then w.(procs := w.procs[w.next := R(Settle(id, Found))], next := w.next + 1) else w
  {
  }

  /** A routed settlement of a matched intent is recorded as gated; one of an
      intent that is not matched ends without a record. */
  lemma RoutedExactly(w: World, n: nat, id: string)
    requires n in w.procs && w.procs[n] == R(Settle(id, Routed))
    ensures var w' := Run(w, [SettleConfirm(n), SettleInsert(n)]);
      && n !in w'.procs
      && w'.settlements == if Matched(w.mpc, id) then w.settlements + {RfqSettlement(id, true)} else w.settlements
  {
    var w1 := Do(w, SettleConfirm(n));
    RunTwo(w, SettleConfirm(n), SettleInsert(n));
    ConfirmLooks(w, n, id);
    if Matched(w.mpc, id) {
      InsertRecords(w1, n, id, true);
    } else {
      InsertIdle(w1, n);
    }
  }

  lemma InsertIdle(w: World, n: nat)
    requires n !in w.procs
    ensures Do(w, SettleInsert(n)) == w
  {
  }

  lemma RunTwo(w: World, a: Step, b: Step)
    ensures Run(w, [a, b]) == Do(Do(w, a), b)
  {
    RunOne(w, a);
    RunTo(w, [a], b, [a, b]);
  }

  lemma RunFour(w: World, a: Step, b: Step, c: Step, d: Step)
    ensures Run(w, [a, b, c, d]) == Run(Do(Do(w, a), b), [c, d])
  {
    RunTwo(w, a, b);
    RunConcat(w, [a, b], [c, d]);
    assert [a, b] + [c, d] == [a, b, c, d];
  }

  /** A whole settlement left alone: recorded past the gate when the intent is
      linked and matched, refused when it is linked and not matched, and recorded
      without the gate when it is not linked. */
  lemma SettleExactly(w: World, id: string)
    requires id in w.rfq && w.next !in w.procs
    ensures var n := w.next;
            var w' := Run(w, [SettleOpen(id), SettleGate(n), SettleConfirm(n), SettleInsert(n)]);
      w'.settlements ==
        if !IsLinked(w, id) then w.settlements + {RfqSettlement(id, false)}
        else if Matched(w.mpc, id) then w.settlements + {RfqSettlement(id, true)}
        else w.settlements
  {
    var n := w.next;
    var w1 := Do(w, SettleOpen(id));
    var w2 := Do(w1, SettleGate(n));
    RunFour(w, SettleOpen(id), SettleGate(n), SettleConfirm(n), SettleInsert(n));
    OpenStarts(w, id);
    GateLooks(w1, n, id);
    if IsLinked(w, id) {
      RoutedExactly(w2, n, id);
    } else {
      RunTwo(w2, SettleConfirm(n), SettleInsert(n));
      ConfirmIdle(w2, n, id);
      InsertRecords(w2, n, id, false);
    }
  }

  lemma ConfirmIdle(w: World, n: nat, id: string)
    requires n in w.procs && w.procs[n] == R(Settle(id, Confirmed(false)))
    ensures Do(w, SettleConfirm(n)) == w
  {
  }

  // ----- rows -----

  /** The intent handler's statements, row by row. */
  lemma IntakeExactly(w: World, id: string)
    ensures Do(w, MpcUpsert(id)).mpc == (if id in w.mpc then w.mpc else w.mpc[id := MpcRow(false, None)])
    ensures Do(w, RfqInsert(id)).rfq == (if id in w.rfq then w.rfq else w.rfq[id := false])
    ensures Do(w, Link(id)).rfq == (if id in w.rfq && id in w.submitted then w.rfq[id := true] else w.rfq)
    ensures Do(w, SubmitToCommittee(id)).submitted == w.submitted + {id}
  {
  }

  /** A process that stops takes nothing with it but itself. */
  lemma CrashExactly(w: World, n: nat)
    ensures Do(w, Crash(n)) == w.(procs := w.procs - {n})
  {
  }

  // ----- a batch, from signature to jobs -----

  lemma SignStarts(w: World, b: string, ms: seq<Match>)
    requires CanSign(w, b, ms)
    ensures Do(w, SignBatch(b, ms))
         == w.(signed := w.signed[b := ms], procs := w.procs[w.next := P(Persist(b, ms, 0))], next := w.next + 1)
  {
  }

  lemma PollStarts(w: World, b: string)
    ensures Do(w, Poll(b)) ==
      if b in w.batches && w.batches[b].status.Pending?
      then w.(procs := w.procs[w.next := S(Settler(b, w.batches[b].matches, 0, 0, None, None))], next := w.next + 1)
      else w
  {
  }

  /** Persistence left alone, with every row there: the batch row, the marked rows
      and the end. */
  lemma PersistCompletesAll(w: World, n: nat, b: string, ms: seq<Match>)
    requires n in w.procs && w.procs[n] == P(Persist(b, ms, 0)) && HasRows(w.mpc, ms)
    ensures var w' := Run(w, PersistSteps(n, 2 * |ms| + 2));
      && w'.batches == InsertBatch(w.batches, b, ms) && w'.mpc == Marked(w.mpc, ms, 2 * |ms|).mpc
      && b in w'.completed && n !in w'.procs
  {
    var before := PersistSteps(n, 2 * |ms| + 1);
    MarkedKeys(w.mpc, ms);
    PersistUninterrupted(w, n, b, ms, 2 * |ms|);
    RunThen(w, before, PersistNext(n));
    PersistEnds(Run(w, before), n, b, ms);
  }

  lemma PersistEnds(w: World, n: nat, b: string, ms: seq<Match>)
    requires n in w.procs && w.procs[n] == P(Persist(b, ms, 2 * |ms| + 1))
    ensures Do(w, PersistNext(n)) == w.(completed := w.completed + {b}, procs := w.procs - {n})
  {
  }

  lemma PersistKeepsNext(w: World, n: nat, k: nat)
    ensures Run(w, PersistSteps(n, k)).next == w.next && Run(w, PersistSteps(n, k)).rfq == w.rfq
    ensures Run(w, PersistSteps(n, k)).jobs == w.jobs
  {
    if k > 0 {
      PersistKeepsNext(w, n, k - 1);
      RunThen(w, PersistSteps(n, k - 1), PersistNext(n));
      PersistStepKeeps(Run(w, PersistSteps(n, k - 1)), n);
    } else {
      assert Run(w, []) == w;
    }
  }

  lemma PersistStepKeeps(w: World, n: nat)
    ensures var w' := Do(w, PersistNext(n)); w'.next == w.next && w'.rfq == w.rfq && w'.jobs == w.jobs
  {
    if n in w.procs && w.procs[n].P? {
      PersistGrows(w, n, w.procs[n].persist);
      PersistFrame(w, n, w.procs[n].persist);
    }
  }

  /** The statements from signature to status, with nothing in between. */
  ghost function WholeBatch(w: World, b: string, ms: seq<Match>): World {
    var w1 := Run(Do(w, SignBatch(b, ms)), PersistSteps(w.next, 2 * |ms| + 2));
    Run(Do(w1, Poll(b)), SettlerSteps(w1.next, |ms|) + [MarkBatch(w1.next)])
  }

  /** A sound batch whose rows exist, left alone from its signature on: it is
      persisted to the end, its rows are marked, exactly its direct matches get
      jobs, and its status says so. */
  lemma BatchSettles(w: World, b: string, ms: seq<Match>)
    requires CanSign(w, b, ms) && b !in w.batches && HasRows(w.mpc, ms)
    ensures var w1 := Run(Do(w, SignBatch(b, ms)), PersistSteps(w.next, 2 * |ms| + 2));
      w1.mpc == Marked(w.mpc, ms, 2 * |ms|).mpc && b in w1.completed
    ensures var done := WholeBatch(w, b, ms);
      && done.jobs == QueuedJobs(w.jobs, w.rfq, b, ms, |ms|)
      && b in done.batches && done.batches[b] == BatchRow(ms, SettledStatus(DirectCount(w.rfq, ms, |ms|)))
  {
    var w0 := Do(w, SignBatch(b, ms));
    SignStarts(w, b, ms);
    PersistCompletesAll(w0, w.next, b, ms);
    PersistKeepsNext(w0, w.next, 2 * |ms| + 2);
    SettlesAfter(Run(w0, PersistSteps(w.next, 2 * |ms| + 2)), b, ms);
  }

  lemma SettlesAfter(w: World, b: string, ms: seq<Match>)
    requires b in w.batches && w.batches[b] == BatchRow(ms, Pending)
    ensures var done := Run(Do(w, Poll(b)), SettlerSteps(w.next, |ms|) + [MarkBatch(w.next)]);
      && done.jobs == QueuedJobs(w.jobs, w.rfq, b, ms, |ms|)
      && b in done.batches && done.batches[b] == BatchRow(ms, SettledStatus(DirectCount(w.rfq, ms, |ms|)))
  {
    PollStarts(w, b);
    MarkUninterrupted(Do(w, Poll(b)), w.next, b);
  }
}
