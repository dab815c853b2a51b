/** Runs that show why the conditions of the settlement theorems are there. Each
    is built step by step from the empty database. */
module SettlementRaces {
  import opened Wrappers
  import opened Netting
  import opened Settlement
  import opened SettlementSafety

  lemma Then(before: seq<Step>, e: Step) returns (more: seq<Step>)
    ensures Run(EMPTY, more) == Do(Run(EMPTY, before), e)
  {
    more := before + [e];
    RunSnoc(before, e);
  }

  lemma Nothing() returns (steps: seq<Step>)
    ensures Run(EMPTY, steps) == EMPTY
  {
    steps := [];
  }

  // ----- a settlement that looks too early -----

  function Listed(): World { EMPTY.(rfq := map["a" := false]) }

  lemma DoListed()
    ensures Do(EMPTY, RfqInsert("a")) == Listed()
  {
  }

  lemma AtListed() returns (steps: seq<Step>)
    ensures Run(EMPTY, steps) == Listed()
  {
    steps := Nothing();
    steps := Then(steps, RfqInsert("a"));
    DoListed();
  }

  function Sent(): World { Listed().(submitted := {"a"}) }

  lemma DoSent()
    ensures Do(Listed(), SubmitToCommittee("a")) == Sent()
  {
  }

  lemma AtSent() returns (steps: seq<Step>)
    ensures Run(EMPTY, steps) == Sent()
  {
    steps := AtListed();
    steps := Then(steps, SubmitToCommittee("a"));
    DoSent();
  }

  function Opened(): World { Sent().(procs := map[0 := R(Settle("a", Found))], next := 1) }

  lemma DoOpened()
    ensures Do(Sent(), SettleOpen("a")) == Opened()
  {
  }

  lemma AtOpened() returns (steps: seq<Step>)
    ensures Run(EMPTY, steps) == Opened()
  {
    steps := AtSent();
    steps := Then(steps, SettleOpen("a"));
    DoOpened();
  }

  function Passed(): World { Opened().(procs := map[0 := R(Settle("a", Confirmed(false)))]) }

  lemma DoPassed()
    ensures Do(Opened(), SettleGate(0)) == Passed()
  {
  }

  lemma AtPassed() returns (steps: seq<Step>)
    ensures Run(EMPTY, steps) == Passed()
  {
    steps := AtOpened();
    steps := Then(steps, SettleGate(0));
    DoPassed();
  }

  function Entered(): World { Passed().(mpc := map["a" := MpcRow(false, None)]) }

  lemma DoEntered()
    ensures Do(Passed(), MpcUpsert("a")) == Entered()
  {
  }

  lemma AtEntered() returns (steps: seq<Step>)
    ensures Run(EMPTY, steps) == Entered()
  {
    steps := AtPassed();
    steps := Then(steps, MpcUpsert("a"));
    DoEntered();
  }

  function Linked(): World { Entered().(rfq := map["a" := true]) }

  lemma DoLinked()
    ensures Do(Entered(), Link("a")) == Linked()
  {
  }

  lemma AtLinked() returns (steps: seq<Step>)
    ensures Run(EMPTY, steps) == Linked()
  {
    steps := AtEntered();
    steps := Then(steps, Link("a"));
    DoLinked();
  }

  function Recorded(): World { Linked().(procs := map[], settlements := {RfqSettlement("a", false)}) }

  lemma DoRecorded()
    ensures Do(Linked(), SettleInsert(0)) == Recorded()
  {
  }

  lemma AtRecorded() returns (steps: seq<Step>)
    ensures Run(EMPTY, steps) == Recorded()
  {
    steps := AtLinked();
    steps := Then(steps, SettleInsert(0));
    DoRecorded();
  }

  /** An RFQ settlement gets past the MPC gate without a match, when it looks
      between the committee's acceptance of the intent and the link. */
  lemma GateRace() returns (steps: seq<Step>, s: RfqSettlement)
    ensures var w := Run(EMPTY, steps);
      s in w.settlements && IsLinked(w, s.id) && s.id in w.submitted && !MatchedInBatch(w, s.id)
  {
    steps := AtRecorded();
    s := RfqSettlement("a", false);
  }

  // ----- a row that comes too late -----

  const CROSSING := Match("a", "b", 1, "X", "Y")

  lemma CrossingSound()
    ensures Sound([CROSSING], {"a", "b"})
  {
    assert SoundAt([CROSSING], {"a", "b"}, 0);
  }

  /** "a" and "b" are submitted and matched, and their batch row is written. */

  function OneSent(): World { EMPTY.(submitted := {"a"}) }

  lemma DoOneSent()
    ensures Do(EMPTY, SubmitToCommittee("a")) == OneSent()
  {
  }

  lemma AtOneSent() returns (steps: seq<Step>)
    ensures Run(EMPTY, steps) == OneSent()
  {
    steps := Nothing();
    steps := Then(steps, SubmitToCommittee("a"));
    DoOneSent();
  }

  function BothSent(): World { EMPTY.(submitted := {"a", "b"}) }

  lemma DoBothSent()
    ensures Do(OneSent(), SubmitToCommittee("b")) == BothSent()
  {
    assert {"a"} + {"b"} == {"a", "b"};
  }

  lemma AtBothSent() returns (steps: seq<Step>)
    ensures Run(EMPTY, steps) == BothSent()
  {
    steps := AtOneSent();
    steps := Then(steps, SubmitToCommittee("b"));
    DoBothSent();
  }

  function Crossed(): World {
    BothSent().(signed := map["B" := [CROSSING]], procs := map[0 := P(Persist("B", [CROSSING], 0))], next := 1)
  }

  lemma DoCrossed()
    ensures Do(BothSent(), SignBatch("B", [CROSSING])) == Crossed()
  {
    CrossingSound();
  }

  lemma AtCrossed() returns (steps: seq<Step>)
    ensures Run(EMPTY, steps) == Crossed()
  {
    steps := AtBothSent();
    steps := Then(steps, SignBatch("B", [CROSSING]));
    DoCrossed();
  }

  function Stored(): World {
    Crossed().(batches := map["B" := BatchRow([CROSSING], Pending)], procs := map[0 := P(Persist("B", [CROSSING], 1))])
  }

  lemma DoStored()
    ensures Do(Crossed(), PersistNext(0)) == Stored()
  {
  }

  lemma AtStored() returns (steps: seq<Step>)
    ensures Run(EMPTY, steps) == Stored()
  {
    steps := AtCrossed();
    steps := Then(steps, PersistNext(0));
    DoStored();
  }

  /** A settler finds neither side RFQ-routed and queues the match's job. */

  function Polled(): World {
    Stored().(procs := map[0 := P(Persist("B", [CROSSING], 1)), 1 := S(Settler("B", [CROSSING], 0, 0, None, None))], next := 2)
  }

  lemma DoPolled()
    ensures Do(Stored(), Poll("B")) == Polled()
  {
  }

  lemma AtPolled() returns (steps: seq<Step>)
    ensures Run(EMPTY, steps) == Polled()
  {
    steps := AtStored();
    steps := Then(steps, Poll("B"));
    DoPolled();
  }

  function ReadA(): World {
    Polled().(procs := map[0 := P(Persist("B", [CROSSING], 1)), 1 := S(Settler("B", [CROSSING], 0, 0, Some(false), None))])
  }

  lemma DoReadA()
    ensures Do(Polled(), ReadSide(1, true)) == ReadA()
  {
  }

  lemma AtReadA() returns (steps: seq<Step>)
    ensures Run(EMPTY, steps) == ReadA()
  {
    steps := AtPolled();
    steps := Then(steps, ReadSide(1, true));
    DoReadA();
  }

  function ReadBoth(): World {
    Polled().(procs := map[0 := P(Persist("B", [CROSSING], 1)), 1 := S(Settler("B", [CROSSING], 0, 0, Some(false), Some(false)))])
  }

  lemma DoReadBoth()
    ensures Do(ReadA(), ReadSide(1, false)) == ReadBoth()
  {
  }

  lemma AtReadBoth() returns (steps: seq<Step>)
    ensures Run(EMPTY, steps) == ReadBoth()
  {
    steps := AtReadA();
    steps := Then(steps, ReadSide(1, false));
    DoReadBoth();
  }

  function QueuedJob(): World {
    Polled().(procs := map[0 := P(Persist("B", [CROSSING], 1)), 1 := S(Settler("B", [CROSSING], 1, 1, None, None))], jobs := [Job(JobKey("B", 0), CROSSING)])
  }

  lemma DoQueuedJob()
    ensures Do(ReadBoth(), SettleMatch(1)) == QueuedJob()
  {
    assert !HasJob([], JobKey("B", 0));
  }

  lemma AtQueuedJob() returns (steps: seq<Step>)
    ensures Run(EMPTY, steps) == QueuedJob()
  {
    steps := AtReadBoth();
    steps := Then(steps, SettleMatch(1));
    DoQueuedJob();
  }

  function LateRowIn(): World { QueuedJob().(rfq := map["a" := false], late := {"a"}) }

  lemma DoLateRowIn()
    ensures Do(QueuedJob(), RfqInsert("a")) == LateRowIn()
  {
  }

  lemma AtLateRowIn() returns (steps: seq<Step>)
    ensures Run(EMPTY, steps) == LateRowIn()
  {
    steps := AtQueuedJob();
    steps := Then(steps, RfqInsert("a"));
    DoLateRowIn();
  }

  function LateOpened(): World { LateRowIn().(procs := LateRowIn().procs[2 := R(Settle("a", Found))], next := 3) }

  lemma DoLateOpened()
    ensures Do(LateRowIn(), SettleOpen("a")) == LateOpened()
  {
  }

  lemma AtLateOpened() returns (steps: seq<Step>)
    ensures Run(EMPTY, steps) == LateOpened()
  {
    steps := AtLateRowIn();
    steps := Then(steps, SettleOpen("a"));
    DoLateOpened();
  }

  function LatePassed(): World { LateRowIn().(procs := LateRowIn().procs[2 := R(Settle("a", Confirmed(false)))], next := 3) }

  lemma DoLatePassed()
    ensures Do(LateOpened(), SettleGate(2)) == LatePassed()
  {
  }

  lemma AtLatePassed() returns (steps: seq<Step>)
    ensures Run(EMPTY, steps) == LatePassed()
  {
    steps := AtLateOpened();
    steps := Then(steps, SettleGate(2));
    DoLatePassed();
  }

  function LateSettled(): World { LateRowIn().(next := 3, settlements := {RfqSettlement("a", false)}) }

  lemma DoLateSettled()
    ensures Do(LatePassed(), SettleInsert(2)) == LateSettled()
  {
    assert LatePassed().procs - {2} == LateRowIn().procs;
  }

  lemma AtLateSettled() returns (steps: seq<Step>)
    ensures Run(EMPTY, steps) == LateSettled()
  {
    steps := AtLatePassed();
    steps := Then(steps, SettleInsert(2));
    DoLateSettled();
  }

  /** An RFQ row that comes after the submission lets one intent have both a
      relayer job and an RFQ settlement. */
  lemma LateRowRace() returns (steps: seq<Step>)
    ensures SettledTwice(Run(EMPTY, steps), "a") && LateRow(steps, "a")
  {
    steps := AtLateSettled();
    LateTwice();
    Exclusion(steps, "a");
  }

  lemma LateTwice()
    ensures SettledTwice(LateSettled(), "a")
  {
    assert Touches(LateSettled().jobs[0].m, "a") && RfqSettlement("a", false) in LateSettled().settlements;
  }

  // ----- rows that are not there yet -----

  function MissedA(): World { Stored().(missed := {"a"}, procs := map[0 := P(Persist("B", [CROSSING], 2))]) }

  lemma DoMissedA()
    ensures Do(Stored(), PersistNext(0)) == MissedA()
  {
    assert UpdateId([CROSSING], 0) == "a";
  }

  lemma AtMissedA() returns (steps: seq<Step>)
    ensures Run(EMPTY, steps) == MissedA()
  {
    steps := AtStored();
    steps := Then(steps, PersistNext(0));
    DoMissedA();
  }

  function MissedB(): World { Stored().(missed := {"a", "b"}, procs := map[0 := P(Persist("B", [CROSSING], 3))]) }

  lemma DoMissedB()
    ensures Do(MissedA(), PersistNext(0)) == MissedB()
  {
    assert UpdateId([CROSSING], 1) == "b" && {"a"} + {"b"} == {"a", "b"};
  }

  lemma AtMissedB() returns (steps: seq<Step>)
    ensures Run(EMPTY, steps) == MissedB()
  {
    steps := AtMissedA();
    steps := Then(steps, PersistNext(0));
    DoMissedB();
  }

  function Finished(): World { Stored().(missed := {"a", "b"}, procs := map[], completed := {"B"}) }

  lemma DoFinished()
    ensures Do(MissedB(), PersistNext(0)) == Finished()
  {
  }

  lemma AtFinished() returns (steps: seq<Step>)
    ensures Run(EMPTY, steps) == Finished()
  {
    steps := AtMissedB();
    steps := Then(steps, PersistNext(0));
    DoFinished();
  }

  function RowAfter(): World { Finished().(mpc := map["a" := MpcRow(false, None)]) }

  lemma DoRowAfter()
    ensures Do(Finished(), MpcUpsert("a")) == RowAfter()
  {
  }

  lemma AtRowAfter() returns (steps: seq<Step>)
    ensures Run(EMPTY, steps) == RowAfter()
  {
    steps := AtFinished();
    steps := Then(steps, MpcUpsert("a"));
    DoRowAfter();
  }

  /** When the API writes its mpc_intents rows only after the batch has been
      persisted, the rows stay unmatched although persistence ran to its end. */
  lemma MissedRowRace() returns (steps: seq<Step>)
    ensures var w := Run(EMPTY, steps);
      AllCompleted(w) && SignedOnce(w.signed) && MatchedInBatch(w, "a") && "a" in w.mpc && !Matched(w.mpc, "a")
  {
    steps := AtRowAfter();
    MissedAfter();
  }

  lemma MissedAfter()
    ensures var w := RowAfter();
      AllCompleted(w) && SignedOnce(w.signed) && MatchedInBatch(w, "a") && "a" in w.mpc && !Matched(w.mpc, "a")
  {
    assert Touches(RowAfter().signed["B"][0], "a");
  }
}
