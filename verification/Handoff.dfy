/** The committee and the database together: a joint run interleaves protocol
    steps with database steps, and each protocol step that signs a batch hands it
    to persistence (server.ts, coordinator-server.ts). Its database history is a
    run of module Settlement, so everything proved there holds of it. */
module Handoff {
  import opened Wrappers
  import opened Session
  import Netting
  import Protocol
  import Settlement
  import SettlementSafety
  import SettlementExact
  import Rounds
  import Batches
  import RoundsExact

  // ----- what a protocol step appends to the log -----

  /** Some events were appended, at most the last of them a signed batch. */
  ghost predicate Appends(log: seq<Protocol.Event>, log': seq<Protocol.Event>) {
    && log <= log'
    && (forall i :: |log| <= i < |log'| - 1 ==> log'[i].Started?)
  }

  /** The batch the step from log to log' signed. */
  function NewBatch(log: seq<Protocol.Event>, log': seq<Protocol.Event>): Option<Batch> {
    if |log'| > |log| && log'[|log'| - 1].BatchSigned? then Some(log'[|log'| - 1].batch) else None
  }

  ghost predicate EventOk(e: Protocol.Event, heap: map<nat, Session>) {
    e.BatchSigned? ==> e.h in heap && heap[e.h].batch == Some(e.batch)
  }

  ghost predicate EventsOk(s: Protocol.Sys) {
    forall i :: 0 <= i < |s.log| ==> EventOk(s.log[i], s.heap)
  }

  /** What a step other than a submission does to log and intents. */
  ghost predicate RoundStep(s: Protocol.Sys, s': Protocol.Sys) {
    && Appends(s.log, s'.log)
    && (|s'.log| > |s.log| ==> EventOk(s'.log[|s'.log| - 1], s'.heap))
    && s'.submitted == s.submitted && s'.heap.Keys == s.heap.Keys
    && (forall h :: h in s.heap ==> s'.heap[h].intents == s.heap[h].intents)
  }

  /** An in-process round leaves the intents alone. */
  lemma LocalIntents(s: Session, cfg: Config, batchId: string)
    requires ValidConfig(cfg) && WellFormed(s)
    ensures LocalRound(s, cfg, batchId).intents == s.intents
  {
  }

  /** Replacing a session by v and logging v's batch. */
  lemma DoneRound(s: Protocol.Sys, s': Protocol.Sys, h: nat, v: Session, log: seq<Protocol.Event>)
    requires h in s.heap && v.intents == s.heap[h].intents && s'.heap == s.heap[h := v] && s'.submitted == s.submitted
    requires log == s.log || log == s.log + [Protocol.Started(h)]
    requires s'.log == Protocol.DoneLog(log, h, v)
    ensures RoundStep(s, s')
  {
  }

  lemma StartRound(s: Protocol.Sys, cfg: Config, h: nat, local: bool, batchId: string)
    requires ValidConfig(cfg)
    ensures RoundStep(s, Protocol.Start(s, cfg, h, local, batchId))
  {
    if h in s.heap && WellFormed(s.heap[h]) && |s.heap[h].intents| >= 2 && local {
      LocalIntents(s.heap[h], cfg, batchId);
      DoneRound(s, Protocol.Start(s, cfg, h, local, batchId), h, LocalRound(s.heap[h], cfg, batchId), s.log + [Protocol.Started(h)]);
    }
  }

  lemma TimersAside(s: Protocol.Sys, s': Protocol.Sys, timers: map<nat, seq<nat>>, next: nat)
    requires RoundStep(s, s')
    ensures RoundStep(s, s'.(timers := timers, nextTimer := next))
  {
  }

  lemma NoRound(s: Protocol.Sys)
    ensures RoundStep(s, s)
  {
  }

  lemma {:induction false} TimerRound(s: Protocol.Sys, cfg: Config, todo: seq<nat>, local: bool, batchId: string)
    requires ValidConfig(cfg)
    ensures RoundStep(s, Protocol.RunTimer(s, cfg, todo, local, batchId))
  {
    if todo == [] {
      NoRound(s);
    } else if todo[0] !in s.heap || |s.heap[todo[0]].intents| < 2 {
      TimerRound(s, cfg, todo[1..], local, batchId);
    } else {
      var s1 := Protocol.Start(s, cfg, todo[0], local, batchId);
      StartRound(s, cfg, todo[0], local, batchId);
      TimersAside(s, s1, s1.timers[s1.nextTimer := todo[1..]], s1.nextTimer + 1);
    }
  }

  /** Replacing a session by v, and no event. */
  lemma QuietRound(s: Protocol.Sys, s': Protocol.Sys, h: nat, v: Session)
    requires h in s.heap && v.intents == s.heap[h].intents && s'.heap == s.heap[h := v]
    requires s'.submitted == s.submitted && s'.log == s.log
    ensures RoundStep(s, s')
  {
  }

  lemma DecisionIntents(v: Session, cfg: Config, replies: seq<Option<Reply>>)
    requires ValidConfig(cfg) && WellFormed(v)
    ensures AfterDecrypt(v, cfg, replies).session.intents == v.intents
  {
  }

  lemma DecryptRound(s: Protocol.Sys, cfg: Config, task: nat, replies: seq<Option<Reply>>, batchId: string)
    requires ValidConfig(cfg)
    ensures RoundStep(s, Protocol.DoDecrypt(s, cfg, task, replies, batchId))
  {
    if task in s.tasks && s.tasks[task].AwaitDecrypt? && s.tasks[task].h in s.heap && WellFormed(s.heap[s.tasks[task].h]) {
      var h := s.tasks[task].h;
      DecisionIntents(s.heap[h], cfg, replies);
      QuietRound(s, Protocol.DoDecrypt(s, cfg, task, replies, batchId), h, AfterDecrypt(s.heap[h], cfg, replies).session);
    } else {
      NoRound(s);
    }
  }

  lemma SignRound(s: Protocol.Sys, cfg: Config, task: nat, sigs: seq<Option<Signature>>)
    ensures RoundStep(s, Protocol.DoSign(s, cfg, task, sigs))
  {
  }

  lemma StepRound(s: Protocol.Sys, cfg: Config, e: Protocol.Step)
    requires ValidConfig(cfg) && !e.SubmitIntent?
    ensures RoundStep(s, Protocol.Do(s, cfg, e))
  {
    match e {
      case Manual(name, local, batchId) =>
        if name in s.dir {
          StartRound(s, cfg, s.dir[name], local, batchId);
        }
      case Tick(local, batchId) => TimerRound(s, cfg, Protocol.OpenHandles(s, |s.dirOrder|), local, batchId);
      case Resume(timer, local, batchId) =>
        if timer in s.timers {
          TimerRound(s.(timers := s.timers - {timer}), cfg, s.timers[timer], local, batchId);
        }
      case DecryptReplies(task, replies, batchId) => DecryptRound(s, cfg, task, replies, batchId);
      case SignReplies(task, sigs) => SignRound(s, cfg, task, sigs);
    }
  }

  /** A submission. */
  lemma SubmitLog(s: Protocol.Sys, intent: MpcIntent, now: string)
    ensures var s' := Protocol.DoSubmit(s, intent, now); s'.log == s.log && s'.submitted == s.submitted + {intent.id}
  {
  }

  lemma StepLog(s: Protocol.Sys, cfg: Config, e: Protocol.Step)
    requires ValidConfig(cfg)
    ensures var s' := Protocol.Do(s, cfg, e);
      && Appends(s.log, s'.log) && s'.submitted == s.submitted + (if e.SubmitIntent? then {e.intent.id} else {})
      && (|s'.log| > |s.log| ==> EventOk(s'.log[|s'.log| - 1], s'.heap))
  {
    if e.SubmitIntent? {
      SubmitLog(s, e.intent, e.now);
    } else {
      StepRound(s, cfg, e);
    }
  }

  /** A logged batch is its session's for good. */
  lemma EventsCarry(s: Protocol.Sys, s': Protocol.Sys)
    requires Protocol.HeapOk(s) && Protocol.AllForward(s, s') && EventsOk(s) && Appends(s.log, s'.log)
    requires |s'.log| > |s.log| ==> EventOk(s'.log[|s'.log| - 1], s'.heap)
    ensures EventsOk(s')
  {
    forall i | 0 <= i < |s'.log| ensures EventOk(s'.log[i], s'.heap) {
      if i < |s.log| {
        EventStays(s, s', s.log[i]);
      }
    }
  }

  lemma EventStays(s: Protocol.Sys, s': Protocol.Sys, e: Protocol.Event)
    requires Protocol.HeapOk(s) && Protocol.AllForward(s, s') && EventOk(e, s.heap)
    ensures EventOk(e, s'.heap)
  {
    if e.BatchSigned? {
      assert Protocol.SessionOk(s.heap[e.h], s.submitted);
      assert Protocol.Forward(s.heap[e.h], s'.heap[e.h]);
    }
  }

  // ----- how a batch came to be signed -----

  /** The step signs batch b of session h: in process, with the step's batch id and
      every node's own signature; or after a remote round's second await, with the
      id and matches that were sent out and exactly the signatures that came back. */
  ghost predicate HowSigned(s: Protocol.Sys, cfg: Config, e: Protocol.Step, h: nat, b: Batch) {
    && h in s.heap && b.session == s.heap[h].name
    && (if e.SignReplies? then
          && e.task in s.tasks && s.tasks[e.task].AwaitSign? && s.tasks[e.task].h == h
          && b.id == s.tasks[e.task].batchId && b.matches == s.tasks[e.task].matches
          && RoundsExact.InOrder(b.sigs, e.sigs) && |b.sigs| >= Threshold(|cfg.nodes|)
        else (e.Manual? || e.Tick? || e.Resume?) && e.local && b.id == e.batchId && RoundsExact.AllOwn(cfg, b))
  }

  /** The same for a start of an in-process round. */
  ghost predicate StartSigned(s: Protocol.Sys, cfg: Config, local: bool, batchId: string, e: Protocol.Event) {
    e.BatchSigned? ==>
      && local && e.h in s.heap && e.batch.session == s.heap[e.h].name
      && e.batch.id == batchId && RoundsExact.AllOwn(cfg, e.batch)
  }

  /** The events a step adds. */
  function Added(log: seq<Protocol.Event>, log': seq<Protocol.Event>): seq<Protocol.Event>
    requires log <= log'
  {
    log'[|log|..]
  }

  lemma LocalBatch(v: Session, cfg: Config, batchId: string)
    requires ValidConfig(cfg) && WellFormed(v) && v.batch.None? && |v.intents| >= 2
    ensures var r := LocalRound(v, cfg, batchId);
      r.batch.Some? ==> r.batch.value.session == v.name && r.batch.value.id == batchId && RoundsExact.AllOwn(cfg, r.batch.value)
  {
    RoundsExact.LocalBatchExactly(v, cfg, batchId);
    var d := LocalDecision(v.(status := Matching), cfg);
    if d.matches.None? {
      LocalBatchKept(v.(status := Matching), cfg);
    }
  }

  lemma LocalBatchKept(m: Session, cfg: Config)
    requires ValidConfig(cfg) && WellFormed(m)
    ensures LocalDecision(m, cfg).session.batch == m.batch
  {
  }

  lemma StartHow(s: Protocol.Sys, cfg: Config, h: nat, local: bool, batchId: string)
    requires ValidConfig(cfg) && (h in s.heap && s.heap[h].status == Open ==> s.heap[h].batch.None?)
    requires h in s.heap ==> s.heap[h].status == Open
    ensures var s' := Protocol.Start(s, cfg, h, local, batchId);
      s.log <= s'.log && forall e :: e in Added(s.log, s'.log) ==> StartSigned(s, cfg, local, batchId, e)
  {
    if h in s.heap && WellFormed(s.heap[h]) && |s.heap[h].intents| >= 2 && local {
      LocalBatch(s.heap[h], cfg, batchId);
    }
  }

  lemma TimerHow(s: Protocol.Sys, cfg: Config, todo: seq<nat>, local: bool, batchId: string)
    requires ValidConfig(cfg) && Protocol.Inv(s) && |todo| <= 1
    requires todo != [] ==> todo[0] in s.heap && s.heap[todo[0]].status == Open
    ensures var s' := Protocol.RunTimer(s, cfg, todo, local, batchId);
      s.log <= s'.log && forall e :: e in Added(s.log, s'.log) ==> StartSigned(s, cfg, local, batchId, e)
  {
    if todo != [] {
      assert todo[1..] == [];
      assert Protocol.RunTimer(s, cfg, [], local, batchId) == s;
      Batches.OpenNoBatch(s, todo[0]);
      StartHow(s, cfg, todo[0], local, batchId);
    }
  }

  lemma SignHow(s: Protocol.Sys, cfg: Config, task: nat, sigs: seq<Option<Signature>>)
    requires Protocol.Inv(s)
    ensures var s' := Protocol.DoSign(s, cfg, task, sigs);
      s.log <= s'.log && forall e :: e in Added(s.log, s'.log) && e.BatchSigned?
                             ==> HowSigned(s, cfg, Protocol.SignReplies(task, sigs), e.h, e.batch)
  {
    if task in s.tasks && s.tasks[task].AwaitSign? {
      var t := s.tasks[task];
      assert Protocol.TaskOk(t, s.heap);
      assert Protocol.SessionOk(s.heap[t.h], s.submitted);
      AnswersBatch(s.heap[t.h], cfg, sigs, t.batchId, t.matches);
    }
  }

  lemma AnswersBatch(v: Session, cfg: Config, sigs: seq<Option<Signature>>, batchId: string, ms: seq<Netting.Match>)
    requires v.batch.None?
    ensures var v' := AfterSign(v, cfg, sigs, batchId, ms);
      if v'.batch.None? then v' == v.(status := Failed)
      else
        && v'.status == Signed
        && var b := v'.batch.value;
          && b.session == v.name && b.id == batchId && b.matches == ms
          && RoundsExact.InOrder(b.sigs, sigs) && |b.sigs| >= Threshold(|cfg.nodes|)
  {
    var pos := RoundsExact.CollectInOrder(sigs);
    Rounds.CollectCount(sigs);
  }

  /** Every batch a step logs was signed as that step says. */
  lemma StepHow(s: Protocol.Sys, cfg: Config, e: Protocol.Step)
    requires ValidConfig(cfg) && Protocol.Inv(s)
    ensures var s' := Protocol.Do(s, cfg, e);
      s.log <= s'.log && forall x :: x in Added(s.log, s'.log) && x.BatchSigned? ==> HowSigned(s, cfg, e, x.h, x.batch)
  {
    StepLog(s, cfg, e);
    match e {
      case SubmitIntent(intent, now) => SubmitLog(s, intent, now);
      case Manual(name, local, batchId) =>
        if name in s.dir && s.heap[s.dir[name]].status == Open {
          Batches.OpenNoBatch(s, s.dir[name]);
          StartHow(s, cfg, s.dir[name], local, batchId);
        }
      case Tick(local, batchId) =>
        Protocol.Snapshot(s);
        TimerHow(s, cfg, Protocol.OpenHandles(s, |s.dirOrder|), local, batchId);
      case Resume(timer, local, batchId) =>
        if timer in s.timers {
          TimerHow(s.(timers := s.timers - {timer}), cfg, s.timers[timer], local, batchId);
        }
      case DecryptReplies(task, replies, batchId) => DecryptLog(s, cfg, task, replies, batchId);
      case SignReplies(task, sigs) => SignHow(s, cfg, task, sigs);
    }
  }

  lemma DecryptLog(s: Protocol.Sys, cfg: Config, task: nat, replies: seq<Option<Reply>>, batchId: string)
    requires ValidConfig(cfg)
    ensures Protocol.DoDecrypt(s, cfg, task, replies, batchId).log == s.log
  {
  }

  /** Every batch in the log of a run was signed by one of its steps. */
  lemma {:induction false} BatchOrigin(cfg: Config, steps: seq<Protocol.Step>, i: nat) returns (k: nat)
    requires ValidConfig(cfg)
    requires var log := Protocol.Run(Protocol.INIT, cfg, steps).log; i < |log| && log[i].BatchSigned?
    ensures var x := Protocol.Run(Protocol.INIT, cfg, steps).log[i];
      k < |steps| && HowSigned(Protocol.Run(Protocol.INIT, cfg, steps[..k]), cfg, steps[k], x.h, x.batch)
  {
    var n := |steps| - 1;
    var before := Protocol.Run(Protocol.INIT, cfg, steps[..n]);
    Protocol.Reachable(cfg, steps[..n]);
    StepHow(before, cfg, steps[n]);
    if i < |before.log| {
      k := BatchOrigin(cfg, steps[..n], i);
      assert steps[..n][..k] == steps[..k];
    } else {
      k := n;
      var log := Protocol.Run(Protocol.INIT, cfg, steps).log;
      assert Added(before.log, log)[i - |before.log|] == log[i];
    }
  }

  // ----- each intent in one session -----

  /** No intent id is submitted twice. */
  ghost predicate SubmittedOnce(steps: seq<Protocol.Step>) {
    forall i, j :: 0 <= i < j < |steps| && steps[i].SubmitIntent? && steps[j].SubmitIntent? ==> steps[i].intent.id != steps[j].intent.id
  }

  ghost predicate SubmittedIn(steps: seq<Protocol.Step>, id: string) {
    exists i :: 0 <= i < |steps| && steps[i].SubmitIntent? && steps[i].intent.id == id
  }

  ghost predicate DisjointSessions(heap: map<nat, Session>) {
    forall h, g, x :: h in heap && g in heap && x in heap[h].intents && x in heap[g].intents ==> h == g
  }

  lemma DisjointAdd(heap: map<nat, Session>, h: nat, v: Session, id: string)
    requires DisjointSessions(heap) && forall g :: g in heap ==> id !in heap[g].intents
    requires v.intents.Keys == (if h in heap then heap[h].intents.Keys else {}) + {id}
    ensures DisjointSessions(heap[h := v])
  {
    forall x ensures x in v.intents <==> (h in heap && x in heap[h].intents) || x == id {
      assert x in v.intents.Keys <==> x in v.intents;
    }
  }

  lemma SubmitDisjoint(s: Protocol.Sys, intent: MpcIntent, now: string)
    requires Protocol.HeapOk(s) && DisjointSessions(s.heap) && intent.id !in s.submitted
    ensures DisjointSessions(Protocol.DoSubmit(s, intent, now).heap)
  {
    forall h | h in s.heap ensures intent.id !in s.heap[h].intents {
      assert Protocol.SessionOk(s.heap[h], s.submitted);
    }
    var open := Protocol.OpenHandles(s, |s.dirOrder|);
    if open == [] {
      DisjointAdd(s.heap, s.next, Submit(EmptySession("session-" + now), intent), intent.id);
    } else if open[0] in s.heap {
      DisjointAdd(s.heap, open[0], Submit(s.heap[open[0]], intent), intent.id);
    }
  }

  lemma StepDisjoint(s: Protocol.Sys, cfg: Config, e: Protocol.Step)
    requires ValidConfig(cfg) && Protocol.Inv(s) && DisjointSessions(s.heap)
    requires e.SubmitIntent? ==> e.intent.id !in s.submitted
    ensures DisjointSessions(Protocol.Do(s, cfg, e).heap)
  {
    if e.SubmitIntent? {
      SubmitDisjoint(s, e.intent, e.now);
    } else {
      StepRound(s, cfg, e);
    }
  }

  // ----- joint runs -----

  datatype Step = Committee(e: Protocol.Step) | Database(d: Settlement.Step)

  /** The committee's state, its steps so far, and the database's. */
  datatype Joint = Joint(sys: Protocol.Sys, done: seq<Protocol.Step>, trace: seq<Settlement.Step>)

  const START := Joint(Protocol.INIT, [], [])

  ghost function World(j: Joint): Settlement.World { Settlement.Run(Settlement.EMPTY, j.trace) }

  /** A submission reaches the committee; a signed batch goes to persistence. */
  function Submits(e: Protocol.Step): seq<Settlement.Step> {
    if e.SubmitIntent? then [Settlement.SubmitToCommittee(e.intent.id)] else []
  }

  function Signs(b: Option<Batch>): seq<Settlement.Step> {
    if b.Some? then [Settlement.SignBatch(b.value.id, b.value.matches)] else []
  }

  /** Submitting and signing happen in the committee only. */
  ghost function Do(j: Joint, cfg: Config, e: Step): Joint
    requires ValidConfig(cfg)
  {
    match e
    case Committee(p) =>
      var sys := Protocol.Do(j.sys, cfg, p);
      Joint(sys, j.done + [p], j.trace + Submits(p) + Signs(NewBatch(j.sys.log, sys.log)))
    case Database(d) =>
      if d.SubmitToCommittee? || d.SignBatch? then j else j.(trace := j.trace + [d])
  }

  ghost function Run(cfg: Config, steps: seq<Step>): Joint
    requires ValidConfig(cfg)
  {
    if steps == [] then START else Do(Run(cfg, steps[..|steps| - 1]), cfg, steps[|steps| - 1])
  }

  /** Batch ids are never drawn twice. */
  ghost predicate FreshBatchIds(log: seq<Protocol.Event>) {
    forall i, j :: 0 <= i < j < |log| && log[i].BatchSigned? && log[j].BatchSigned? ==> log[i].batch.id != log[j].batch.id
  }

  /** The database's batches are the committee's: signed holds exactly the logged
      batches, matches and all. */
  ghost predicate SameBatches(log: seq<Protocol.Event>, signed: map<string, seq<Netting.Match>>) {
    && (forall i :: 0 <= i < |log| && log[i].BatchSigned? ==> log[i].batch.id in signed && signed[log[i].batch.id] == log[i].batch.matches)
    && (forall b :: b in signed ==> Logged(log, b))
  }

  ghost predicate Logged(log: seq<Protocol.Event>, b: string) {
    exists i :: 0 <= i < |log| && log[i].BatchSigned? && log[i].batch.id == b
  }

  ghost predicate JointOk(j: Joint, cfg: Config)
    requires ValidConfig(cfg)
  {
    && j.sys == Protocol.Run(Protocol.INIT, cfg, j.done)
    && EventsOk(j.sys)
    && World(j).submitted == j.sys.submitted
    && SameBatches(j.sys.log, World(j).signed)
  }

  /** The committee's matches are what the database side expects. */
  lemma SoundBatch(ms: seq<Netting.Match>, s: Session, ids: set<string>)
    requires Protocol.SoundMatches(ms, s) && s.intents.Keys <= ids
    ensures Settlement.Sound(ms, ids)
  {
    forall i, j, x | 0 <= i < |ms| && 0 <= j < |ms| && Settlement.Touches(ms[i], x) && Settlement.Touches(ms[j], x) ensures i == j {
      assert x in {ms[i].aId, ms[i].bId} && x in {ms[j].aId, ms[j].bId};
    }
  }

  // effects on the database

  lemma OtherStep(w: Settlement.World, d: Settlement.Step)
    requires !d.SubmitToCommittee? && !d.SignBatch?
    ensures Settlement.Do(w, d).submitted == w.submitted && Settlement.Do(w, d).signed == w.signed
  {
    if d.PersistNext? || d.ReadSide? || d.SettleMatch? || d.MarkBatch? || d.SettleGate? || d.SettleConfirm? || d.SettleInsert? {
      SettlementExact.StepStepped(w, d, d.p);
    }
  }

  lemma SubmitsStep(trace: seq<Settlement.Step>, e: Protocol.Step)
    ensures var w, w' := Settlement.Run(Settlement.EMPTY, trace), Settlement.Run(Settlement.EMPTY, trace + Submits(e));
      w'.signed == w.signed && w'.submitted == w.submitted + (if e.SubmitIntent? then {e.intent.id} else {})
  {
    if e.SubmitIntent? {
      SettlementSafety.RunSnoc(trace, Settlement.SubmitToCommittee(e.intent.id));
    } else {
      assert trace + [] == trace;
    }
  }

  lemma SignsStep(trace: seq<Settlement.Step>, b: Option<Batch>)
    requires var w := Settlement.Run(Settlement.EMPTY, trace);
      b.Some? ==> b.value.id !in w.signed && Settlement.Sound(b.value.matches, w.submitted)
    ensures var w, w' := Settlement.Run(Settlement.EMPTY, trace), Settlement.Run(Settlement.EMPTY, trace + Signs(b));
      w'.submitted == w.submitted && w'.signed == (if b.Some? then w.signed[b.value.id := b.value.matches] else w.signed)
  {
    if b.Some? {
      SettlementSafety.RunSnoc(trace, Settlement.SignBatch(b.value.id, b.value.matches));
    } else {
      assert trace + [] == trace;
    }
  }

  /** Recording the batch of the last event keeps log and database in step. */
  lemma BatchesStep(log: seq<Protocol.Event>, log': seq<Protocol.Event>, signed: map<string, seq<Netting.Match>>)
    requires SameBatches(log, signed) && Appends(log, log') && FreshBatchIds(log')
    ensures var b := NewBatch(log, log');
      && (b.Some? ==> b.value.id !in signed)
      && SameBatches(log', if b.Some? then signed[b.value.id := b.value.matches] else signed)
  {
    var b := NewBatch(log, log');
    var signed' := if b.Some? then signed[b.value.id := b.value.matches] else signed;
    forall c | c in signed' ensures Logged(log', c) {
      if c in signed {
        var i :| 0 <= i < |log| && log[i].BatchSigned? && log[i].batch.id == c;
        assert log'[i] == log[i];
      } else {
        assert log'[|log'| - 1].batch.id == c;
      }
    }
  }

  lemma FreshPrefix(log: seq<Protocol.Event>, log': seq<Protocol.Event>)
    requires log <= log' && FreshBatchIds(log')
    ensures FreshBatchIds(log)
  {
    forall i, j | 0 <= i < j < |log| && log[i].BatchSigned? && log[j].BatchSigned? ensures log[i].batch.id != log[j].batch.id {
      assert log'[i] == log[i] && log'[j] == log[j];
    }
  }

  lemma CommitteeStep(j: Joint, cfg: Config, e: Protocol.Step)
    requires ValidConfig(cfg) && JointOk(j, cfg) && FreshBatchIds(Protocol.Do(j.sys, cfg, e).log)
    ensures JointOk(Do(j, cfg, Committee(e)), cfg)
  {
    var sys, done := Protocol.Do(j.sys, cfg, e), j.done + [e];
    assert done[..|j.done|] == j.done;
    assert sys == Protocol.Run(Protocol.INIT, cfg, done);
    Protocol.Reachable(cfg, j.done);
    Protocol.Reachable(cfg, done);
    StepLog(j.sys, cfg, e);
    Protocol.StepKeeps(j.sys, cfg, e);
    EventsCarry(j.sys, sys);
    SubmitsStep(j.trace, e);
    var b := NewBatch(j.sys.log, sys.log);
    BatchesStep(j.sys.log, sys.log, World(j).signed);
    if b.Some? {
      NewBatchSound(sys, b.value);
    }
    SignsStep(j.trace + Submits(e), b);
  }

  lemma NewBatchSound(s: Protocol.Sys, b: Batch)
    requires Protocol.Inv(s) && |s.log| > 0 && s.log[|s.log| - 1].BatchSigned? && s.log[|s.log| - 1].batch == b
    requires EventOk(s.log[|s.log| - 1], s.heap)
    ensures Settlement.Sound(b.matches, s.submitted)
  {
    var h := s.log[|s.log| - 1].h;
    assert Protocol.SessionOk(s.heap[h], s.submitted);
    SoundBatch(b.matches, s.heap[h], s.submitted);
  }

  lemma DatabaseStep(j: Joint, cfg: Config, d: Settlement.Step)
    requires ValidConfig(cfg) && JointOk(j, cfg)
    ensures JointOk(Do(j, cfg, Database(d)), cfg)
  {
    if !d.SubmitToCommittee? && !d.SignBatch? {
      SettlementSafety.RunSnoc(j.trace, d);
      OtherStep(World(j), d);
    }
  }

  /** Every joint run: the committee's half is a protocol run, the database's a
      settlement run over the same submissions, and the batches in its hands are
      exactly those the committee signed. */
  lemma {:induction false} HandoffFaithful(cfg: Config, steps: seq<Step>)
    requires ValidConfig(cfg) && FreshBatchIds(Run(cfg, steps).sys.log)
    ensures JointOk(Run(cfg, steps), cfg)
  {
    if steps != [] {
      var before := Run(cfg, steps[..|steps| - 1]);
      match steps[|steps| - 1] {
        case Committee(e) =>
          StepLog(before.sys, cfg, e);
          FreshPrefix(before.sys.log, Run(cfg, steps).sys.log);
          HandoffFaithful(cfg, steps[..|steps| - 1]);
          CommitteeStep(before, cfg, e);
        case Database(d) =>
          HandoffFaithful(cfg, steps[..|steps| - 1]);
          DatabaseStep(before, cfg, d);
      }
    }
  }

  // ----- end to end -----

  lemma {:induction false} SubmittedSet(cfg: Config, steps: seq<Protocol.Step>, id: string)
    requires ValidConfig(cfg)
    ensures id in Protocol.Run(Protocol.INIT, cfg, steps).submitted <==> SubmittedIn(steps, id)
  {
    if steps != [] {
      var before, e := steps[..|steps| - 1], steps[|steps| - 1];
      SubmittedSet(cfg, before, id);
      StepLog(Protocol.Run(Protocol.INIT, cfg, before), cfg, e);
      SubmittedSnoc(before, e, id);
      assert steps == before + [e];
    }
  }

  lemma SubmittedSnoc(steps: seq<Protocol.Step>, e: Protocol.Step, id: string)
    ensures SubmittedIn(steps + [e], id) <==> SubmittedIn(steps, id) || (e.SubmitIntent? && e.intent.id == id)
  {
    var more := steps + [e];
    if SubmittedIn(steps, id) {
      var i :| 0 <= i < |steps| && steps[i].SubmitIntent? && steps[i].intent.id == id;
      assert more[i] == steps[i];
    } else if e.SubmitIntent? && e.intent.id == id {
      assert more[|steps|] == e;
    }
  }

  /** With every id submitted once, no intent is ever in two sessions. */
  lemma {:induction false} OneSessionEach(cfg: Config, steps: seq<Protocol.Step>)
    requires ValidConfig(cfg) && SubmittedOnce(steps)
    ensures DisjointSessions(Protocol.Run(Protocol.INIT, cfg, steps).heap)
  {
    if steps != [] {
      var n := |steps| - 1;
      var before, e := steps[..n], steps[n];
      assert forall i :: 0 <= i < n ==> steps[i] == before[i];
      OneSessionEach(cfg, before);
      Protocol.Reachable(cfg, before);
      if e.SubmitIntent? {
        SubmittedSet(cfg, before, e.intent.id);
      }
      StepDisjoint(Protocol.Run(Protocol.INIT, cfg, before), cfg, e);
    }
  }

  /** Session h signed the batch b, which matches x. */
  ghost predicate SignedBy(s: Protocol.Sys, h: nat, b: string, x: string) {
    && h in s.heap && s.heap[h].status == Signed && s.heap[h].batch.Some? && s.heap[h].batch.value.id == b
    && x in s.heap[h].intents
    && exists i :: 0 <= i < |s.heap[h].batch.value.matches| && Settlement.Touches(s.heap[h].batch.value.matches[i], x)
  }

  /** Back from a signed batch in the database to its session. */
  lemma BatchSession(j: Joint, cfg: Config, b: string, i: nat, x: string) returns (h: nat)
    requires ValidConfig(cfg) && JointOk(j, cfg) && b in World(j).signed
    requires i < |World(j).signed[b]| && Settlement.Touches(World(j).signed[b][i], x)
    ensures SignedBy(j.sys, h, b, x)
  {
    Protocol.Reachable(cfg, j.done);
    assert Logged(j.sys.log, b);
    var k :| 0 <= k < |j.sys.log| && j.sys.log[k].BatchSigned? && j.sys.log[k].batch.id == b;
    h := j.sys.log[k].h;
    assert EventOk(j.sys.log[k], j.sys.heap);
    SessionMatches(j.sys, h, i, x);
  }

  lemma SessionMatches(s: Protocol.Sys, h: nat, i: nat, x: string)
    requires Protocol.HeapOk(s) && h in s.heap && s.heap[h].batch.Some? && i < |s.heap[h].batch.value.matches|
    requires Settlement.Touches(s.heap[h].batch.value.matches[i], x)
    ensures SignedBy(s, h, s.heap[h].batch.value.id, x)
  {
    assert Protocol.SessionOk(s.heap[h], s.submitted);
  }

  /** With every id submitted once, no intent is in two signed batches. */
  lemma SignedOnceFollows(j: Joint, cfg: Config)
    requires ValidConfig(cfg) && JointOk(j, cfg) && SubmittedOnce(j.done)
    ensures SettlementSafety.SignedOnce(World(j).signed)
  {
    OneSessionEach(cfg, j.done);
    var signed := World(j).signed;
    forall b, c, i: nat, k: nat, x |
      (b in signed && c in signed && i < |signed[b]| && k < |signed[c]|
       && Settlement.Touches(signed[b][i], x) && Settlement.Touches(signed[c][k], x))
      ensures b == c
    {
      var h := BatchSession(j, cfg, b, i, x);
      var g := BatchSession(j, cfg, c, k, x);
    }
  }

  /** A recorded RFQ settlement goes back to a session of the committee that
      holds the intent and signed a match with it. */
  lemma SettlementBacked(cfg: Config, steps: seq<Step>, s: Settlement.RfqSettlement) returns (h: nat, b: string)
    requires ValidConfig(cfg) && FreshBatchIds(Run(cfg, steps).sys.log)
    requires var j := Run(cfg, steps); s in World(j).settlements && !SettlementSafety.EarlyGate(j.trace, s.id)
    ensures SignedBy(Run(cfg, steps).sys, h, b, s.id) && b in World(Run(cfg, steps)).batches
  {
    var j := Run(cfg, steps);
    HandoffFaithful(cfg, steps);
    SettlementSafety.SettledImpliesMatched(j.trace, s);
    var w := World(j);
    var i;
    b, i :| b in w.batches && b in w.signed && w.batches[b].matches == w.signed[b]
            && 0 <= i < |w.signed[b]| && Settlement.Touches(w.signed[b][i], s.id);
    h := BatchSession(j, cfg, b, i, s.id);
  }

  /** So does a relayer job, with both of its intents in one session. */
  lemma JobBacked(cfg: Config, steps: seq<Step>, k: nat) returns (h: nat)
    requires ValidConfig(cfg) && FreshBatchIds(Run(cfg, steps).sys.log) && k < |World(Run(cfg, steps)).jobs|
    ensures var j := Run(cfg, steps); var job := World(j).jobs[k];
      && SignedBy(j.sys, h, job.key.batchId, job.m.aId) && SignedBy(j.sys, h, job.key.batchId, job.m.bId)
      && job.key.index < |j.sys.heap[h].batch.value.matches| && job.m == j.sys.heap[h].batch.value.matches[job.key.index]
  {
    var j := Run(cfg, steps);
    HandoffFaithful(cfg, steps);
    SettlementSafety.AtMostOnce(j.trace, k, k);
    Settlement.Reachable(j.trace);
    Protocol.Reachable(cfg, j.done);
    var job := World(j).jobs[k];
    assert World(j).batches[job.key.batchId].matches == World(j).signed[job.key.batchId];
    h := LoggedSession(j, cfg, job.key.batchId);
    SessionMatches(j.sys, h, job.key.index, job.m.aId);
    SessionMatches(j.sys, h, job.key.index, job.m.bId);
  }

  /** In an honest joint run a relayer job nets the amounts its two intents were
      dealt with, at opposite assets. */
  lemma JobNetsDealt(cfg: Config, secrets: Rounds.Secrets, steps: seq<Step>, k: nat) returns (h: nat)
    requires Batches.HonestParams(cfg) && FreshBatchIds(Run(cfg, steps).sys.log) && k < |World(Run(cfg, steps)).jobs|
    requires forall i :: 0 <= i < |Run(cfg, steps).done| ==> Batches.HonestStep(cfg, secrets, Run(cfg, steps).done[i])
    ensures var j := Run(cfg, steps); h in j.sys.heap && Batches.NetsDealt(World(j).jobs[k].m, j.sys.heap[h], secrets, cfg.p)
  {
    var j := Run(cfg, steps);
    h := JobBacked(cfg, steps, k);
    HandoffFaithful(cfg, steps);
    Batches.SignedAsDealt(cfg, secrets, j.done, h);
  }

  /** And, when every endpoint is asked, it stands in a batch signed by two thirds
      of them. */
  lemma JobSignedByQuorum(cfg: Config, steps: seq<Step>, k: nat) returns (h: nat)
    requires ValidConfig(cfg) && Rounds.DistinctNodes(cfg)
    requires FreshBatchIds(Run(cfg, steps).sys.log) && k < |World(Run(cfg, steps)).jobs|
    requires forall i :: 0 <= i < |Run(cfg, steps).done| ==> Batches.ProperSignStep(cfg, Run(cfg, steps).done[i])
    ensures var j := Run(cfg, steps); var job := World(j).jobs[k];
      && SignedBy(j.sys, h, job.key.batchId, job.m.aId)
      && Batches.QuorumNames(Batches.SignerNames(j.sys.heap[h].batch.value.sigs), cfg)
  {
    var j := Run(cfg, steps);
    h := JobBacked(cfg, steps, k);
    HandoffFaithful(cfg, steps);
    Batches.SignedByQuorums(cfg, j.done);
    assert Batches.BatchQuorum(cfg, j.sys.heap[h]);
  }

  lemma LoggedSession(j: Joint, cfg: Config, b: string) returns (h: nat)
    requires ValidConfig(cfg) && JointOk(j, cfg) && b in World(j).signed
    ensures h in j.sys.heap && j.sys.heap[h].batch.Some?
    ensures j.sys.heap[h].batch.value.id == b && j.sys.heap[h].batch.value.matches == World(j).signed[b]
  {
    assert Logged(j.sys.log, b);
    var k :| 0 <= k < |j.sys.log| && j.sys.log[k].BatchSigned? && j.sys.log[k].batch.id == b;
    h := j.sys.log[k].h;
    assert EventOk(j.sys.log[k], j.sys.heap);
  }

  /** Every id submitted once, and every persistence run to its end: the matched
      rows are exactly those of the intents in the committee's persisted batches
      whose row existed when its update ran, nobody is matched with himself, and
      partners name each other. */
  lemma EveryoneHasPartner(cfg: Config, steps: seq<Step>, id: string)
    requires ValidConfig(cfg) && FreshBatchIds(Run(cfg, steps).sys.log) && SubmittedOnce(Run(cfg, steps).done)
    requires SettlementSafety.AllCompleted(World(Run(cfg, steps)))
    ensures var j := Run(cfg, steps);
      Settlement.Matched(World(j).mpc, id)
      <==> SettlementSafety.MatchedInBatch(World(j), id) && !SettlementExact.MissedUpdate(j.trace, id)
    ensures var j := Run(cfg, steps); var mpc := World(j).mpc;
      Settlement.Matched(mpc, id) ==>
        && mpc[id].matchedWith.Some? && mpc[id].matchedWith.value != id
        && var y := mpc[id].matchedWith.value;
           if SettlementExact.MissedUpdate(j.trace, y) then !Settlement.Matched(mpc, y)
           else Settlement.Matched(mpc, y) && mpc[y].matchedWith == Some(id)
  {
    var j := Run(cfg, steps);
    HandoffFaithful(cfg, steps);
    SignedOnceFollows(j, cfg);
    SettlementExact.MatchedInvolution(j.trace, id);
  }
}
