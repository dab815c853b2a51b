/** The committee gets things done: what a submission, a trigger and the answers
    of a round do to the session they are for. */
module ProtocolProgress {
  import opened Wrappers
  import opened Session
  import opened Protocol
  import opened Rounds
  import RoundsExact

  ghost predicate Ready(s: Sys, h: nat) {
    h in s.heap && s.heap[h].status == Open && |s.heap[h].intents| >= 2
  }

  // ----- submissions -----

  /** The open session is what the listing finds. */
  lemma OpenIsListedAlone(s: Sys, h: nat)
    requires Inv(s) && h in s.heap && s.heap[h].status == Open
    ensures OpenHandles(s, |s.dirOrder|) == [h]
  {
    Snapshot(s);
  }

  lemma NoneListed(s: Sys)
    requires Inv(s) && forall h :: h in s.heap ==> s.heap[h].status != Open
    ensures OpenHandles(s, |s.dirOrder|) == []
  {
    Snapshot(s);
  }

  /** An intent enters the open session. */
  lemma SubmitLands(s: Sys, intent: MpcIntent, now: string, h: nat)
    requires Inv(s) && h in s.heap && s.heap[h].status == Open
    ensures DoSubmit(s, intent, now) == s.(heap := s.heap[h := Submit(s.heap[h], intent)], submitted := s.submitted + {intent.id})
  {
    OpenIsListedAlone(s, h);
  }

  /** Without one it opens a session, named by the clock, which the directory has
      from then on. */
  lemma SubmitOpens(s: Sys, intent: MpcIntent, now: string)
    requires Inv(s) && forall h :: h in s.heap ==> s.heap[h].status != Open
    ensures var s', name := DoSubmit(s, intent, now), "session-" + now;
      && s'.heap == s.heap[s.next := Submit(EmptySession(name), intent)] && s'.next == s.next + 1
      && s'.dir == s.dir[name := s.next] && s'.submitted == s.submitted + {intent.id}
      && s'.tasks == s.tasks && s'.timers == s.timers && s'.log == s.log && s'.threw == s.threw
  {
    NoneListed(s);
  }

  // ----- triggers -----

  /** s' is s with a round started on h. */
  ghost predicate Started(s: Sys, s': Sys, cfg: Config, h: nat, local: bool, batchId: string)
    requires ValidConfig(cfg) && Ready(s, h) && WellFormed(s.heap[h])
  {
    && s'.dir == s.dir && s'.dirOrder == s.dirOrder && s'.next == s.next && s'.submitted == s.submitted
    && (if local then
          && s'.heap == s.heap[h := LocalRound(s.heap[h], cfg, batchId)] && s'.tasks == s.tasks
          && s'.log == DoneLog(s.log + [Protocol.Started(h)], h, LocalRound(s.heap[h], cfg, batchId))
        else
          && s'.heap == s.heap[h := s.heap[h].(status := Matching)]
          && s'.tasks == s.tasks[s.nextTask := AwaitDecrypt(h, s.heap[h].order)] && s'.nextTask == s.nextTask + 1
          && s'.log == s.log + [Protocol.Started(h)])
  }

  lemma StartRuns(s: Sys, cfg: Config, h: nat, local: bool, batchId: string)
    requires ValidConfig(cfg) && Ready(s, h) && WellFormed(s.heap[h])
    ensures Started(s, Start(s, cfg, h, local, batchId), cfg, h, local, batchId)
  {
  }

  lemma ReadyWellFormed(s: Sys, h: nat)
    requires Inv(s) && Ready(s, h)
    ensures WellFormed(s.heap[h]) && s.heap[h].name in s.dir && s.dir[s.heap[h].name] == h
  {
    assert SessionOk(s.heap[h], s.submitted);
  }

  /** The manual trigger starts a round on the open session it names. */
  lemma ManualRuns(s: Sys, cfg: Config, h: nat, local: bool, batchId: string)
    requires ValidConfig(cfg) && Inv(s) && Ready(s, h)
    ensures WellFormed(s.heap[h])
    ensures Started(s, Do(s, cfg, Manual(s.heap[h].name, local, batchId)), cfg, h, local, batchId)
  {
    ReadyWellFormed(s, h);
    StartRuns(s, cfg, h, local, batchId);
  }

  /** On any other session, or an unknown name, it does nothing. */
  lemma ManualIdle(s: Sys, cfg: Config, name: string, local: bool, batchId: string)
    requires ValidConfig(cfg) && (name in s.dir ==> !Ready(s, s.dir[name]))
    ensures Do(s, cfg, Manual(name, local, batchId)) == s
  {
  }

  /** A timer tick starts a round on the open session, if it has two intents. */
  lemma TickRuns(s: Sys, cfg: Config, h: nat, local: bool, batchId: string)
    requires ValidConfig(cfg) && Inv(s) && Ready(s, h)
    ensures WellFormed(s.heap[h])
    ensures Started(s, Do(s, cfg, Tick(local, batchId)), cfg, h, local, batchId)
  {
    ReadyWellFormed(s, h);
    OpenIsListedAlone(s, h);
    StartRuns(s, cfg, h, local, batchId);
  }

  /** And otherwise does nothing. */
  lemma TickIdle(s: Sys, cfg: Config, local: bool, batchId: string)
    requires ValidConfig(cfg) && Inv(s) && forall h :: !Ready(s, h)
    ensures Do(s, cfg, Tick(local, batchId)) == s
  {
    Snapshot(s);
    var open := OpenHandles(s, |s.dirOrder|);
    if open != [] {
      assert open[1..] == [];
      assert !Ready(s, open[0]);
      assert RunTimer(s, cfg, [], local, batchId) == s;
    }
  }

  // ----- a whole remote round -----

  /** The answers of a waiting round: the session becomes what they decide; with
      matches the round waits for signatures on exactly these, under the drawn id,
      and otherwise it is over. */
  lemma AnswersDecide(s: Sys, cfg: Config, task: nat, replies: seq<Option<Reply>>, batchId: string)
    requires ValidConfig(cfg) && Inv(s) && task in s.tasks && s.tasks[task].AwaitDecrypt?
    ensures s.tasks[task].h in s.heap && WellFormed(s.heap[s.tasks[task].h])
    ensures var h := s.tasks[task].h;
            var d, s' := AfterDecrypt(s.heap[h], cfg, replies), Do(s, cfg, DecryptReplies(task, replies, batchId));
      && s'.heap == s.heap[h := d.session] && s'.log == s.log
      && (h in s'.threw <==> h in s.threw || d.threw)
      && s'.tasks == (if d.matches.Some? then s.tasks[task := AwaitSign(h, batchId, d.matches.value)] else s.tasks - {task})
  {
    assert TaskOk(s.tasks[task], s.heap);
    assert SessionOk(s.heap[s.tasks[task].h], s.submitted);
  }

  /** The signatures of a waiting round end it, and a signed batch is logged. */
  lemma SignaturesEnd(s: Sys, cfg: Config, task: nat, sigs: seq<Option<Signature>>)
    requires ValidConfig(cfg) && Inv(s) && task in s.tasks && s.tasks[task].AwaitSign?
    ensures s.tasks[task].h in s.heap
    ensures var t := s.tasks[task];
            var v, s' := AfterSign(s.heap[t.h], cfg, sigs, t.batchId, t.matches), Do(s, cfg, SignReplies(task, sigs));
      && s'.heap == s.heap[t.h := v] && s'.tasks == s.tasks - {task}
      && s'.log == s.log + (if v.status.Signed? && v.batch.Some? then [BatchSigned(t.h, v.batch.value)] else [])
  {
    assert TaskOk(s.tasks[task], s.heap);
  }

  lemma RunThree(s: Sys, cfg: Config, a: Step, b: Step, c: Step)
    requires ValidConfig(cfg)
    ensures Run(s, cfg, [a, b, c]) == Do(Do(Do(s, cfg, a), cfg, b), cfg, c)
  {
    assert [a, b, c][..2] == [a, b] && [a, b][..1] == [a] && [a][..0] == [];
    assert Run(s, cfg, []) == s;
    assert Run(s, cfg, [a]) == Do(s, cfg, a);
    assert Run(s, cfg, [a, b]) == Do(Do(s, cfg, a), cfg, b);
  }

  lemma MarkedServes(v: Session, cfg: Config, replies: seq<Option<Reply>>, i: nat)
    requires Serves(v, cfg, replies, i)
    ensures Serves(v.(status := Matching), cfg, replies, i)
  {
  }

  /** A round of a reachable state runs through: started by trigger or timer, served
      by a quorum with texts that can be decoded and signed by a quorum, the session
      ends signed, its batch is logged, and it holds the id, the session's name and
      exactly the signatures that came back. */
  lemma RoundCompletes(s: Sys, cfg: Config, h: nat, trigger: Step, replies: seq<Option<Reply>>, q: set<nat>,
                       sigs: seq<Option<Signature>>, batchId: string)
    requires ValidConfig(cfg) && DistinctNodes(cfg) && |cfg.nodes| >= 2 && Inv(s) && Ready(s, h)
    requires trigger == Manual(s.heap[h].name, false, "") || trigger == Tick(false, "")
    requires ProperReplies(cfg, replies) && Quorum(q, |cfg.nodes|) && forall i :: i in q ==> Serves(s.heap[h], cfg, replies, i)
    requires !Undecodable(ApplyReplies(s.heap[h].shares, replies, |replies|), cfg.nodes, s.heap[h].order)
    requires |sigs| == |cfg.nodes| && Quorum(Signers(sigs), |cfg.nodes|)
    ensures var s' := Run(s, cfg, [trigger, DecryptReplies(s.nextTask, replies, batchId), SignReplies(s.nextTask, sigs)]);
      && h in s'.heap && s'.heap[h].status == Signed && s'.heap[h].batch.Some?
      && var b := s'.heap[h].batch.value;
         BatchSigned(h, b) in s'.log && b.id == batchId && b.session == s.heap[h].name && RoundsExact.InOrder(b.sigs, sigs)
  {
    var s1 := Do(s, cfg, trigger);
    var v := s.heap[h].(status := Matching);
    ReadyWellFormed(s, h);
    StepKeeps(s, cfg, trigger);
    if trigger.Manual? {
      ManualRuns(s, cfg, h, false, "");
    } else {
      TickRuns(s, cfg, h, false, "");
    }
    RunThree(s, cfg, trigger, DecryptReplies(s.nextTask, replies, batchId), SignReplies(s.nextTask, sigs));
    forall i | i in q ensures Serves(v, cfg, replies, i) {
      MarkedServes(s.heap[h], cfg, replies, i);
    }
    SignersCount(sigs);
    FaultTolerance(v, cfg, replies, q, sigs, batchId);
    RestOfRound(s1, cfg, s.nextTask, h, replies, sigs, batchId);
  }

  lemma RestOfRound(s: Sys, cfg: Config, task: nat, h: nat, replies: seq<Option<Reply>>, sigs: seq<Option<Signature>>, batchId: string)
    requires ValidConfig(cfg) && Inv(s) && task in s.tasks && s.tasks[task].AwaitDecrypt? && s.tasks[task].h == h
    requires h in s.heap && WellFormed(s.heap[h]) && AfterDecrypt(s.heap[h], cfg, replies).matches.Some?
    requires |sigs| == |cfg.nodes| && Quorum(Signers(sigs), |cfg.nodes|)
    ensures var s' := Do(Do(s, cfg, DecryptReplies(task, replies, batchId)), cfg, SignReplies(task, sigs));
      && h in s'.heap && s'.heap[h].status == Signed && s'.heap[h].batch.Some?
      && var b := s'.heap[h].batch.value;
         BatchSigned(h, b) in s'.log && b.id == batchId && b.session == s.heap[h].name && RoundsExact.InOrder(b.sigs, sigs)
  {
    var s1, d := Do(s, cfg, DecryptReplies(task, replies, batchId)), AfterDecrypt(s.heap[h], cfg, replies);
    AnswersDecide(s, cfg, task, replies, batchId);
    StepKeeps(s, cfg, DecryptReplies(task, replies, batchId));
    SignaturesEnd(s1, cfg, task, sigs);
    RoundsExact.RemoteBatchExactly(d.session, cfg, sigs, batchId, d.matches.value);
    DecisionName(s.heap[h], cfg, replies);
  }

  lemma DecisionName(v: Session, cfg: Config, replies: seq<Option<Reply>>)
    requires WellFormed(v) && ValidConfig(cfg)
    ensures AfterDecrypt(v, cfg, replies).session.name == v.name
  {
  }
}
