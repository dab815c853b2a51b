/** What every signed batch of a run carries: the signatures of a quorum, and,
    when clients and nodes are honest, the matches of the intents as dealt. */
module Batches {
  import opened Wrappers
  import opened Finite
  import opened Encoding
  import opened Session
  import opened Protocol
  import opened Rounds
  import Hygiene
  import Netting
  import NettingOptimal

  // ----- signatures -----

  function SignerNames(sigs: seq<Signature>): set<string> { set s | s in sigs :: s.node }

  function NodeNames(cfg: Config): set<string> { set n | n in cfg.nodes }

  /** Two thirds of the endpoints. */
  ghost predicate QuorumNames(names: set<string>, cfg: Config) {
    names <= NodeNames(cfg) && |names| >= Threshold(|cfg.nodes|)
  }

  /** Every endpoint is asked, and a signature that comes back is its own. */
  predicate ProperSigs(cfg: Config, sigs: seq<Option<Signature>>) {
    |sigs| == |cfg.nodes| && forall i :: 0 <= i < |sigs| && sigs[i].Some? ==> sigs[i].value.node == cfg.nodes[i]
  }

  lemma NamesSnoc(sigs: seq<Signature>, s: Signature)
    ensures SignerNames(sigs + [s]) == SignerNames(sigs) + {s.node}
  {
  }

  /** Distinct endpoints sign under distinct names. */
  lemma {:induction false} NamesCount(nodes: seq<string>, sigs: seq<Option<Signature>>)
    requires |sigs| <= |nodes| && forall i, j :: 0 <= i < j < |nodes| ==> nodes[i] != nodes[j]
    requires forall i :: 0 <= i < |sigs| && sigs[i].Some? ==> sigs[i].value.node == nodes[i]
    ensures |SignerNames(Collect(sigs))| == Count(sigs)
    ensures forall n :: n in SignerNames(Collect(sigs)) ==> exists i :: 0 <= i < |sigs| && nodes[i] == n
  {
    if sigs == [] {
      assert SignerNames([]) == {};
    } else {
      var k := |sigs| - 1;
      NamesCount(nodes, sigs[..k]);
      if sigs[k].Some? {
        NamesSnoc(Collect(sigs[..k]), sigs[k].value);
      }
    }
  }

  lemma RemoteSigners(cfg: Config, sigs: seq<Option<Signature>>)
    requires DistinctNodes(cfg) && ProperSigs(cfg, sigs) && Count(sigs) >= Threshold(|cfg.nodes|)
    ensures QuorumNames(SignerNames(Collect(sigs)), cfg)
  {
    NamesCount(cfg.nodes, sigs);
  }

  lemma LocalSigners(cfg: Config, batchId: string, ms: seq<Netting.Match>)
    requires DistinctNodes(cfg)
    ensures QuorumNames(SignerNames(NodeSignatures(cfg, batchId, ms)), cfg)
  {
    var sigs := NodeSignatures(cfg, batchId, ms);
    assert SignerNames(sigs) == NodeNames(cfg) by {
      forall n | n in NodeNames(cfg) ensures n in SignerNames(sigs) {
        var i :| 0 <= i < |cfg.nodes| && cfg.nodes[i] == n;
        assert sigs[i] in sigs;
      }
    }
    DistinctSeqCard(cfg.nodes);
  }

  ghost predicate BatchQuorum(cfg: Config, v: Session) {
    v.batch.Some? ==> QuorumNames(SignerNames(v.batch.value.sigs), cfg)
  }

  ghost predicate QuorumHeap(cfg: Config, heap: Heap) { forall h :: h in heap ==> BatchQuorum(cfg, heap[h]) }

  ghost predicate ProperSignStep(cfg: Config, e: Step) { e.SignReplies? ==> ProperSigs(cfg, e.sigs) }

  lemma LocalQuorum(v: Session, cfg: Config, batchId: string)
    requires ValidConfig(cfg) && DistinctNodes(cfg) && WellFormed(v) && v.batch.None?
    ensures BatchQuorum(cfg, LocalRound(v, cfg, batchId))
  {
    var d := LocalDecision(v.(status := Matching), cfg);
    if d.matches.Some? {
      LocalSigners(cfg, batchId, d.matches.value);
    }
  }

  lemma StartQuorum(s: Sys, cfg: Config, h: nat, local: bool, batchId: string)
    requires ValidConfig(cfg) && DistinctNodes(cfg) && Inv(s) && QuorumHeap(cfg, s.heap) && h in s.heap && s.heap[h].status == Open
    ensures QuorumHeap(cfg, Start(s, cfg, h, local, batchId).heap)
  {
    assert SessionOk(s.heap[h], s.submitted);
    LocalQuorum(s.heap[h], cfg, batchId);
  }

  lemma TimerQuorum(s: Sys, cfg: Config, todo: seq<nat>, local: bool, batchId: string)
    requires ValidConfig(cfg) && DistinctNodes(cfg) && Inv(s) && QuorumHeap(cfg, s.heap) && |todo| <= 1
    requires todo != [] ==> todo[0] in s.heap && s.heap[todo[0]].status == Open
    ensures QuorumHeap(cfg, RunTimer(s, cfg, todo, local, batchId).heap)
  {
    if todo != [] {
      assert todo[1..] == [];
      assert RunTimer(s, cfg, [], local, batchId) == s;
      StartQuorum(s, cfg, todo[0], local, batchId);
    }
  }

  lemma DecisionBatch(v: Session, cfg: Config, replies: seq<Option<Reply>>)
    requires ValidConfig(cfg) && WellFormed(v)
    ensures AfterDecrypt(v, cfg, replies).session.batch == v.batch
  {
  }

  lemma SignQuorum(v: Session, cfg: Config, sigs: seq<Option<Signature>>, batchId: string, ms: seq<Netting.Match>)
    requires DistinctNodes(cfg) && ProperSigs(cfg, sigs) && BatchQuorum(cfg, v)
    ensures BatchQuorum(cfg, AfterSign(v, cfg, sigs, batchId, ms))
  {
    if Count(sigs) >= Threshold(|cfg.nodes|) {
      RemoteSigners(cfg, sigs);
    }
  }

  lemma QuorumReplace(cfg: Config, heap: Heap, h: nat, v: Session)
    requires QuorumHeap(cfg, heap) && BatchQuorum(cfg, v)
    ensures QuorumHeap(cfg, heap[h := v])
  {
  }

  lemma SubmitQuorum(s: Sys, cfg: Config, intent: MpcIntent, now: string)
    requires QuorumHeap(cfg, s.heap)
    ensures QuorumHeap(cfg, DoSubmit(s, intent, now).heap)
  {
    var open := OpenHandles(s, |s.dirOrder|);
    if open == [] {
      QuorumReplace(cfg, s.heap, s.next, Submit(EmptySession("session-" + now), intent));
    } else if open[0] in s.heap {
      assert BatchQuorum(cfg, s.heap[open[0]]);
      QuorumReplace(cfg, s.heap, open[0], Submit(s.heap[open[0]], intent));
    }
  }

  lemma DecryptQuorum(s: Sys, cfg: Config, task: nat, replies: seq<Option<Reply>>, batchId: string)
    requires ValidConfig(cfg) && QuorumHeap(cfg, s.heap)
    ensures QuorumHeap(cfg, DoDecrypt(s, cfg, task, replies, batchId).heap)
  {
    if task in s.tasks && s.tasks[task].AwaitDecrypt? && s.tasks[task].h in s.heap && WellFormed(s.heap[s.tasks[task].h]) {
      var h := s.tasks[task].h;
      assert BatchQuorum(cfg, s.heap[h]);
      DecisionBatch(s.heap[h], cfg, replies);
      QuorumReplace(cfg, s.heap, h, AfterDecrypt(s.heap[h], cfg, replies).session);
    }
  }

  lemma SignStepQuorum(s: Sys, cfg: Config, task: nat, sigs: seq<Option<Signature>>)
    requires DistinctNodes(cfg) && QuorumHeap(cfg, s.heap) && ProperSigs(cfg, sigs)
    ensures QuorumHeap(cfg, DoSign(s, cfg, task, sigs).heap)
  {
    if task in s.tasks && s.tasks[task].AwaitSign? && s.tasks[task].h in s.heap {
      var t := s.tasks[task];
      assert BatchQuorum(cfg, s.heap[t.h]);
      SignQuorum(s.heap[t.h], cfg, sigs, t.batchId, t.matches);
      QuorumReplace(cfg, s.heap, t.h, AfterSign(s.heap[t.h], cfg, sigs, t.batchId, t.matches));
    }
  }

  lemma StepQuorum(s: Sys, cfg: Config, e: Step)
    requires ValidConfig(cfg) && DistinctNodes(cfg) && Inv(s) && QuorumHeap(cfg, s.heap) && ProperSignStep(cfg, e)
    ensures QuorumHeap(cfg, Do(s, cfg, e).heap)
  {
    match e {
      case SubmitIntent(intent, now) => SubmitQuorum(s, cfg, intent, now);
      case Manual(name, local, batchId) =>
        if name in s.dir && s.heap[s.dir[name]].status == Open {
          StartQuorum(s, cfg, s.dir[name], local, batchId);
        }
      case Tick(local, batchId) =>
        Snapshot(s);
        TimerQuorum(s, cfg, OpenHandles(s, |s.dirOrder|), local, batchId);
      case Resume(timer, local, batchId) =>
        if timer in s.timers {
          TimerQuorum(s.(timers := s.timers - {timer}), cfg, s.timers[timer], local, batchId);
        }
      case DecryptReplies(task, replies, batchId) => DecryptQuorum(s, cfg, task, replies, batchId);
      case SignReplies(task, sigs) => SignStepQuorum(s, cfg, task, sigs);
    }
  }

  /** Every batch of every run carries the signatures of two thirds of the
      endpoints. */
  lemma {:induction false} SignedByQuorums(cfg: Config, steps: seq<Step>)
    requires ValidConfig(cfg) && DistinctNodes(cfg) && forall i :: 0 <= i < |steps| ==> ProperSignStep(cfg, steps[i])
    ensures QuorumHeap(cfg, Run(INIT, cfg, steps).heap)
  {
    if steps != [] {
      var init := steps[..|steps| - 1];
      SignedByQuorums(cfg, init);
      Reachable(cfg, init);
      StepQuorum(Run(INIT, cfg, init), cfg, steps[|steps| - 1]);
    }
  }

  lemma QuorumNamesOverlap(a: set<string>, b: set<string>, cfg: Config)
    requires DistinctNodes(cfg) && QuorumNames(a, cfg) && QuorumNames(b, cfg)
    ensures 3 * |a * b| >= |cfg.nodes|
  {
    DistinctSeqCard(cfg.nodes);
    SubsetCard(a + b, NodeNames(cfg));
    assert |a + b| + |a * b| == |a| + |b|;
  }

  /** Any two batches of a run have a third of the endpoints as common signers. */
  lemma BatchesOverlap(cfg: Config, steps: seq<Step>, h: nat, g: nat)
    requires ValidConfig(cfg) && DistinctNodes(cfg) && forall i :: 0 <= i < |steps| ==> ProperSignStep(cfg, steps[i])
    requires var heap := Run(INIT, cfg, steps).heap; h in heap && g in heap && heap[h].batch.Some? && heap[g].batch.Some?
    ensures var heap := Run(INIT, cfg, steps).heap;
      3 * |SignerNames(heap[h].batch.value.sigs) * SignerNames(heap[g].batch.value.sigs)| >= |cfg.nodes|
  {
    SignedByQuorums(cfg, steps);
    var heap := Run(INIT, cfg, steps).heap;
    assert BatchQuorum(cfg, heap[h]) && BatchQuorum(cfg, heap[g]);
    QuorumNamesOverlap(SignerNames(heap[h].batch.value.sigs), SignerNames(heap[g].batch.value.sigs), cfg);
  }

  // ----- honest runs -----

  /** What endpoint i may make of a ciphertext of an intent: an error, null, or the
      share that was dealt to it. */
  ghost predicate HonestText(cfg: Config, secret: Secret, i: nat, d: Option<Option<Text>>)
    requires cfg.p > 0
  {
    i < |cfg.nodes| ==> d in {None, Some(None), Some(Some(EncodeShare(ShareOf(secret, i, cfg))))}
  }

  ghost predicate HonestEntry(cfg: Config, secrets: Secrets, node: string, id: string, cipher: string)
    requires cfg.p > 0
  {
    forall i: nat :: i < |cfg.nodes| && cfg.nodes[i] == node && id in secrets
                     ==> HonestText(cfg, secrets[id], i, cfg.decrypt(node, cipher))
  }

  ghost predicate HonestStore(sh: Shares, cfg: Config, secrets: Secrets)
    requires cfg.p > 0
  {
    forall slot :: slot in sh ==> HonestEntry(cfg, secrets, slot.node, slot.id, sh[slot].cipher)
  }

  /** A node's answers are the shares dealt to it, or null. */
  ghost predicate HonestAnswer(cfg: Config, secrets: Secrets, i: nat, r: Reply)
    requires cfg.p > 0
  {
    i < |cfg.nodes| && forall id :: id in r.shares && id in secrets && r.shares[id].Some?
                                    ==> r.shares[id].value == EncodeShare(ShareOf(secrets[id], i, cfg))
  }

  /** Clients submit what they dealt, and nodes answer under their own ids with
      the shares they were dealt. */
  ghost predicate HonestStep(cfg: Config, secrets: Secrets, e: Step)
    requires cfg.p > 0
  {
    match e
    case SubmitIntent(intent, _) =>
      && intent.id in secrets
      && forall k :: 0 <= k < |intent.encShares|
                     ==> HonestEntry(cfg, secrets, intent.encShares[k].node, intent.id, intent.encShares[k].cipher)
    case DecryptReplies(_, replies, _) =>
      && ProperReplies(cfg, replies)
      && forall i :: 0 <= i < |replies| && replies[i].Some? ==> HonestAnswer(cfg, secrets, i, replies[i].value)
    case _ => true
  }

  ghost predicate HonestView(v: Session, cfg: Config, secrets: Secrets)
    requires cfg.p > 0
  {
    && WellFormed(v) && Dealt(v, secrets)
    && (v.status == Open ==> HonestStore(v.shares, cfg, secrets))
    && (v.batch.Some? ==> v.batch.value.matches == TrueMatches(v, secrets, cfg))
  }

  ghost predicate HonestTask(t: Task, heap: Heap, cfg: Config, secrets: Secrets)
    requires cfg.p > 0
  {
    && t.h in heap && WellFormed(heap[t.h]) && Dealt(heap[t.h], secrets)
    && (t.AwaitSign? ==> t.matches == TrueMatches(heap[t.h], secrets, cfg))
  }

  ghost predicate HonestSys(s: Sys, cfg: Config, secrets: Secrets)
    requires cfg.p > 0
  {
    && (forall h :: h in s.heap ==> HonestView(s.heap[h], cfg, secrets))
    && (forall t :: t in s.tasks ==> HonestTask(s.tasks[t], s.heap, cfg, secrets))
  }

  lemma {:induction false} PutHonest(sh: Shares, cfg: Config, secrets: Secrets, id: string, encs: seq<EncShare>)
    requires cfg.p > 0 && HonestStore(sh, cfg, secrets)
    requires forall k :: 0 <= k < |encs| ==> HonestEntry(cfg, secrets, encs[k].node, id, encs[k].cipher)
    ensures HonestStore(PutShares(sh, id, encs), cfg, secrets)
  {
    if encs != [] {
      PutHonest(sh, cfg, secrets, id, encs[..|encs| - 1]);
    }
  }

  lemma SubmitHonest(v: Session, cfg: Config, secrets: Secrets, intent: MpcIntent)
    requires cfg.p > 0 && HonestView(v, cfg, secrets) && v.status == Open && v.batch.None? && intent.id in secrets
    requires forall k :: 0 <= k < |intent.encShares|
               ==> HonestEntry(cfg, secrets, intent.encShares[k].node, intent.id, intent.encShares[k].cipher)
    ensures HonestView(Submit(v, intent), cfg, secrets)
  {
    PutHonest(v.shares, cfg, secrets, intent.id, intent.encShares);
  }

  /** What counts for the dealt matches is only the intents. */
  lemma TrueSame(v: Session, v': Session, cfg: Config, secrets: Secrets)
    requires cfg.p > 0 && WellFormed(v) && Dealt(v, secrets) && v'.order == v.order && v'.intents == v.intents
    ensures WellFormed(v') && Dealt(v', secrets) && TrueMatches(v', secrets, cfg) == TrueMatches(v, secrets, cfg)
  {
    assert TrueIntents(v', secrets, cfg.p) == TrueIntents(v, secrets, cfg.p);
  }

  lemma StoreCiphers(v: Session, cfg: Config, secrets: Secrets)
    requires cfg.p > 0 && Dealt(v, secrets) && HonestStore(v.shares, cfg, secrets)
    ensures HonestCiphers(v, cfg, secrets)
  {
    forall i, j | 0 <= i < |cfg.nodes| && 0 <= j < |v.order|
      ensures HonestCipher(v.shares, cfg, i, v.order[j], secrets[v.order[j]])
    {
      var slot := Slot(cfg.nodes[i], v.order[j]);
      if slot in v.shares {
        assert HonestEntry(cfg, secrets, slot.node, slot.id, v.shares[slot].cipher);
        assert HonestText(cfg, secrets[slot.id], i, cfg.decrypt(slot.node, v.shares[slot].cipher));
      }
    }
  }

  lemma AnswersHonest(v: Session, cfg: Config, secrets: Secrets, replies: seq<Option<Reply>>)
    requires cfg.p > 0 && Dealt(v, secrets) && ProperReplies(cfg, replies)
    requires forall i :: 0 <= i < |replies| && replies[i].Some? ==> HonestAnswer(cfg, secrets, i, replies[i].value)
    ensures HonestReplies(v, cfg, replies, secrets)
  {
    forall i, j | 0 <= i < |replies| && 0 <= j < |v.order|
      ensures HonestReply(cfg, replies[i], i, v.order[j], secrets[v.order[j]])
    {
      if replies[i].Some? {
        assert HonestAnswer(cfg, secrets, i, replies[i].value);
      }
    }
  }

  // steps

  ghost predicate HonestParams(cfg: Config) { ValidConfig(cfg) && DistinctNodes(cfg) && |cfg.nodes| < cfg.p }

  lemma LocalHonest(v: Session, cfg: Config, secrets: Secrets, batchId: string)
    requires HonestParams(cfg) && HonestView(v, cfg, secrets) && v.status == Open && v.batch.None? && |v.intents| >= 2
    ensures HonestView(LocalRound(v, cfg, batchId), cfg, secrets)
  {
    StoreCiphers(v, cfg, secrets);
    LocalMatches(v, cfg, batchId, secrets);
    LocalKeeps(v, cfg, batchId);
    TrueSame(v, LocalRound(v, cfg, batchId), cfg, secrets);
  }

  lemma LocalKeeps(v: Session, cfg: Config, batchId: string)
    requires ValidConfig(cfg) && WellFormed(v)
    ensures var r := LocalRound(v, cfg, batchId);
      r.order == v.order && r.intents == v.intents && (r.status != Signed ==> r.batch == v.batch)
  {
  }

  lemma DecisionHonest(v: Session, cfg: Config, secrets: Secrets, replies: seq<Option<Reply>>)
    requires HonestParams(cfg) && HonestView(v, cfg, secrets) && v.status == Matching && Clean(v.shares)
    requires HonestReplies(v, cfg, replies, secrets)
    ensures var d := AfterDecrypt(v, cfg, replies);
      && HonestView(d.session, cfg, secrets) && !d.threw
      && (d.matches.Some? ==> d.matches.value == TrueMatches(d.session, secrets, cfg))
  {
    RemoteMatches(v, cfg, replies, secrets);
    DecisionKeeps(v, cfg, replies);
    TrueSame(v, AfterDecrypt(v, cfg, replies).session, cfg, secrets);
  }

  lemma DecisionKeeps(v: Session, cfg: Config, replies: seq<Option<Reply>>)
    requires ValidConfig(cfg) && WellFormed(v) && v.status == Matching
    ensures var d := AfterDecrypt(v, cfg, replies);
      d.session.order == v.order && d.session.intents == v.intents && d.session.batch == v.batch && d.session.status != Open
  {
  }

  lemma SignedHonest(v: Session, cfg: Config, secrets: Secrets, sigs: seq<Option<Signature>>, batchId: string, ms: seq<Netting.Match>)
    requires cfg.p > 0 && HonestView(v, cfg, secrets) && v.status == Matching && ms == TrueMatches(v, secrets, cfg)
    ensures HonestView(AfterSign(v, cfg, sigs, batchId, ms), cfg, secrets)
  {
    TrueSame(v, AfterSign(v, cfg, sigs, batchId, ms), cfg, secrets);
  }

  /** One session changes, and with it only its own tasks. */
  lemma HonestReplace(s: Sys, s': Sys, cfg: Config, secrets: Secrets, h: nat, v: Session)
    requires cfg.p > 0 && HonestSys(s, cfg, secrets) && HonestView(v, cfg, secrets) && s'.heap == s.heap[h := v]
    requires forall t :: t in s'.tasks ==>
               if s'.tasks[t].h == h then HonestTask(s'.tasks[t], s'.heap, cfg, secrets)
               else t in s.tasks && s'.tasks[t] == s.tasks[t]
    ensures HonestSys(s', cfg, secrets)
  {
    forall t | t in s'.tasks ensures HonestTask(s'.tasks[t], s'.heap, cfg, secrets) {
      assert s'.tasks[t].h != h ==> HonestTask(s.tasks[t], s.heap, cfg, secrets);
    }
  }

  /** No task works on a session that is open or not there. */
  lemma NoTaskOn(s: Sys, h: nat)
    requires Inv(s) && (h in s.heap ==> s.heap[h].status == Open)
    ensures forall t :: t in s.tasks ==> s.tasks[t].h != h
  {
    forall t | t in s.tasks ensures s.tasks[t].h != h {
      assert TaskOk(s.tasks[t], s.heap);
    }
  }

  lemma OpenNoBatch(s: Sys, h: nat)
    requires Inv(s) && h in s.heap && s.heap[h].status == Open
    ensures s.heap[h].batch.None? && WellFormed(s.heap[h])
  {
    assert SessionOk(s.heap[h], s.submitted);
  }

  lemma SubmitStepHonest(s: Sys, cfg: Config, secrets: Secrets, intent: MpcIntent, now: string)
    requires HonestParams(cfg) && Inv(s) && HonestSys(s, cfg, secrets) && HonestStep(cfg, secrets, SubmitIntent(intent, now))
    ensures HonestSys(DoSubmit(s, intent, now), cfg, secrets)
  {
    Snapshot(s);
    var open := OpenHandles(s, |s.dirOrder|);
    if open == [] {
      var v := EmptySession("session-" + now);
      assert s.next !in s.heap;
      NoTaskOn(s, s.next);
      SubmitHonest(v, cfg, secrets, intent);
      HonestReplace(s, DoSubmit(s, intent, now), cfg, secrets, s.next, Submit(v, intent));
    } else {
      var h := open[0];
      NoTaskOn(s, h);
      OpenNoBatch(s, h);
      SubmitHonest(s.heap[h], cfg, secrets, intent);
      HonestReplace(s, DoSubmit(s, intent, now), cfg, secrets, h, Submit(s.heap[h], intent));
    }
  }

  lemma StartLocalHonest(s: Sys, cfg: Config, secrets: Secrets, h: nat, batchId: string)
    requires HonestParams(cfg) && Inv(s) && HonestSys(s, cfg, secrets) && h in s.heap && s.heap[h].status == Open
    requires |s.heap[h].intents| >= 2
    ensures HonestSys(Start(s, cfg, h, true, batchId), cfg, secrets)
  {
    NoTaskOn(s, h);
    OpenNoBatch(s, h);
    LocalHonest(s.heap[h], cfg, secrets, batchId);
    HonestReplace(s, Start(s, cfg, h, true, batchId), cfg, secrets, h, LocalRound(s.heap[h], cfg, batchId));
  }

  lemma BegunHonest(v: Session, cfg: Config, secrets: Secrets)
    requires cfg.p > 0 && HonestView(v, cfg, secrets) && v.batch.None?
    ensures HonestView(Begin(v), cfg, secrets)
  {
    TrueSame(v, Begin(v), cfg, secrets);
  }

  lemma StartRemoteHonest(s: Sys, cfg: Config, secrets: Secrets, h: nat, batchId: string)
    requires HonestParams(cfg) && Inv(s) && HonestSys(s, cfg, secrets) && h in s.heap && s.heap[h].status == Open
    requires |s.heap[h].intents| >= 2
    ensures HonestSys(Start(s, cfg, h, false, batchId), cfg, secrets)
  {
    NoTaskOn(s, h);
    OpenNoBatch(s, h);
    BegunHonest(s.heap[h], cfg, secrets);
    HonestReplace(s, Start(s, cfg, h, false, batchId), cfg, secrets, h, Begin(s.heap[h]));
  }

  lemma StartHonest(s: Sys, cfg: Config, secrets: Secrets, h: nat, local: bool, batchId: string)
    requires HonestParams(cfg) && Inv(s) && HonestSys(s, cfg, secrets) && h in s.heap && s.heap[h].status == Open
    ensures HonestSys(Start(s, cfg, h, local, batchId), cfg, secrets)
  {
    if |s.heap[h].intents| >= 2 {
      if local {
        StartLocalHonest(s, cfg, secrets, h, batchId);
      } else {
        StartRemoteHonest(s, cfg, secrets, h, batchId);
      }
    }
  }

  lemma TimerHonest(s: Sys, cfg: Config, secrets: Secrets, todo: seq<nat>, local: bool, batchId: string)
    requires HonestParams(cfg) && Inv(s) && HonestSys(s, cfg, secrets) && |todo| <= 1
    requires todo != [] ==> todo[0] in s.heap && s.heap[todo[0]].status == Open
    ensures HonestSys(RunTimer(s, cfg, todo, local, batchId), cfg, secrets)
  {
    if todo != [] {
      assert todo[1..] == [];
      assert RunTimer(s, cfg, [], local, batchId) == s;
      StartHonest(s, cfg, secrets, todo[0], local, batchId);
    }
  }

  lemma DecidedHonest(s: Sys, cfg: Config, secrets: Secrets, task: nat, d: Decision, batchId: string)
    requires cfg.p > 0 && HonestSys(s, cfg, secrets) && TasksOk(s.tasks, s.nextTask, s.heap) && task in s.tasks
    requires HonestView(d.session, cfg, secrets) && (d.matches.Some? ==> d.matches.value == TrueMatches(d.session, secrets, cfg))
    ensures HonestSys(Decided(s, task, d, batchId), cfg, secrets)
  {
    HonestReplace(s, Decided(s, task, d, batchId), cfg, secrets, s.tasks[task].h, d.session);
  }

  lemma DecryptHonest(s: Sys, cfg: Config, secrets: Secrets, task: nat, replies: seq<Option<Reply>>, batchId: string)
    requires HonestParams(cfg) && Inv(s) && HonestSys(s, cfg, secrets) && Hygiene.HygieneInv(s, {})
    requires task in s.tasks && s.tasks[task].AwaitDecrypt? && HonestStep(cfg, secrets, DecryptReplies(task, replies, batchId))
    ensures HonestSys(DoDecrypt(s, cfg, task, replies, batchId), cfg, secrets)
  {
    Hygiene.WaitingIsClean(s, {}, task);
    var v := s.heap[s.tasks[task].h];
    AnswersHonest(v, cfg, secrets, replies);
    DecisionHonest(v, cfg, secrets, replies);
    DecidedHonest(s, cfg, secrets, task, AfterDecrypt(v, cfg, replies), batchId);
  }

  lemma SignHonest(s: Sys, cfg: Config, secrets: Secrets, task: nat, sigs: seq<Option<Signature>>)
    requires cfg.p > 0 && Inv(s) && HonestSys(s, cfg, secrets) && task in s.tasks && s.tasks[task].AwaitSign?
    ensures HonestSys(DoSign(s, cfg, task, sigs), cfg, secrets)
  {
    var t := s.tasks[task];
    assert TaskOk(t, s.heap) && HonestTask(t, s.heap, cfg, secrets);
    SignedHonest(s.heap[t.h], cfg, secrets, sigs, t.batchId, t.matches);
    HonestReplace(s, DoSign(s, cfg, task, sigs), cfg, secrets, t.h, AfterSign(s.heap[t.h], cfg, sigs, t.batchId, t.matches));
  }

  lemma StepHonest(s: Sys, cfg: Config, secrets: Secrets, e: Step)
    requires HonestParams(cfg) && Inv(s) && HonestSys(s, cfg, secrets) && Hygiene.HygieneInv(s, {}) && HonestStep(cfg, secrets, e)
    ensures HonestSys(Do(s, cfg, e), cfg, secrets)
  {
    match e {
      case SubmitIntent(intent, now) => SubmitStepHonest(s, cfg, secrets, intent, now);
      case Manual(name, local, batchId) =>
        if name in s.dir && s.heap[s.dir[name]].status == Open {
          StartHonest(s, cfg, secrets, s.dir[name], local, batchId);
        }
      case Tick(local, batchId) =>
        Snapshot(s);
        TimerHonest(s, cfg, secrets, OpenHandles(s, |s.dirOrder|), local, batchId);
      case Resume(timer, local, batchId) =>
        if timer in s.timers {
          TimerHonest(s.(timers := s.timers - {timer}), cfg, secrets, s.timers[timer], local, batchId);
        }
      case DecryptReplies(task, replies, batchId) =>
        if task in s.tasks && s.tasks[task].AwaitDecrypt? {
          DecryptHonest(s, cfg, secrets, task, replies, batchId);
        }
      case SignReplies(task, sigs) =>
        if task in s.tasks && s.tasks[task].AwaitSign? {
          SignHonest(s, cfg, secrets, task, sigs);
        }
    }
  }

  lemma {:induction false} HonestRuns(cfg: Config, secrets: Secrets, steps: seq<Step>)
    requires HonestParams(cfg) && forall i :: 0 <= i < |steps| ==> HonestStep(cfg, secrets, steps[i])
    ensures HonestSys(Run(INIT, cfg, steps), cfg, secrets)
  {
    if steps != [] {
      var init, e := steps[..|steps| - 1], steps[|steps| - 1];
      HonestRuns(cfg, secrets, init);
      Reachable(cfg, init);
      forall i | 0 <= i < |init| ensures Hygiene.ProperStep(cfg, init[i]) {
        assert HonestStep(cfg, secrets, steps[i]);
      }
      Hygiene.ProperHygiene(cfg, init);
      StepHonest(Run(INIT, cfg, init), cfg, secrets, e);
    }
  }

  // ----- what the batches say -----

  /** m nets the amounts two intents of the session were dealt with. */
  ghost predicate NetsDealt(m: Netting.Match, v: Session, secrets: Secrets, p: int)
    requires p > 0
  {
    && m.aId in v.intents && m.bId in v.intents && m.aId in secrets && m.bId in secrets && m.aId != m.bId
    && m.amount == Netting.Min(secrets[m.aId].amount % p, secrets[m.bId].amount % p)
    && m.inAsset == v.intents[m.aId].inAsset == v.intents[m.bId].outAsset
    && m.outAsset == v.intents[m.aId].outAsset == v.intents[m.bId].inAsset
  }

  lemma TrueUnique(v: Session, cfg: Config, secrets: Secrets)
    requires cfg.p > 0 && WellFormed(v) && Dealt(v, secrets)
    ensures Netting.UniqueIds(TrueIntents(v, secrets, cfg.p))
  {
  }

  /** An intent of the list is the session's, with its dealt amount. */
  lemma TrueMember(v: Session, cfg: Config, secrets: Secrets, x: Netting.Intent)
    requires cfg.p > 0 && WellFormed(v) && Dealt(v, secrets) && x in TrueIntents(v, secrets, cfg.p)
    ensures x.id in v.intents && x.id in secrets && x.amount == secrets[x.id].amount % cfg.p
    ensures x.inAsset == v.intents[x.id].inAsset && x.outAsset == v.intents[x.id].outAsset
  {
    var j :| 0 <= j < |v.order| && TrueIntents(v, secrets, cfg.p)[j] == x;
    assert v.order[j] in v.order;
  }

  lemma TrueNets(v: Session, cfg: Config, secrets: Secrets, k: nat)
    requires ValidConfig(cfg) && WellFormed(v) && Dealt(v, secrets) && k < |TrueMatches(v, secrets, cfg)|
    ensures NetsDealt(TrueMatches(v, secrets, cfg)[k], v, secrets, cfg.p)
  {
    var rec := TrueIntents(v, secrets, cfg.p);
    TrueUnique(v, cfg, secrets);
    NettingOptimal.PairsAreMatching(rec, cfg.sort);
    var pair := Netting.Pairs(rec, cfg.sort)[k];
    assert NettingOptimal.Complementary(rec, pair);
    TrueMember(v, cfg, secrets, pair.a);
    TrueMember(v, cfg, secrets, pair.b);
  }

  /** Over every honest run: each signed batch, in process or remote, whatever
      quorum answered, is the matching of its session's intents as dealt; so every
      match nets two dealt amounts of opposite assets. */
  lemma SignedAsDealt(cfg: Config, secrets: Secrets, steps: seq<Step>, h: nat)
    requires HonestParams(cfg) && forall i :: 0 <= i < |steps| ==> HonestStep(cfg, secrets, steps[i])
    requires h in Run(INIT, cfg, steps).heap && Run(INIT, cfg, steps).heap[h].batch.Some?
    ensures var v := Run(INIT, cfg, steps).heap[h];
      && WellFormed(v) && Dealt(v, secrets) && v.batch.value.matches == TrueMatches(v, secrets, cfg)
      && forall k :: 0 <= k < |v.batch.value.matches| ==> NetsDealt(v.batch.value.matches[k], v, secrets, cfg.p)
  {
    HonestRuns(cfg, secrets, steps);
    var v := Run(INIT, cfg, steps).heap[h];
    assert HonestView(v, cfg, secrets);
    forall k | 0 <= k < |v.batch.value.matches| ensures NetsDealt(v.batch.value.matches[k], v, secrets, cfg.p) {
      TrueNets(v, cfg, secrets, k);
    }
  }
}
