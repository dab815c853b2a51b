/** Where decrypted shares stay behind, over whole runs of the committee: in
    failed sessions, in those whose round threw because a share could not be
    decoded, and in those with a stray answer (apps/mpc-committee/src/remote-coordinator.ts, coordinator.ts). */
module Hygiene {
  import opened Wrappers
  import Field
  import Polynomial
  import opened Encoding
  import opened Session
  import opened Protocol
  import opened Rounds

  /** A session that has not failed is clean exactly if it is not tainted. */
  ghost predicate CleanAt(v: Session, tainted: bool) {
    v.status == Failed || (Clean(v.shares) <==> !tainted)
  }

  ghost predicate CleanExactly(heap: Heap, tainted: set<nat>) {
    forall h :: h in heap ==> CleanAt(heap[h], h in tainted)
  }

  /** Tainted sessions have left `open`, and no round on them still waits for
      shares. */
  ghost predicate PastDecision(heap: Heap, tasks: map<nat, Task>, tainted: set<nat>) {
    && (forall h :: h in tainted ==> h in heap && heap[h].status != Open)
    && (forall t :: t in tasks && tasks[t].AwaitDecrypt? ==> tasks[t].h !in tainted)
  }

  /** Sessions whose round threw stay matching, and nobody works on them. */
  ghost predicate Stalled(heap: Heap, tasks: map<nat, Task>, threw: set<nat>) {
    && (forall h :: h in threw ==> h in heap && heap[h].status == Matching)
    && (forall t :: t in tasks ==> tasks[t].h !in threw)
  }

  /** strayed: the sessions whose round had a stray answer. */
  ghost predicate HygieneInv(s: Sys, strayed: set<nat>) {
    && CleanExactly(s.heap, s.threw + strayed) && PastDecision(s.heap, s.tasks, s.threw + strayed)
    && Stalled(s.heap, s.tasks, s.threw)
  }

  /** The session whose round goes on at this step after a stray answer. */
  ghost function StraysNow(s: Sys, cfg: Config, e: Step): set<nat>
    requires ValidConfig(cfg)
  {
    if e.DecryptReplies? && e.task in s.tasks && s.tasks[e.task].AwaitDecrypt? && s.tasks[e.task].h in s.heap
       && WellFormed(s.heap[s.tasks[e.task].h])
    then
      var h := s.tasks[e.task].h;
      if StrayRound(s.heap[h], cfg, e.replies) then {h} else {}
    else {}
  }

  /** The sessions that had a stray answer in a run. */
  ghost function Strayed(cfg: Config, steps: seq<Step>): set<nat>
    requires ValidConfig(cfg)
  {
    if steps == [] then {}
    else
      var init := steps[..|steps| - 1];
      Strayed(cfg, init) + StraysNow(Run(INIT, cfg, init), cfg, steps[|steps| - 1])
  }

  function Mark(hs: set<nat>, h: nat, now: bool): set<nat> { if now then hs + {h} else hs }

  lemma ReplaceClean(heap: Heap, tainted: set<nat>, h: nat, v: Session, now: bool)
    requires CleanExactly(heap, tainted) && h !in tainted && CleanAt(v, now)
    ensures CleanExactly(heap[h := v], Mark(tainted, h, now))
  {
  }

  /** One session changes, and only tasks on it. */
  lemma ReplaceHygienic(s: Sys, s': Sys, strayed: set<nat>, h: nat, v: Session, threw: bool, stray: bool)
    requires HygieneInv(s, strayed) && h !in s.threw + strayed && CleanAt(v, threw || stray)
    requires (threw ==> v.status == Matching) && (stray ==> v.status != Open)
    requires s'.heap == s.heap[h := v] && s'.threw == Mark(s.threw, h, threw)
    requires forall t :: t in s'.tasks ==>
               if s'.tasks[t].h == h then !threw && (stray ==> s'.tasks[t].AwaitSign?) else t in s.tasks && s'.tasks[t] == s.tasks[t]
    ensures HygieneInv(s', Mark(strayed, h, stray))
  {
    ReplaceClean(s.heap, s.threw + strayed, h, v, threw || stray);
    assert s'.threw + Mark(strayed, h, stray) == Mark(s.threw + strayed, h, threw || stray);
  }

  /** An open session is clean, and no task works on it. */
  lemma OpenIsQuiet(s: Sys, strayed: set<nat>, h: nat)
    requires Inv(s) && HygieneInv(s, strayed) && h in s.heap && s.heap[h].status == Open
    ensures h !in s.threw + strayed && Clean(s.heap[h].shares) && WellFormed(s.heap[h])
    ensures forall t :: t in s.tasks ==> s.tasks[t].h != h
  {
    assert h !in s.threw + strayed;
    assert CleanAt(s.heap[h], false);
    assert SessionOk(s.heap[h], s.submitted);
    forall t | t in s.tasks ensures s.tasks[t].h != h {
      assert TaskOk(s.tasks[t], s.heap);
    }
  }

  lemma {:induction false} PutSharesClean(sh: Shares, id: string, encs: seq<EncShare>)
    requires Clean(sh)
    ensures Clean(PutShares(sh, id, encs))
  {
    if encs != [] {
      PutSharesClean(sh, id, encs[..|encs| - 1]);
    }
  }

  // ----- every step keeps it -----

  lemma SubmitHygienic(s: Sys, strayed: set<nat>, intent: MpcIntent, now: string)
    requires Inv(s) && HygieneInv(s, strayed)
    ensures HygieneInv(DoSubmit(s, intent, now), strayed)
  {
    Snapshot(s);
    var open, s' := OpenHandles(s, |s.dirOrder|), DoSubmit(s, intent, now);
    if open != [] {
      SubmitToOpenHygienic(s, s', strayed, open[0], intent);
    } else {
      SubmitToNewHygienic(s, s', strayed, "session-" + now, intent);
    }
  }

  lemma SubmitToOpenHygienic(s: Sys, s': Sys, strayed: set<nat>, h: nat, intent: MpcIntent)
    requires Inv(s) && HygieneInv(s, strayed) && h in s.heap && s.heap[h].status == Open
    requires s'.heap == s.heap[h := Submit(s.heap[h], intent)] && s'.threw == s.threw && s'.tasks == s.tasks
    ensures HygieneInv(s', strayed)
  {
    OpenIsQuiet(s, strayed, h);
    PutSharesClean(s.heap[h].shares, intent.id, intent.encShares);
    ReplaceHygienic(s, s', strayed, h, Submit(s.heap[h], intent), false, false);
  }

  lemma SubmitToNewHygienic(s: Sys, s': Sys, strayed: set<nat>, name: string, intent: MpcIntent)
    requires Inv(s) && HygieneInv(s, strayed)
    requires s'.heap == s.heap[s.next := Submit(EmptySession(name), intent)] && s'.threw == s.threw && s'.tasks == s.tasks
    ensures HygieneInv(s', strayed)
  {
    NextIsQuiet(s, strayed);
    PutSharesClean(map[], intent.id, intent.encShares);
    ReplaceHygienic(s, s', strayed, s.next, Submit(EmptySession(name), intent), false, false);
  }

  lemma NextIsQuiet(s: Sys, strayed: set<nat>)
    requires Inv(s) && HygieneInv(s, strayed)
    ensures s.next !in s.threw + strayed && forall t :: t in s.tasks ==> s.tasks[t].h != s.next
  {
    assert s.next !in s.heap;
    forall t | t in s.tasks ensures s.tasks[t].h != s.next {
      assert TaskOk(s.tasks[t], s.heap);
    }
  }

  /** The end of an in-process round on an open session. */
  lemma LocalHygienic(v: Session, cfg: Config, batchId: string)
    requires ValidConfig(cfg) && WellFormed(v) && v.status == Open && |v.intents| >= 2 && Clean(v.shares)
    ensures var d := LocalDecision(v.(status := Matching), cfg);
      CleanAt(LocalRound(v, cfg, batchId), d.threw) && (d.threw ==> LocalRound(v, cfg, batchId).status == Matching)
  {
    LocalCleanIff(v.(status := Matching), cfg);
  }

  lemma LocalStartHygienic(s: Sys, strayed: set<nat>, cfg: Config, h: nat, batchId: string)
    requires ValidConfig(cfg) && HygieneInv(s, strayed) && h in s.heap && s.heap[h].status == Open && |s.heap[h].intents| >= 2
    requires h !in s.threw + strayed && Clean(s.heap[h].shares) && WellFormed(s.heap[h])
    requires forall t :: t in s.tasks ==> s.tasks[t].h != h
    ensures HygieneInv(Start(s, cfg, h, true, batchId), strayed)
  {
    LocalHygienic(s.heap[h], cfg, batchId);
    ReplaceHygienic(s, Start(s, cfg, h, true, batchId), strayed, h, LocalRound(s.heap[h], cfg, batchId),
                    LocalDecision(s.heap[h].(status := Matching), cfg).threw, false);
  }

  lemma RemoteStartHygienic(s: Sys, strayed: set<nat>, cfg: Config, h: nat, batchId: string)
    requires ValidConfig(cfg) && HygieneInv(s, strayed) && h in s.heap && s.heap[h].status == Open && |s.heap[h].intents| >= 2
    requires h !in s.threw + strayed && Clean(s.heap[h].shares) && WellFormed(s.heap[h])
    ensures HygieneInv(Start(s, cfg, h, false, batchId), strayed)
  {
    ReplaceHygienic(s, Start(s, cfg, h, false, batchId), strayed, h, Begin(s.heap[h]), false, false);
  }

  lemma StartHygienic(s: Sys, strayed: set<nat>, cfg: Config, h: nat, local: bool, batchId: string)
    requires ValidConfig(cfg) && Inv(s) && HygieneInv(s, strayed) && h in s.heap && s.heap[h].status == Open
    ensures HygieneInv(Start(s, cfg, h, local, batchId), strayed)
  {
    OpenIsQuiet(s, strayed, h);
    if |s.heap[h].intents| >= 2 {
      if local {
        LocalStartHygienic(s, strayed, cfg, h, batchId);
      } else {
        RemoteStartHygienic(s, strayed, cfg, h, batchId);
      }
    }
  }

  lemma TimerHygienic(s: Sys, strayed: set<nat>, cfg: Config, todo: seq<nat>, local: bool, batchId: string)
    requires ValidConfig(cfg) && Inv(s) && HygieneInv(s, strayed) && |todo| <= 1
    requires todo != [] ==> todo[0] in s.heap && s.heap[todo[0]].status == Open
    ensures HygieneInv(RunTimer(s, cfg, todo, local, batchId), strayed)
  {
    if todo != [] {
      assert todo[1..] == [];
      assert RunTimer(s, cfg, [], local, batchId) == s;
      if |s.heap[todo[0]].intents| >= 2 {
        StartHygienic(s, strayed, cfg, todo[0], local, batchId);
      }
    }
  }

  lemma DecidedHygienic(s: Sys, strayed: set<nat>, task: nat, d: Decision, batchId: string, stray: bool)
    requires TasksOk(s.tasks, s.nextTask, s.heap) && HygieneInv(s, strayed) && task in s.tasks && s.tasks[task].AwaitDecrypt?
    requires CleanAt(d.session, d.threw || stray) && (d.threw ==> d.session.status == Matching && d.matches.None?)
    requires d.session.status != Open
    ensures HygieneInv(Decided(s, task, d, batchId), Mark(strayed, s.tasks[task].h, stray))
  {
    ReplaceHygienic(s, Decided(s, task, d, batchId), strayed, s.tasks[task].h, d.session, d.threw, stray);
  }

  lemma ThrowsNoMatches(v: Session, cfg: Config, replies: seq<Option<Reply>>)
    requires WellFormed(v) && Field.Prime(cfg.p)
    ensures AfterDecrypt(v, cfg, replies).threw ==> AfterDecrypt(v, cfg, replies).matches.None?
  {
  }

  /** A session that waits for shares holds none. */
  lemma WaitingIsClean(s: Sys, strayed: set<nat>, task: nat)
    requires Inv(s) && HygieneInv(s, strayed) && task in s.tasks && s.tasks[task].AwaitDecrypt?
    ensures var h := s.tasks[task].h;
      h in s.heap && s.heap[h].status == Matching && SessionOk(s.heap[h], s.submitted) && Clean(s.heap[h].shares)
  {
    assert TaskOk(s.tasks[task], s.heap);
    assert CleanAt(s.heap[s.tasks[task].h], false);
  }

  lemma DecryptMarks(s: Sys, strayed: set<nat>, cfg: Config, task: nat, replies: seq<Option<Reply>>, batchId: string)
    requires ValidConfig(cfg) && Inv(s) && HygieneInv(s, strayed) && task in s.tasks && s.tasks[task].AwaitDecrypt?
    ensures s.tasks[task].h in s.heap && WellFormed(s.heap[s.tasks[task].h])
    ensures var h := s.tasks[task].h;
      HygieneInv(DoDecrypt(s, cfg, task, replies, batchId), Mark(strayed, h, StrayRound(s.heap[h], cfg, replies)))
  {
    WaitingIsClean(s, strayed, task);
    var v := s.heap[s.tasks[task].h];
    DecisionHygienic(v, cfg, replies, s.submitted);
    DecidedHygienic(s, strayed, task, AfterDecrypt(v, cfg, replies), batchId, StrayRound(v, cfg, replies));
  }

  lemma MarkIsNow(s: Sys, strayed: set<nat>, cfg: Config, e: Step)
    requires ValidConfig(cfg) && e.DecryptReplies? && e.task in s.tasks && s.tasks[e.task].AwaitDecrypt?
    requires s.tasks[e.task].h in s.heap && WellFormed(s.heap[s.tasks[e.task].h])
    ensures var h := s.tasks[e.task].h;
      strayed + StraysNow(s, cfg, e) == Mark(strayed, h, StrayRound(s.heap[h], cfg, e.replies))
  {
  }

  lemma DecryptHygienic(s: Sys, strayed: set<nat>, cfg: Config, task: nat, replies: seq<Option<Reply>>, batchId: string)
    requires ValidConfig(cfg) && Inv(s) && HygieneInv(s, strayed) && task in s.tasks && s.tasks[task].AwaitDecrypt?
    ensures HygieneInv(DoDecrypt(s, cfg, task, replies, batchId),
                       strayed + StraysNow(s, cfg, DecryptReplies(task, replies, batchId)))
  {
    DecryptMarks(s, strayed, cfg, task, replies, batchId);
    MarkIsNow(s, strayed, cfg, DecryptReplies(task, replies, batchId));
  }

  ghost predicate StrayRound(v: Session, cfg: Config, replies: seq<Option<Reply>>)
    requires ValidConfig(cfg) && WellFormed(v)
  {
    AfterDecrypt(v, cfg, replies).matches.Some? && HasStray(cfg, v.shares, replies)
  }

  lemma DecisionHygienic(v: Session, cfg: Config, replies: seq<Option<Reply>>, submitted: set<string>)
    requires ValidConfig(cfg) && SessionOk(v, submitted) && v.status == Matching && Clean(v.shares)
    ensures var d := AfterDecrypt(v, cfg, replies);
      && CleanAt(d.session, d.threw || StrayRound(v, cfg, replies)) && d.session.status != Open
      && (d.threw ==> d.session.status == Matching && d.matches.None?)
  {
    RemoteCleanIff(v, cfg, replies);
    DecryptOk(v, cfg, replies, submitted);
    ThrowsNoMatches(v, cfg, replies);
  }

  lemma SignHygienic(s: Sys, strayed: set<nat>, cfg: Config, task: nat, sigs: seq<Option<Signature>>)
    requires Inv(s) && HygieneInv(s, strayed) && task in s.tasks && s.tasks[task].AwaitSign?
    ensures HygieneInv(DoSign(s, cfg, task, sigs), strayed)
  {
    var t := s.tasks[task];
    assert TaskOk(t, s.heap);
    SignedHygienic(s, DoSign(s, cfg, task, sigs), strayed, t.h, AfterSign(s.heap[t.h], cfg, sigs, t.batchId, t.matches));
  }

  /** A decided session ends its round with the shares it has. */
  lemma SignedHygienic(s: Sys, s': Sys, strayed: set<nat>, h: nat, v: Session)
    requires HygieneInv(s, strayed) && h in s.heap && h !in s.threw && v.shares == s.heap[h].shares && v.status != Open
    requires s.heap[h].status != Failed
    requires s'.heap == s.heap[h := v] && s'.threw == s.threw && forall t :: t in s'.tasks ==> t in s.tasks && s'.tasks[t] == s.tasks[t]
    ensures HygieneInv(s', strayed)
  {
  }

  lemma StepHygienic(s: Sys, strayed: set<nat>, cfg: Config, e: Step)
    requires ValidConfig(cfg) && Inv(s) && HygieneInv(s, strayed)
    ensures HygieneInv(Do(s, cfg, e), strayed + StraysNow(s, cfg, e))
  {
    assert strayed + {} == strayed;
    match e {
      case SubmitIntent(intent, now) => SubmitHygienic(s, strayed, intent, now);
      case Manual(name, local, batchId) =>
        if name in s.dir && s.heap[s.dir[name]].status == Open {
          StartHygienic(s, strayed, cfg, s.dir[name], local, batchId);
        }
      case Tick(local, batchId) =>
        Snapshot(s);
        TimerHygienic(s, strayed, cfg, OpenHandles(s, |s.dirOrder|), local, batchId);
      case Resume(timer, local, batchId) =>
        if timer in s.timers {
          TimerHygienic(s.(timers := s.timers - {timer}), strayed, cfg, s.timers[timer], local, batchId);
        }
      case DecryptReplies(task, replies, batchId) =>
        if task in s.tasks && s.tasks[task].AwaitDecrypt? {
          DecryptHygienic(s, strayed, cfg, task, replies, batchId);
        }
      case SignReplies(task, sigs) =>
        if task in s.tasks && s.tasks[task].AwaitSign? {
          SignHygienic(s, strayed, cfg, task, sigs);
        }
    }
  }

  /** At every await boundary of every run: a session that has not failed holds
      decrypted shares if and only if its round threw or had a stray answer. */
  lemma {:induction false} HygieneExact(cfg: Config, steps: seq<Step>)
    requires ValidConfig(cfg)
    ensures HygieneInv(Run(INIT, cfg, steps), Strayed(cfg, steps))
  {
    if steps != [] {
      var init := steps[..|steps| - 1];
      HygieneExact(cfg, init);
      Reachable(cfg, init);
      StepHygienic(Run(INIT, cfg, init), Strayed(cfg, init), cfg, steps[|steps| - 1]);
    }
  }

  /** Nodes answer under their own endpoint id. */
  ghost predicate ProperStep(cfg: Config, e: Step) {
    e.DecryptReplies? ==> ProperReplies(cfg, e.replies)
  }

  lemma ProperNotStray(s: Sys, strayed: set<nat>, cfg: Config, e: Step)
    requires ValidConfig(cfg) && Inv(s) && HygieneInv(s, strayed) && ProperStep(cfg, e)
    ensures StraysNow(s, cfg, e) == {}
  {
    if e.DecryptReplies? && e.task in s.tasks && s.tasks[e.task].AwaitDecrypt? {
      WaitingIsClean(s, strayed, e.task);
      ProperMeansNoStray(cfg, s.heap[s.tasks[e.task].h].shares, e.replies);
    }
  }

  /** With answers under own ids nothing is stray, so only a throw leaves shares. */
  lemma {:induction false} ProperHygiene(cfg: Config, steps: seq<Step>)
    requires ValidConfig(cfg) && forall i :: 0 <= i < |steps| ==> ProperStep(cfg, steps[i])
    ensures Strayed(cfg, steps) == {} && HygieneInv(Run(INIT, cfg, steps), {})
  {
    HygieneExact(cfg, steps);
    if steps != [] {
      var init := steps[..|steps| - 1];
      ProperHygiene(cfg, init);
      Reachable(cfg, init);
      ProperNotStray(Run(INIT, cfg, init), {}, cfg, steps[|steps| - 1]);
    }
  }

  // ----- a condition on the texts alone -----

  ghost predicate GoodEntry(e: Entry) { e.dec.Some? ==> DecodeShare(e.dec.value).Some? }

  ghost predicate GoodShares(sh: Shares) { forall slot :: slot in sh ==> GoodEntry(sh[slot]) }

  ghost predicate GoodReply(r: Reply) {
    forall id :: id in r.shares && r.shares[id].Some? ==> DecodeShare(r.shares[id].value).Some?
  }

  /** Nobody ever encrypted a text that cannot be decoded. */
  ghost predicate GoodCiphers(cfg: Config) {
    forall node, cipher :: var d := cfg.decrypt(node, cipher); d.Some? && d.value.Some? ==> DecodeShare(d.value.value).Some?
  }

  ghost predicate GoodStep(e: Step) {
    e.DecryptReplies? ==> forall i :: 0 <= i < |e.replies| && e.replies[i].Some? ==> GoodReply(e.replies[i].value)
  }

  lemma {:induction false} GoodDecrypted(sh: Shares, nodes: seq<string>, id: string, n: nat)
    requires n <= |nodes| && GoodShares(sh)
    ensures Decodable(Decrypted(sh, nodes, id, n))
  {
    if n > 0 {
      GoodDecrypted(sh, nodes, id, n - 1);
      var slot := Slot(nodes[n - 1], id);
      assert slot in sh ==> GoodEntry(sh[slot]);
    }
  }

  lemma GoodNeverThrows(sh: Shares, nodes: seq<string>, ids: seq<string>)
    requires GoodShares(sh)
    ensures !Throws(sh, nodes, ids)
  {
    forall k: nat | k < |ids| ensures Decodable(Available(sh, nodes, ids[k])) {
      GoodDecrypted(sh, nodes, ids[k], |nodes|);
    }
  }

  lemma {:induction false} GoodReplies(sh: Shares, replies: seq<Option<Reply>>, n: nat)
    requires GoodShares(sh) && n <= |replies| && forall i :: 0 <= i < n && replies[i].Some? ==> GoodReply(replies[i].value)
    ensures GoodShares(ApplyReplies(sh, replies, n))
  {
    if n > 0 {
      GoodReplies(sh, replies, n - 1);
      GoodApplied(ApplyReplies(sh, replies, n - 1), replies[n - 1]);
    }
  }

  lemma GoodApplied(sh: Shares, r: Option<Reply>)
    requires GoodShares(sh) && (r.Some? ==> GoodReply(r.value))
    ensures r.Some? ==> GoodShares(ApplyReply(sh, r.value))
  {
    if r.Some? {
      forall slot | slot in sh ensures GoodEntry(ApplyReply(sh, r.value)[slot]) {
        assert GoodEntry(sh[slot]);
      }
    }
  }

  lemma LocalGood(m: Session, cfg: Config)
    requires Clean(m.shares) && GoodCiphers(cfg) && DecryptAll(m.shares, cfg, m.order, |cfg.nodes|).ok
    ensures GoodShares(DecryptAll(m.shares, cfg, m.order, |cfg.nodes|).shares)
  {
    var dec := DecryptAll(m.shares, cfg, m.order, |cfg.nodes|);
    AllKeys(m.shares, cfg, m.order, |cfg.nodes|);
    forall slot | slot in dec.shares ensures GoodEntry(dec.shares[slot]) {
      AllOpen(m.shares, cfg, m.order, |cfg.nodes|, slot);
      var d := cfg.decrypt(slot.node, m.shares[slot].cipher);
      assert d.Some? && d.value.Some? ==> DecodeShare(d.value.value).Some?;
    }
  }

  lemma StartQuiet(s: Sys, cfg: Config, h: nat, local: bool, batchId: string)
    requires ValidConfig(cfg) && GoodCiphers(cfg) && Inv(s) && HygieneInv(s, {}) && h in s.heap && s.heap[h].status == Open
    ensures Start(s, cfg, h, local, batchId).threw == s.threw
  {
    OpenIsQuiet(s, {}, h);
    LocalQuiet(s.heap[h].(status := Matching), cfg);
  }

  lemma LocalQuiet(m: Session, cfg: Config)
    requires ValidConfig(cfg) && GoodCiphers(cfg) && WellFormed(m) && Clean(m.shares)
    ensures !LocalDecision(m, cfg).threw
  {
    LocalThrowsIff(m, cfg);
    var dec := DecryptAll(m.shares, cfg, m.order, |cfg.nodes|);
    if dec.ok {
      LocalGood(m, cfg);
      GoodNeverThrows(dec.shares, cfg.nodes, m.order);
    }
  }

  lemma TimerQuiet(s: Sys, cfg: Config, todo: seq<nat>, local: bool, batchId: string)
    requires ValidConfig(cfg) && GoodCiphers(cfg) && Inv(s) && HygieneInv(s, {}) && |todo| <= 1
    requires todo != [] ==> todo[0] in s.heap && s.heap[todo[0]].status == Open
    ensures RunTimer(s, cfg, todo, local, batchId).threw == s.threw
  {
    if todo != [] {
      assert todo[1..] == [];
      assert RunTimer(s, cfg, [], local, batchId) == s;
      StartQuiet(s, cfg, todo[0], local, batchId);
    }
  }

  lemma DecryptQuiet(s: Sys, cfg: Config, task: nat, replies: seq<Option<Reply>>, batchId: string)
    requires ValidConfig(cfg) && Inv(s) && HygieneInv(s, {}) && task in s.tasks && s.tasks[task].AwaitDecrypt?
    requires forall i :: 0 <= i < |replies| && replies[i].Some? ==> GoodReply(replies[i].value)
    ensures DoDecrypt(s, cfg, task, replies, batchId).threw == s.threw
  {
    WaitingIsClean(s, {}, task);
    var v := s.heap[s.tasks[task].h];
    GoodReplies(v.shares, replies, |replies|);
    GoodNeverThrows(ApplyReplies(v.shares, replies, |replies|), cfg.nodes, v.order);
    RemoteThrowsIff(v, cfg, replies);
  }

  lemma StepQuiet(s: Sys, cfg: Config, e: Step)
    requires ValidConfig(cfg) && GoodCiphers(cfg) && Inv(s) && HygieneInv(s, {}) && GoodStep(e)
    ensures Do(s, cfg, e).threw == s.threw
  {
    match e {
      case SubmitIntent(intent, now) =>
      case Manual(name, local, batchId) =>
        if name in s.dir && s.heap[s.dir[name]].status == Open {
          StartQuiet(s, cfg, s.dir[name], local, batchId);
        }
      case Tick(local, batchId) =>
        Snapshot(s);
        TimerQuiet(s, cfg, OpenHandles(s, |s.dirOrder|), local, batchId);
      case Resume(timer, local, batchId) =>
        if timer in s.timers {
          TimerQuiet(s.(timers := s.timers - {timer}), cfg, s.timers[timer], local, batchId);
        }
      case DecryptReplies(task, replies, batchId) =>
        if task in s.tasks && s.tasks[task].AwaitDecrypt? {
          DecryptQuiet(s, cfg, task, replies, batchId);
        }
      case SignReplies(task, sigs) =>
    }
  }

  /** If all texts can be decoded no round throws, and only failed sessions hold
      decrypted shares. */
  lemma {:induction false} HygieneOverRuns(cfg: Config, steps: seq<Step>)
    requires ValidConfig(cfg) && GoodCiphers(cfg)
    requires forall i :: 0 <= i < |steps| ==> ProperStep(cfg, steps[i]) && GoodStep(steps[i])
    ensures var s := Run(INIT, cfg, steps);
      s.threw == {} && forall h :: h in s.heap ==> s.heap[h].status == Failed || Clean(s.heap[h].shares)
  {
    ProperHygiene(cfg, steps);
    if steps != [] {
      var init := steps[..|steps| - 1];
      HygieneOverRuns(cfg, init);
      ProperHygiene(cfg, init);
      Reachable(cfg, init);
      StepQuiet(Run(INIT, cfg, init), cfg, steps[|steps| - 1]);
    }
    var s := Run(INIT, cfg, steps);
    forall h | h in s.heap ensures s.heap[h].status == Failed || Clean(s.heap[h].shares) {
      assert CleanAt(s.heap[h], false);
    }
  }

  // ----- one undecodable share in a run -----

  lemma PutThree(sh: Shares, id: string)
    ensures var e := Entry("", None);
      PutShares(sh, id, CIPHERS) == sh[Slot("n0", id) := e][Slot("n1", id) := e][Slot("n2", id) := e]
  {
    var c, e := CIPHERS, Entry("", None);
    assert c[..1][..0] == [] && c[..2][..1] == c[..1] && c[..3] == c && c[..1][0] == c[0] && c[..2][1] == c[1];
    assert PutShares(sh, id, []) == sh;
    assert PutShares(sh, id, c[..1]) == sh[Slot("n0", id) := e];
    assert PutShares(sh, id, c[..2]) == sh[Slot("n0", id) := e][Slot("n1", id) := e];
  }

  lemma TwoSubmitted()
    ensures Submit(Submit(EmptySession("session-0"), A), B) == TwoIntents().(status := Open)
    ensures |TwoIntents().intents| == 2 && WellFormed(TwoIntents())
  {
    var s := Submit(EmptySession("session-0"), A);
    PutThree(map[], "a");
    PutThree(s.shares, "b");
    assert TwoIntents().intents.Keys == {"a", "b"};
    assert |{"a", "b"}| == 2;
  }

  /** The committee with the one session v. */
  function With(v: Session, submitted: set<string>): Sys {
    Sys(map[0 := v], map["session-0" := 0], ["session-0"], 1, map[], 0, map[], 0, submitted, [], {})
  }

  lemma FirstSubmit()
    ensures DoSubmit(INIT, A, "0") == With(Submit(EmptySession("session-0"), A), {"a"})
  {
    assert "session-" + "0" == "session-0";
    assert OpenHandles(INIT, 0) == [];
  }

  lemma SecondSubmit(v: Session)
    requires v.status == Open
    ensures DoSubmit(With(v, {"a"}), B, "0") == With(Submit(v, B), {"a", "b"})
  {
    var s := With(v, {"a"});
    assert OpenAt(s, 0) && OpenHandles(s, 0) == [];
    assert OpenHandles(s, 1) == [0];
  }

  /** The state in which the round on A and B waits for decrypted shares. */
  function WaitingState(): Sys {
    With(TwoIntents(), {"a", "b"}).(tasks := map[0 := AwaitDecrypt(0, ["a", "b"])], nextTask := 1, log := [Started(0)])
  }

  lemma ManualStarts(s: Sys, cfg: Config, name: string, local: bool, batchId: string)
    requires ValidConfig(cfg) && name in s.dir && s.dir[name] in s.heap && s.heap[s.dir[name]].status == Open
    ensures Do(s, cfg, Manual(name, local, batchId)) == Start(s, cfg, s.dir[name], local, batchId)
  {
  }

  lemma RoundStarted(cfg: Config)
    requires ValidConfig(cfg)
    ensures Do(With(TwoIntents().(status := Open), {"a", "b"}), cfg, Manual("session-0", false, "")) == WaitingState()
  {
    var s := With(TwoIntents().(status := Open), {"a", "b"});
    ManualStarts(s, cfg, "session-0", false, "");
    FirstRound(cfg);
  }

  lemma FirstRound(cfg: Config)
    requires ValidConfig(cfg)
    ensures Start(With(TwoIntents().(status := Open), {"a", "b"}), cfg, 0, false, "") == WaitingState()
  {
    TwoSubmitted();
    assert Begin(TwoIntents().(status := Open)) == TwoIntents();
  }

  const WAIT := [SubmitIntent(A, "0"), SubmitIntent(B, "0"), Manual("session-0", false, "")]

  lemma Waiting(cfg: Config)
    requires ValidConfig(cfg)
    ensures Run(INIT, cfg, WAIT) == WaitingState()
  {
    FirstSubmit();
    SecondSubmit(Submit(EmptySession("session-0"), A));
    TwoSubmitted();
    RoundStarted(cfg);
    RunThree(cfg, WAIT[0], WAIT[1], WAIT[2]);
    assert WAIT == [WAIT[0], WAIT[1], WAIT[2]];
  }

  lemma RunThree(cfg: Config, a: Step, b: Step, c: Step)
    requires ValidConfig(cfg)
    ensures Run(INIT, cfg, [a, b, c]) == Do(Do(Do(INIT, cfg, a), cfg, b), cfg, c)
  {
    assert [a, b, c][..2] == [a, b] && [a, b][..1] == [a] && [a][..0] == [];
    assert Run(INIT, cfg, []) == INIT;
    assert Run(INIT, cfg, [a]) == Do(INIT, cfg, a);
    assert Run(INIT, cfg, [a, b]) == Do(Do(INIT, cfg, a), cfg, b);
  }

  /** A matching session with decrypted shares that nobody works on. */
  ghost predicate Stuck(s: Sys) {
    0 in s.heap && s.heap[0].status == Matching && !Clean(s.heap[0].shares) && s.tasks == map[]
  }

  const BAD := DecryptReplies(0, OneBadAnswer(), "")

  /** The round on A and B throws. */
  lemma RoundStalls(cfg: Config)
    requires ValidConfig(cfg) && cfg.nodes == ["n0", "n1", "n2"]
    ensures Stuck(DoDecrypt(WaitingState(), cfg, 0, OneBadAnswer(), ""))
  {
    UndecodableWitness(cfg);
    ThrowsNoMatches(TwoIntents(), cfg, OneBadAnswer());
  }

  lemma BadStep(s: Sys, cfg: Config)
    requires ValidConfig(cfg)
    ensures Do(s, cfg, BAD) == DoDecrypt(s, cfg, 0, OneBadAnswer(), "")
  {
  }

  lemma StallsAfter(cfg: Config, steps: seq<Step>)
    requires ValidConfig(cfg) && cfg.nodes == ["n0", "n1", "n2"] && Run(INIT, cfg, steps) == WaitingState()
    ensures Stuck(Run(INIT, cfg, steps + [BAD]))
  {
    assert (steps + [BAD])[..|steps|] == steps;
    BadStep(Run(INIT, cfg, steps), cfg);
    RoundStalls(cfg);
  }

  lemma BadIsProper(cfg: Config)
    requires cfg.nodes == ["n0", "n1", "n2"]
    ensures ProperStep(cfg, BAD)
  {
    OneBadAnswerServed(cfg);
  }

  /** One client's undecodable share, served under the node's own id, leaves a
      matching session with decrypted shares that nobody works on any more. */
  lemma StallWitness(cfg: Config)
    requires ValidConfig(cfg) && cfg.nodes == ["n0", "n1", "n2"]
    ensures forall e :: e in WAIT + [BAD] ==> ProperStep(cfg, e)
    ensures Stuck(Run(INIT, cfg, WAIT + [BAD]))
  {
    assert forall e :: e in WAIT ==> !e.DecryptReplies?;
    BadIsProper(cfg);
    Waiting(cfg);
    StallsAfter(cfg, WAIT);
  }

  // ----- one stray answer -----

  const GHOST := Slot("ghost", "a")

  /** A and B wait, and A came with a share for a node that is no endpoint. */
  function WithGhost(): Session {
    TwoIntents().(shares := TwoIntents().shares[GHOST := Entry("", None)])
  }

  function ShareText(x: int): Text { EncodeShare(Polynomial.Point(x, 5)) }

  /** Two endpoints answer well, the third under the foreign id. */
  function GhostAnswers(): seq<Option<Reply>> {
    [Some(Reply("n0", map["a" := Some(ShareText(1)), "b" := Some(ShareText(1))])),
     Some(Reply("n1", map["a" := Some(ShareText(2)), "b" := Some(ShareText(2))])),
     Some(Reply("ghost", map["a" := Some(ShareText(3))]))]
  }

  lemma GhostFine()
    ensures WellFormed(WithGhost()) && Clean(WithGhost().shares)
  {
  }

  lemma GhostGood()
    ensures forall i :: 0 <= i < 3 ==> GoodReply(GhostAnswers()[i].value)
  {
    DecodeEncode(Polynomial.Point(1, 5));
    DecodeEncode(Polynomial.Point(2, 5));
    DecodeEncode(Polynomial.Point(3, 5));
  }

  /** Endpoint i's own share of an intent arrives. */
  lemma GhostServed(i: nat, id: string)
    requires i < 2 && (id == "a" || id == "b")
    ensures Holds(ApplyReplies(WithGhost().shares, GhostAnswers(), 3), ["n0", "n1", "n2"], id, i)
  {
    var slot := Slot(["n0", "n1", "n2"][i], id);
    assert slot in WithGhost().shares;
    LastWord(WithGhost().shares, GhostAnswers(), 3, slot, i);
  }

  lemma GhostAvailable(nodes: seq<string>, id: string)
    requires nodes == ["n0", "n1", "n2"] && (id == "a" || id == "b")
    ensures |Available(ApplyReplies(WithGhost().shares, GhostAnswers(), 3), nodes, id)| >= 2
  {
    GhostServed(0, id);
    GhostServed(1, id);
    AvailableIff(ApplyReplies(WithGhost().shares, GhostAnswers(), 3), nodes, id);
  }

  lemma GhostGoodShares()
    ensures GoodShares(ApplyReplies(WithGhost().shares, GhostAnswers(), 3))
  {
    GhostFine();
    GhostGood();
    assert GoodShares(WithGhost().shares);
    GoodReplies(WithGhost().shares, GhostAnswers(), 3);
  }

  /** Two decodable shares each are enough. */
  lemma GoodAreDone(sh: Shares, nodes: seq<string>, ids: seq<string>)
    requires GoodShares(sh) && forall j :: 0 <= j < |ids| ==> |Available(sh, nodes, ids[j])| >= 2
    ensures LoopEnd(sh, nodes, ids, |ids|).Done?
  {
    forall j | 0 <= j < |ids| ensures Decodable(Available(sh, nodes, ids[j])) {
      GoodDecrypted(sh, nodes, ids[j], |nodes|);
    }
    EndOfServed(sh, nodes, ids);
  }

  lemma TwoAreDone(sh: Shares, nodes: seq<string>, ids: seq<string>)
    requires GoodShares(sh) && |ids| == 2 && |Available(sh, nodes, ids[0])| >= 2 && |Available(sh, nodes, ids[1])| >= 2
    ensures LoopEnd(sh, nodes, ids, |ids|).Done?
  {
    forall j | 0 <= j < |ids| ensures |Available(sh, nodes, ids[j])| >= 2 {
      assert j == 0 || j == 1;
    }
    GoodAreDone(sh, nodes, ids);
  }

  /** The round of A and B goes on to signing. */
  lemma GhostDone(nodes: seq<string>, ids: seq<string>)
    requires nodes == ["n0", "n1", "n2"] && ids == ["a", "b"]
    ensures LoopEnd(ApplyReplies(WithGhost().shares, GhostAnswers(), 3), nodes, ids, |ids|).Done?
  {
    var sh := ApplyReplies(WithGhost().shares, GhostAnswers(), 3);
    assert GoodShares(sh) by {
      GhostGoodShares();
    }
    assert |Available(sh, nodes, ids[0])| >= 2 by {
      GhostAvailable(nodes, ids[0]);
    }
    assert |Available(sh, nodes, ids[1])| >= 2 by {
      GhostAvailable(nodes, ids[1]);
    }
    TwoAreDone(sh, nodes, ids);
  }

  /** A round that goes on to signing after a stray answer leaves a share. */
  lemma StrayGoesOn(v: Session, cfg: Config, replies: seq<Option<Reply>>, slot: Slot, i: nat)
    requires WellFormed(v) && ValidConfig(cfg) && Clean(v.shares) && v.status == Matching
    requires Count(replies) >= Threshold(|cfg.nodes|) && Stray(cfg, v.shares, replies, slot, i)
    requires LoopEnd(ApplyReplies(v.shares, replies, |replies|), cfg.nodes, v.order, |v.order|).Done?
    ensures var d := AfterDecrypt(v, cfg, replies);
      d.matches.Some? && d.session.status == Matching && !Clean(d.session.shares)
  {
    RemoteCleanIff(v, cfg, replies);
  }

  lemma GhostStrays(cfg: Config)
    requires cfg.nodes == ["n0", "n1", "n2"]
    ensures Stray(cfg, WithGhost().shares, GhostAnswers(), GHOST, 2) && Count(GhostAnswers()) >= 3
  {
    CountAtLeast(GhostAnswers(), {0 as nat, 1, 2});
  }

  /** An answer under a foreign node id: the round goes on to signing, and a share
      outlives the clearing. */
  lemma StrayWitness(cfg: Config)
    requires ValidConfig(cfg) && cfg.nodes == ["n0", "n1", "n2"]
    ensures WellFormed(WithGhost()) && Clean(WithGhost().shares)
    ensures var d := AfterDecrypt(WithGhost(), cfg, GhostAnswers());
      d.matches.Some? && d.session.status == Matching && !Clean(d.session.shares)
  {
    GhostFine();
    GhostDone(cfg.nodes, WithGhost().order);
    GhostStrays(cfg);
    StrayGoesOn(WithGhost(), cfg, GhostAnswers(), GHOST, 2);
  }
}
