/** The committee as a step system. Its atomic steps are the stretches of code
    between awaits: submissions (state.ts), the manual match handler and the
    auto-match timer (coordinator-server.ts, server.ts), and the continuations
    of a remote round (remote-coordinator.ts).

    Session objects live under handles, so a session that was replaced in the
    directory by one with the same clock reading is still there for the rounds
    that hold it. Timers may resume at any moment, which includes every moment at
    which the program resumes them. */
module Protocol {
  import opened Wrappers
  import opened Field
  import Netting
  import NettingOptimal
  import opened Session
  import CommitteeState
  import Rounds

  /** A remote round waiting for its nodes: for the shares of the intents `ids`
      it asked them to decrypt, or for their signatures. */
  datatype Task = AwaitDecrypt(h: nat, ids: seq<string>) | AwaitSign(h: nat, batchId: string, matches: seq<Netting.Match>)

  datatype Event = Started(h: nat) | BatchSigned(h: nat, batch: Batch)

  /** dir and dirOrder: the `sessions` map by name, in insertion order; timers:
      the sessions each running timer tick has not looked at yet; submitted: all
      intent ids ever added; log: history; threw: the sessions whose round ended
      in an exception, which nothing catches before the handler or timer. */
  datatype Sys = Sys(heap: map<nat, Session>, dir: map<string, nat>, dirOrder: seq<string>, next: nat,
                     tasks: map<nat, Task>, nextTask: nat, timers: map<nat, seq<nat>>, nextTimer: nat,
                     submitted: set<string>, log: seq<Event>, threw: set<nat>)

  datatype Step =
    | SubmitIntent(intent: MpcIntent, now: string)
    | Manual(name: string, local: bool, batchId: string)
    | Tick(local: bool, batchId: string)
    | Resume(timer: nat, local: bool, batchId: string)
    | DecryptReplies(task: nat, replies: seq<Option<Reply>>, batchId: string)
    | SignReplies(task: nat, sigs: seq<Option<Signature>>)

  const INIT := Sys(map[], map[], [], 0, map[], 0, map[], 0, {}, [], {})

  // ----- the steps -----

  /** The i-th registered session is open. */
  predicate OpenAt(s: Sys, i: nat) {
    && i < |s.dirOrder| && s.dirOrder[i] in s.dir
    && s.dir[s.dirOrder[i]] in s.heap && s.heap[s.dir[s.dirOrder[i]]].status == Open
  }

  /** `getOpenSessions`: handles of the open sessions among the first n names. */
  function OpenHandles(s: Sys, n: nat): seq<nat>
    requires n <= |s.dirOrder|
  {
    if n == 0 then []
    else
      var prev := OpenHandles(s, n - 1);
      if OpenAt(s, n - 1) then prev + [s.dir[s.dirOrder[n - 1]]] else prev
  }

  /** `addIntent` on the open session, or on a new one named by the clock. */
  function DoSubmit(s: Sys, intent: MpcIntent, now: string): Sys {
    var open := OpenHandles(s, |s.dirOrder|);
    var s1 := s.(submitted := s.submitted + {intent.id});
    if open != [] then
      if open[0] in s.heap then s1.(heap := s.heap[open[0] := Submit(s.heap[open[0]], intent)]) else s1
    else
      var name := "session-" + now;
      s1.(heap := s.heap[s.next := Submit(EmptySession(name), intent)],
          dir := s.dir[name := s.next],
          dirOrder := if name in s.dirOrder then s.dirOrder else s.dirOrder + [name],
          next := s.next + 1)
  }

  /** A finished round is recorded, with its batch if there is one. */
  function DoneLog(log: seq<Event>, h: nat, v: Session): seq<Event> {
    log + (if v.status == Signed && v.batch.Some? then [BatchSigned(h, v.batch.value)] else [])
  }

  /** Start a round on a session object, whatever its status: neither round
      function looks at it. */
  ghost function Start(s: Sys, cfg: Config, h: nat, local: bool, batchId: string): Sys
    requires ValidConfig(cfg)
  {
    if h !in s.heap || !WellFormed(s.heap[h]) || |s.heap[h].intents| < 2 then s
    else if local then
      var done := LocalRound(s.heap[h], cfg, batchId);
      s.(heap := s.heap[h := done], log := DoneLog(s.log + [Started(h)], h, done),
         threw := if LocalDecision(s.heap[h].(status := Matching), cfg).threw then s.threw + {h} else s.threw)
    else
      s.(heap := s.heap[h := Begin(s.heap[h])], tasks := s.tasks[s.nextTask := AwaitDecrypt(h, s.heap[h].order)],
         nextTask := s.nextTask + 1, log := s.log + [Started(h)])
  }

  /** The timer's loop over its snapshot, up to the first await. It never looks
      at the status again. */
  ghost function RunTimer(s: Sys, cfg: Config, todo: seq<nat>, local: bool, batchId: string): Sys
    requires ValidConfig(cfg)
  {
    if todo == [] then s
    else if todo[0] !in s.heap || |s.heap[todo[0]].intents| < 2 then RunTimer(s, cfg, todo[1..], local, batchId)
    else
      var s1 := Start(s, cfg, todo[0], local, batchId);
      s1.(timers := s1.timers[s1.nextTimer := todo[1..]], nextTimer := s1.nextTimer + 1)
  }

  /** A remote round goes on when its decrypt answers are in. */
  ghost function DoDecrypt(s: Sys, cfg: Config, task: nat, replies: seq<Option<Reply>>, batchId: string): Sys
    requires ValidConfig(cfg)
  {
    if task in s.tasks && s.tasks[task].AwaitDecrypt? && s.tasks[task].h in s.heap && WellFormed(s.heap[s.tasks[task].h])
    then
      var h := s.tasks[task].h;
      Decided(s, task, AfterDecrypt(s.heap[h], cfg, replies), batchId)
    else s
  }

  function Decided(s: Sys, task: nat, d: Decision, batchId: string): Sys
    requires task in s.tasks
  {
    var h := s.tasks[task].h;
    s.(heap := s.heap[h := d.session],
       tasks := if d.matches.Some? then s.tasks[task := AwaitSign(h, batchId, d.matches.value)] else s.tasks - {task},
       threw := if d.threw then s.threw + {h} else s.threw)
  }

  /** A remote round ends when its signatures are in. */
  function DoSign(s: Sys, cfg: Config, task: nat, sigs: seq<Option<Signature>>): Sys {
    if task in s.tasks && s.tasks[task].AwaitSign? && s.tasks[task].h in s.heap
    then
      var t := s.tasks[task];
      var done := AfterSign(s.heap[t.h], cfg, sigs, t.batchId, t.matches);
      s.(heap := s.heap[t.h := done], tasks := s.tasks - {task}, log := DoneLog(s.log, t.h, done))
    else s
  }

  ghost function Do(s: Sys, cfg: Config, e: Step): Sys
    requires ValidConfig(cfg)
  {
    match e
    case SubmitIntent(intent, now) => DoSubmit(s, intent, now)
    case Manual(name, local, batchId) =>
      if name in s.dir && s.dir[name] in s.heap && s.heap[s.dir[name]].status == Open
      then Start(s, cfg, s.dir[name], local, batchId) else s
    case Tick(local, batchId) => RunTimer(s, cfg, OpenHandles(s, |s.dirOrder|), local, batchId)
    case Resume(timer, local, batchId) =>
      if timer in s.timers then RunTimer(s.(timers := s.timers - {timer}), cfg, s.timers[timer], local, batchId) else s
    case DecryptReplies(task, replies, batchId) => DoDecrypt(s, cfg, task, replies, batchId)
    case SignReplies(task, sigs) => DoSign(s, cfg, task, sigs)
  }

  ghost function Run(s: Sys, cfg: Config, steps: seq<Step>): Sys
    requires ValidConfig(cfg)
  {
    if steps == [] then s else Do(Run(s, cfg, steps[..|steps| - 1]), cfg, steps[|steps| - 1])
  }

  // ----- history -----

  function Starts(log: seq<Event>, h: nat): nat {
    if log == [] then 0
    else Starts(log[..|log| - 1], h) + (if log[|log| - 1] == Started(h) then 1 else 0)
  }

  function Signings(log: seq<Event>, h: nat): nat {
    if log == [] then 0
    else Signings(log[..|log| - 1], h) + (if log[|log| - 1].BatchSigned? && log[|log| - 1].h == h then 1 else 0)
  }

  lemma LogSnoc(log: seq<Event>, e: Event, h: nat)
    ensures Starts(log + [e], h) == Starts(log, h) + (if e == Started(h) then 1 else 0)
    ensures Signings(log + [e], h) == Signings(log, h) + (if e.BatchSigned? && e.h == h then 1 else 0)
  {
    assert (log + [e])[..|log|] == log;
  }

  // ----- the invariant -----

  /** The matches pair distinct intents of the session, each at most once. */
  ghost predicate SoundMatches(ms: seq<Netting.Match>, s: Session) {
    && (forall i :: 0 <= i < |ms| ==> ms[i].aId in s.intents && ms[i].bId in s.intents && ms[i].aId != ms[i].bId)
    && (forall i, j :: 0 <= i < j < |ms| ==> {ms[i].aId, ms[i].bId} !! {ms[j].aId, ms[j].bId})
  }

  ghost predicate SessionOk(s: Session, submitted: set<string>) {
    && WellFormed(s)
    && s.intents.Keys <= submitted
    && (s.status == Signed <==> s.batch.Some?)
    && (s.batch.Some? ==> SoundMatches(s.batch.value.matches, s))
  }

  ghost predicate HeapOk(s: Sys) {
    && (forall h :: h in s.heap ==> h < s.next && SessionOk(s.heap[h], s.submitted))
    && (forall h, h' :: h in s.heap && h' in s.heap && s.heap[h].status == Open && s.heap[h'].status == Open ==> h == h')
    && (forall h :: h in s.heap && s.heap[h].status == Open ==> s.heap[h].name in s.dir && s.dir[s.heap[h].name] == h)
  }

  ghost predicate DirOk(s: Sys) {
    && (forall k :: k in s.dirOrder <==> k in s.dir)
    && (forall k :: k in s.dir ==> s.dir[k] in s.heap && s.heap[s.dir[k]].name == k)
    && (forall i, j :: 0 <= i < j < |s.dirOrder| ==> s.dirOrder[i] != s.dirOrder[j])
  }

  type Heap = map<nat, Session>

  /** A task works on a session that is matching. */
  ghost predicate TaskOk(t: Task, heap: Heap) {
    && t.h in heap && heap[t.h].status == Matching
    && (t.AwaitDecrypt? ==> t.ids == heap[t.h].order)
    && (t.AwaitSign? ==> SoundMatches(t.matches, heap[t.h]))
  }

  /** No two tasks work on the same session. */
  ghost predicate TasksOk(tasks: map<nat, Task>, nextTask: nat, heap: Heap) {
    && (forall t :: t in tasks ==> t < nextTask && TaskOk(tasks[t], heap))
    && (forall t, u :: t in tasks && u in tasks && tasks[t].h == tasks[u].h ==> t == u)
  }

  ghost predicate TimersOk(s: Sys) {
    forall t :: t in s.timers ==> t < s.nextTimer && s.timers[t] == []
  }

  /** How often a session's round must have been started, and its batch signed. */
  function RoundsOf(heap: Heap, h: nat): nat { if h in heap && heap[h].status != Open then 1 else 0 }

  function BatchesOf(heap: Heap, h: nat): nat { if h in heap && heap[h].status == Signed then 1 else 0 }

  /** One round was started on every session that left `open`, none on the
      others; one batch was signed for every signed session, none else. */
  ghost predicate LogOk(log: seq<Event>, heap: Heap) {
    forall h :: Starts(log, h) == RoundsOf(heap, h) && Signings(log, h) == BatchesOf(heap, h)
  }

  ghost predicate Inv(s: Sys) {
    HeapOk(s) && DirOk(s) && TasksOk(s.tasks, s.nextTask, s.heap) && TimersOk(s) && LogOk(s.log, s.heap)
  }

  // ----- effect of a round on one session -----

  /** The status only moves forward; once the session is not open its intents
      are frozen, and once it is signed or failed nothing about it changes. */
  ghost predicate Forward(s: Session, s': Session) {
    && s.name == s'.name
    && (s'.status == Open ==> s.status == Open)
    && (s'.status == Matching ==> s.status == Open || s.status == Matching)
    && (s.status != Open ==> s.intents == s'.intents && s.order == s'.order)
    && (s.status == Signed || s.status == Failed ==> s == s')
  }

  lemma PlainUnique(s: Session, sh: Shares, cfg: Config)
    requires WellFormed(s) && Prime(cfg.p)
    ensures Netting.UniqueIds(PlainIntents(s, sh, cfg, |s.order|))
  {
  }

  /** The matcher's output on the session's intents is sound. */
  lemma ConcludeSound(s: Session, sh: Shares, cfg: Config)
    requires WellFormed(s) && ValidConfig(cfg) && Conclude(s, sh, cfg).matches.Some?
    ensures SoundMatches(Conclude(s, sh, cfg).matches.value, s)
  {
    PlainUnique(s, sh, cfg);
    MatcherSound(PlainIntents(s, sh, cfg, |s.order|), cfg, s);
  }

  lemma MatcherSound(rec: seq<Netting.Intent>, cfg: Config, s: Session)
    requires ValidConfig(cfg) && Netting.UniqueIds(rec) && forall i :: 0 <= i < |rec| ==> rec[i].id in s.intents
    ensures SoundMatches(Netting.Matches(Netting.Pairs(rec, cfg.sort)), s)
  {
    NettingOptimal.PairsAreMatching(rec, cfg.sort);
    PairsSound(rec, Netting.Pairs(rec, cfg.sort), s);
  }

  lemma PairsSound(rec: seq<Netting.Intent>, ps: seq<Netting.Pair>, s: Session)
    requires NettingOptimal.IsMatching(rec, ps) && forall i :: 0 <= i < |rec| ==> rec[i].id in s.intents
    ensures SoundMatches(Netting.Matches(ps), s)
  {
    var ms := Netting.Matches(ps);
    forall i | 0 <= i < |ms| ensures ms[i].aId in s.intents && ms[i].bId in s.intents && ms[i].aId != ms[i].bId {
      assert NettingOptimal.Complementary(rec, ps[i]);
    }
    forall i, j | 0 <= i < j < |ms| ensures {ms[i].aId, ms[i].bId} !! {ms[j].aId, ms[j].bId} {
      assert NettingOptimal.PairsDisjoint(ps[i], ps[j]);
    }
  }

  /** Concluding keeps the session's intents and decides sound matches, fails the
      session or throws. */
  ghost predicate DecisionOk(d: Decision, s: Session, submitted: set<string>) {
    && SessionOk(d.session, submitted) && Forward(s, d.session)
    && d.session.status == (if d.matches.Some? || d.threw then Matching else Failed)
    && (d.matches.Some? ==> SoundMatches(d.matches.value, d.session))
  }

  /** A round changes only the status and the shares. */
  lemma ConcludeShape(s: Session, sh: Shares, cfg: Config)
    requires Prime(cfg.p) && WellFormed(s)
    ensures var d := Conclude(s, sh, cfg);
            && d.session == s.(status := d.session.status, shares := d.session.shares)
            && d.session.status == (if d.matches.Some? || d.threw then s.status else Failed)
  {
  }

  lemma RoundFrame(s: Session, status: Status, shares: Shares, submitted: set<string>)
    requires SessionOk(s, submitted) && s.status == Matching && (status == Matching || status == Failed)
    ensures var v := s.(status := status, shares := shares); SessionOk(v, submitted) && Forward(s, v)
  {
  }

  lemma ConcludeFrame(s: Session, sh: Shares, cfg: Config, submitted: set<string>)
    requires Prime(cfg.p) && SessionOk(s, submitted) && s.status == Matching
    ensures var d := Conclude(s, sh, cfg);
            && SessionOk(d.session, submitted) && Forward(s, d.session) && d.session.intents == s.intents
            && d.session.status == (if d.matches.Some? || d.threw then Matching else Failed)
  {
    var d := Conclude(s, sh, cfg);
    ConcludeShape(s, sh, cfg);
    RoundFrame(s, d.session.status, d.session.shares, submitted);
  }

  lemma SoundTransfers(ms: seq<Netting.Match>, s: Session, s': Session)
    requires SoundMatches(ms, s) && s.intents == s'.intents
    ensures SoundMatches(ms, s')
  {
  }

  lemma ConcludeOk(s: Session, sh: Shares, cfg: Config, submitted: set<string>)
    requires ValidConfig(cfg) && SessionOk(s, submitted) && s.status == Matching
    ensures DecisionOk(Conclude(s, sh, cfg), s, submitted)
  {
    var d := Conclude(s, sh, cfg);
    ConcludeFrame(s, sh, cfg, submitted);
    if d.matches.Some? {
      ConcludeSound(s, sh, cfg);
      SoundTransfers(d.matches.value, s, d.session);
    }
  }

  lemma SealOk(d: Decision, s: Session, cfg: Config, batchId: string, submitted: set<string>)
    requires s.status == Matching && DecisionOk(d, s, submitted)
    ensures var r := Seal(d, cfg, batchId);
            SessionOk(r, submitted) && Forward(s, r) && r.status != Open
  {
  }

  /** A local round leaves an open session signed, failed or, if it throws,
      matching. */
  lemma LocalOk(s: Session, cfg: Config, batchId: string, submitted: set<string>)
    requires ValidConfig(cfg) && SessionOk(s, submitted) && s.status == Open && |s.intents| >= 2
    ensures var r := LocalRound(s, cfg, batchId);
            SessionOk(r, submitted) && Forward(s, r) && r.status != Open
  {
    var m := s.(status := Matching);
    var dec := DecryptAll(m.shares, cfg, m.order, |cfg.nodes|);
    if dec.ok {
      ConcludeOk(m, dec.shares, cfg, submitted);
      SealOk(Conclude(m, dec.shares, cfg), m, cfg, batchId, submitted);
    }
  }

  lemma DecryptOk(s: Session, cfg: Config, replies: seq<Option<Reply>>, submitted: set<string>)
    requires ValidConfig(cfg) && SessionOk(s, submitted) && s.status == Matching
    ensures DecisionOk(AfterDecrypt(s, cfg, replies), s, submitted)
  {
    ConcludeOk(s, ApplyReplies(s.shares, replies, |replies|), cfg, submitted);
  }

  // ----- the timer's snapshot -----

  ghost predicate OneOpenAt(s: Sys) {
    forall i: nat, j: nat :: OpenAt(s, i) && OpenAt(s, j) ==> i == j
  }

  lemma OpenIsUnique(s: Sys)
    requires HeapOk(s) && DirOk(s)
    ensures OneOpenAt(s)
  {
    forall i: nat, j: nat | OpenAt(s, i) && OpenAt(s, j) ensures i == j {
      assert s.dir[s.dirOrder[i]] == s.dir[s.dirOrder[j]];
      assert s.dirOrder[i] == s.dirOrder[j];
      assert !(i < j) && !(j < i);
    }
  }

  /** A snapshot of the open sessions has at most one element. */
  lemma {:induction false} SnapshotSmall(s: Sys, n: nat)
    requires n <= |s.dirOrder| && OneOpenAt(s)
    ensures OpenHandles(s, n) == [] ==> forall i :: 0 <= i < n ==> !OpenAt(s, i)
    ensures OpenHandles(s, n) != [] ==> exists i :: 0 <= i < n && OpenAt(s, i) && OpenHandles(s, n) == [s.dir[s.dirOrder[i]]]
  {
    if n > 0 {
      SnapshotSmall(s, n - 1);
    }
  }

  lemma OpenIsListed(s: Sys, h: nat)
    requires HeapOk(s) && DirOk(s) && h in s.heap && s.heap[h].status == Open
    ensures exists i: nat :: OpenAt(s, i) && s.dir[s.dirOrder[i]] == h
  {
    var k := s.heap[h].name;
    assert k in s.dirOrder;
    var i :| 0 <= i < |s.dirOrder| && s.dirOrder[i] == k;
    assert OpenAt(s, i);
  }

  /** The snapshot is the open session, if there is one. */
  lemma Snapshot(s: Sys)
    requires HeapOk(s) && DirOk(s)
    ensures var open := OpenHandles(s, |s.dirOrder|);
            if open == [] then forall h :: h in s.heap ==> s.heap[h].status != Open
            else |open| == 1 && open[0] in s.heap && s.heap[open[0]].status == Open
  {
    OpenIsUnique(s);
    SnapshotSmall(s, |s.dirOrder|);
    forall h | h in s.heap && s.heap[h].status == Open ensures exists i: nat :: OpenAt(s, i) {
      OpenIsListed(s, h);
    }
  }

  // ----- every step keeps the invariant -----

  ghost predicate AllForward(s: Sys, s': Sys) {
    && s.submitted <= s'.submitted
    && forall h :: h in s.heap ==> h in s'.heap && Forward(s.heap[h], s'.heap[h])
  }

  /** Replacing a session by a later version of itself that is open only if it
      was, with tasks and log left alone. */
  lemma ReplaceKeeps(s: Sys, h: nat, v: Session)
    requires HeapOk(s) && DirOk(s) && h in s.heap && SessionOk(v, s.submitted) && Forward(s.heap[h], v)
    ensures HeapOk(s.(heap := s.heap[h := v])) && DirOk(s.(heap := s.heap[h := v]))
    ensures AllForward(s, s.(heap := s.heap[h := v]))
  {
  }

  lemma SubmitOk(s: Session, intent: MpcIntent, submitted: set<string>)
    requires SessionOk(s, submitted) && s.status == Open
    ensures SessionOk(Submit(s, intent), submitted + {intent.id}) && Forward(s, Submit(s, intent))
    ensures Submit(s, intent).status == Open
  {
    CommitteeState.SubmitWellFormed(s, intent);
  }

  lemma SubmittedGrows(s: Sys, id: string)
    requires Inv(s)
    ensures Inv(s.(submitted := s.submitted + {id})) && AllForward(s, s.(submitted := s.submitted + {id}))
  {
  }

  // tasks

  lemma TasksElsewhere(tasks: map<nat, Task>, nextTask: nat, heap: Heap, h: nat, v: Session)
    requires TasksOk(tasks, nextTask, heap) && (h in heap ==> heap[h].status != Matching)
    ensures TasksOk(tasks, nextTask, heap[h := v])
  {
    assert forall t :: t in tasks ==> TaskOk(tasks[t], heap);
  }

  lemma TaskAdded(tasks: map<nat, Task>, nextTask: nat, heap: Heap, h: nat, v: Session)
    requires TasksOk(tasks, nextTask, heap) && h in heap && heap[h].status != Matching && v.status == Matching
    ensures TasksOk(tasks[nextTask := AwaitDecrypt(h, v.order)], nextTask + 1, heap[h := v])
  {
    assert forall t :: t in tasks ==> TaskOk(tasks[t], heap);
  }

  lemma TaskAdvanced(tasks: map<nat, Task>, nextTask: nat, heap: Heap, task: nat, t': Task, v: Session)
    requires TasksOk(tasks, nextTask, heap) && task in tasks && t'.h == tasks[task].h
    requires TaskOk(t', heap[t'.h := v])
    ensures TasksOk(tasks[task := t'], nextTask, heap[t'.h := v])
  {
    assert forall t :: t in tasks ==> TaskOk(tasks[t], heap);
  }

  lemma TaskRemoved(tasks: map<nat, Task>, nextTask: nat, heap: Heap, task: nat, v: Session)
    requires TasksOk(tasks, nextTask, heap) && task in tasks
    ensures TasksOk(tasks - {task}, nextTask, heap[tasks[task].h := v])
  {
    assert forall t :: t in tasks ==> TaskOk(tasks[t], heap);
  }

  // history

  lemma LogStays(log: seq<Event>, heap: Heap, h: nat, v: Session)
    requires LogOk(log, heap) && RoundsOf(heap[h := v], h) == RoundsOf(heap, h) && BatchesOf(heap[h := v], h) == BatchesOf(heap, h)
    ensures LogOk(log, heap[h := v])
  {
    forall g ensures Starts(log, g) == RoundsOf(heap[h := v], g) && Signings(log, g) == BatchesOf(heap[h := v], g) {
      assert g != h ==> RoundsOf(heap[h := v], g) == RoundsOf(heap, g) && BatchesOf(heap[h := v], g) == BatchesOf(heap, g);
    }
  }

  lemma LogStarted(log: seq<Event>, heap: Heap, h: nat, v: Session)
    requires LogOk(log, heap) && h in heap && heap[h].status == Open && v.status != Open && v.status != Signed
    ensures LogOk(log + [Started(h)], heap[h := v])
  {
    forall g ensures Starts(log + [Started(h)], g) == RoundsOf(heap[h := v], g)
                  && Signings(log + [Started(h)], g) == BatchesOf(heap[h := v], g) {
      LogSnoc(log, Started(h), g);
      assert Starts(log, g) == RoundsOf(heap, g) && Signings(log, g) == BatchesOf(heap, g);
    }
  }

  lemma LogSigned(log: seq<Event>, heap: Heap, h: nat, v: Session, b: Batch)
    requires LogOk(log, heap) && h in heap && heap[h].status != Open && heap[h].status != Signed && v.status == Signed
    ensures LogOk(log + [BatchSigned(h, b)], heap[h := v])
  {
    forall g ensures Starts(log + [BatchSigned(h, b)], g) == RoundsOf(heap[h := v], g)
                  && Signings(log + [BatchSigned(h, b)], g) == BatchesOf(heap[h := v], g) {
      LogSnoc(log, BatchSigned(h, b), g);
      assert Starts(log, g) == RoundsOf(heap, g) && Signings(log, g) == BatchesOf(heap, g);
    }
  }

  lemma LogDone(log: seq<Event>, heap: Heap, h: nat, v: Session)
    requires LogOk(log, heap) && h in heap && heap[h].status == Matching
    requires (v.status == Signed && v.batch.Some?) || v.status == Failed
    ensures LogOk(DoneLog(log, h, v), heap[h := v])
  {
    if v.status == Signed {
      LogSigned(log, heap, h, v, v.batch.value);
    } else {
      assert log + [] == log;
      LogStays(log, heap, h, v);
    }
  }

  // whole steps

  /** A new open session under a fresh handle, when no session is open. */
  lemma NewSessionKeeps(s: Sys, name: string, v: Session, order: seq<string>)
    requires Inv(s) && (forall h :: h in s.heap ==> s.heap[h].status != Open)
    requires SessionOk(v, s.submitted) && v.name == name && v.status == Open
    requires order == if name in s.dirOrder then s.dirOrder else s.dirOrder + [name]
    ensures var s' := s.(heap := s.heap[s.next := v], dir := s.dir[name := s.next], dirOrder := order, next := s.next + 1);
            Inv(s') && AllForward(s, s')
  {
    assert s.next !in s.heap;
    NewSessionHeap(s, name, v, order);
    TasksElsewhere(s.tasks, s.nextTask, s.heap, s.next, v);
    LogStays(s.log, s.heap, s.next, v);
  }

  lemma NewSessionHeap(s: Sys, name: string, v: Session, order: seq<string>)
    requires HeapOk(s) && DirOk(s) && (forall h :: h in s.heap ==> s.heap[h].status != Open)
    requires SessionOk(v, s.submitted) && v.name == name && v.status == Open
    requires order == if name in s.dirOrder then s.dirOrder else s.dirOrder + [name]
    ensures var s' := s.(heap := s.heap[s.next := v], dir := s.dir[name := s.next], dirOrder := order, next := s.next + 1);
            HeapOk(s') && DirOk(s') && AllForward(s, s')
  {
    assert s.next !in s.heap;
  }

  lemma SubmitToOpen(s: Sys, intent: MpcIntent, h: nat)
    requires Inv(s) && h in s.heap && s.heap[h].status == Open
    ensures var s' := s.(submitted := s.submitted + {intent.id}, heap := s.heap[h := Submit(s.heap[h], intent)]);
            Inv(s') && AllForward(s, s')
  {
    SubmittedGrows(s, intent.id);
    SubmitOk(s.heap[h], intent, s.submitted);
    OpenUpdateKeeps(s.(submitted := s.submitted + {intent.id}), h, Submit(s.heap[h], intent));
  }

  lemma SubmitToNew(s: Sys, intent: MpcIntent, name: string)
    requires Inv(s) && forall h :: h in s.heap ==> s.heap[h].status != Open
    ensures var s' := s.(submitted := s.submitted + {intent.id}, heap := s.heap[s.next := Submit(EmptySession(name), intent)],
                         dir := s.dir[name := s.next],
                         dirOrder := if name in s.dirOrder then s.dirOrder else s.dirOrder + [name], next := s.next + 1);
            Inv(s') && AllForward(s, s')
  {
    SubmittedGrows(s, intent.id);
    SubmitOk(EmptySession(name), intent, s.submitted);
    NewSessionKeeps(s.(submitted := s.submitted + {intent.id}), name, Submit(EmptySession(name), intent),
                    if name in s.dirOrder then s.dirOrder else s.dirOrder + [name]);
  }

  lemma SubmitKeeps(s: Sys, intent: MpcIntent, now: string)
    requires Inv(s)
    ensures Inv(DoSubmit(s, intent, now)) && AllForward(s, DoSubmit(s, intent, now))
  {
    Snapshot(s);
    var open := OpenHandles(s, |s.dirOrder|);
    if open != [] {
      SubmitToOpen(s, intent, open[0]);
    } else {
      SubmitToNew(s, intent, "session-" + now);
    }
  }

  lemma OpenUpdateKeeps(s: Sys, h: nat, v: Session)
    requires Inv(s) && h in s.heap && s.heap[h].status == Open && v.status == Open
    requires SessionOk(v, s.submitted) && Forward(s.heap[h], v)
    ensures Inv(s.(heap := s.heap[h := v])) && AllForward(s, s.(heap := s.heap[h := v]))
  {
    ReplaceKeeps(s, h, v);
    TasksElsewhere(s.tasks, s.nextTask, s.heap, h, v);
    LogStays(s.log, s.heap, h, v);
  }

  lemma RemoteStartKeeps(s: Sys, h: nat, v: Session)
    requires Inv(s) && h in s.heap && s.heap[h].status == Open && v.status == Matching
    requires SessionOk(v, s.submitted) && Forward(s.heap[h], v)
    ensures var s' := s.(heap := s.heap[h := v], tasks := s.tasks[s.nextTask := AwaitDecrypt(h, v.order)],
                         nextTask := s.nextTask + 1, log := s.log + [Started(h)]);
            Inv(s') && AllForward(s, s')
  {
    ReplaceKeeps(s, h, v);
    TaskAdded(s.tasks, s.nextTask, s.heap, h, v);
    LogStarted(s.log, s.heap, h, v);
  }

  lemma LocalStartKeeps(s: Sys, h: nat, v: Session, threw: set<nat>)
    requires Inv(s) && h in s.heap && s.heap[h].status == Open && v.status != Open
    requires SessionOk(v, s.submitted) && Forward(s.heap[h], v)
    ensures var s' := s.(heap := s.heap[h := v], log := DoneLog(s.log + [Started(h)], h, v), threw := threw);
            Inv(s') && AllForward(s, s')
  {
    ReplaceKeeps(s, h, v);
    TasksElsewhere(s.tasks, s.nextTask, s.heap, h, v);
    LogLocal(s.log, s.heap, h, v);
  }

  lemma LogLocal(log: seq<Event>, heap: Heap, h: nat, v: Session)
    requires LogOk(log, heap) && h in heap && heap[h].status == Open && v.status != Open
    requires v.status == Signed ==> v.batch.Some?
    ensures LogOk(DoneLog(log + [Started(h)], h, v), heap[h := v])
  {
    if v.status == Signed {
      var mid := v.(status := Matching);
      LogStarted(log, heap, h, mid);
      LogDone(log + [Started(h)], heap[h := mid], h, v);
      assert heap[h := mid][h := v] == heap[h := v];
    } else {
      LogStarted(log, heap, h, v);
      assert log + [Started(h)] + [] == log + [Started(h)];
    }
  }

  lemma StartLocal(s: Sys, cfg: Config, h: nat, batchId: string)
    requires ValidConfig(cfg) && Inv(s) && h in s.heap && s.heap[h].status == Open && |s.heap[h].intents| >= 2
    ensures Inv(Start(s, cfg, h, true, batchId)) && AllForward(s, Start(s, cfg, h, true, batchId))
  {
    LocalOk(s.heap[h], cfg, batchId, s.submitted);
    LocalStartKeeps(s, h, LocalRound(s.heap[h], cfg, batchId), Start(s, cfg, h, true, batchId).threw);
  }

  lemma StartRemote(s: Sys, cfg: Config, h: nat, batchId: string)
    requires ValidConfig(cfg) && Inv(s) && h in s.heap && s.heap[h].status == Open && |s.heap[h].intents| >= 2
    ensures Inv(Start(s, cfg, h, false, batchId)) && AllForward(s, Start(s, cfg, h, false, batchId))
  {
    RemoteStartKeeps(s, h, Begin(s.heap[h]));
  }

  lemma StartKeeps(s: Sys, cfg: Config, h: nat, local: bool, batchId: string)
    requires ValidConfig(cfg) && Inv(s) && h in s.heap && s.heap[h].status == Open
    ensures Inv(Start(s, cfg, h, local, batchId)) && AllForward(s, Start(s, cfg, h, local, batchId))
  {
    ForwardRefl(s);
    if |s.heap[h].intents| >= 2 {
      if local {
        StartLocal(s, cfg, h, batchId);
      } else {
        StartRemote(s, cfg, h, batchId);
      }
    }
  }

  lemma TimerAdded(s: Sys)
    requires Inv(s)
    ensures Inv(s.(timers := s.timers[s.nextTimer := []], nextTimer := s.nextTimer + 1))
  {
  }

  /** A timer's snapshot is empty or holds the one open session, so running it
      starts at most one round, and leaves nothing to do. */
  lemma TimerKeeps(s: Sys, cfg: Config, todo: seq<nat>, local: bool, batchId: string)
    requires ValidConfig(cfg) && Inv(s) && |todo| <= 1
    requires todo != [] ==> todo[0] in s.heap && s.heap[todo[0]].status == Open
    ensures Inv(RunTimer(s, cfg, todo, local, batchId)) && AllForward(s, RunTimer(s, cfg, todo, local, batchId))
  {
    ForwardRefl(s);
    if todo != [] {
      assert todo[1..] == [];
      assert RunTimer(s, cfg, [], local, batchId) == s;
      if |s.heap[todo[0]].intents| >= 2 {
        StartKeeps(s, cfg, todo[0], local, batchId);
        TimerAdded(Start(s, cfg, todo[0], local, batchId));
      }
    }
  }

  lemma DecryptedKeeps(s: Sys, task: nat, d: Decision, batchId: string)
    requires Inv(s) && task in s.tasks && DecisionOk(d, s.heap[s.tasks[task].h], s.submitted)
    ensures Inv(Decided(s, task, d, batchId)) && AllForward(s, Decided(s, task, d, batchId))
  {
    var h := s.tasks[task].h;
    ReplaceKeeps(s, h, d.session);
    if d.matches.Some? {
      TaskAdvanced(s.tasks, s.nextTask, s.heap, task, AwaitSign(h, batchId, d.matches.value), d.session);
    } else {
      TaskRemoved(s.tasks, s.nextTask, s.heap, task, d.session);
    }
    LogStays(s.log, s.heap, h, d.session);
  }

  lemma DecryptKeeps(s: Sys, cfg: Config, task: nat, replies: seq<Option<Reply>>, batchId: string)
    requires ValidConfig(cfg) && Inv(s) && task in s.tasks && s.tasks[task].AwaitDecrypt?
    ensures Inv(DoDecrypt(s, cfg, task, replies, batchId)) && AllForward(s, DoDecrypt(s, cfg, task, replies, batchId))
  {
    var h := s.tasks[task].h;
    DecryptOk(s.heap[h], cfg, replies, s.submitted);
    DecryptedKeeps(s, task, AfterDecrypt(s.heap[h], cfg, replies), batchId);
  }

  lemma FinishedKeeps(s: Sys, task: nat, v: Session)
    requires Inv(s) && task in s.tasks && SessionOk(v, s.submitted) && Forward(s.heap[s.tasks[task].h], v)
    requires v.status == Signed || v.status == Failed
    ensures var h := s.tasks[task].h;
            var s' := s.(heap := s.heap[h := v], tasks := s.tasks - {task}, log := DoneLog(s.log, h, v));
            Inv(s') && AllForward(s, s')
  {
    var h := s.tasks[task].h;
    ReplaceKeeps(s, h, v);
    TaskRemoved(s.tasks, s.nextTask, s.heap, task, v);
    LogDone(s.log, s.heap, h, v);
  }

  lemma SignKeeps(s: Sys, cfg: Config, task: nat, sigs: seq<Option<Signature>>)
    requires ValidConfig(cfg) && Inv(s) && task in s.tasks && s.tasks[task].AwaitSign?
    ensures Inv(DoSign(s, cfg, task, sigs)) && AllForward(s, DoSign(s, cfg, task, sigs))
  {
    var t := s.tasks[task];
    var v := AfterSign(s.heap[t.h], cfg, sigs, t.batchId, t.matches);
    SignOk(s.heap[t.h], cfg, sigs, t.batchId, t.matches, s.submitted);
    FinishedKeeps(s, task, v);
  }

  lemma SignOk(s: Session, cfg: Config, sigs: seq<Option<Signature>>, batchId: string, matches: seq<Netting.Match>,
               submitted: set<string>)
    requires SessionOk(s, submitted) && s.status == Matching && SoundMatches(matches, s)
    ensures var v := AfterSign(s, cfg, sigs, batchId, matches);
            SessionOk(v, submitted) && Forward(s, v) && (v.status == Signed || v.status == Failed)
  {
  }

  lemma ForwardRefl(s: Sys)
    ensures AllForward(s, s)
  {
  }

  lemma StepKeeps(s: Sys, cfg: Config, e: Step)
    requires ValidConfig(cfg) && Inv(s)
    ensures Inv(Do(s, cfg, e)) && AllForward(s, Do(s, cfg, e))
  {
    ForwardRefl(s);
    match e {
      case SubmitIntent(intent, now) => SubmitKeeps(s, intent, now);
      case Manual(name, local, batchId) =>
        if name in s.dir && s.heap[s.dir[name]].status == Open {
          StartKeeps(s, cfg, s.dir[name], local, batchId);
        }
      case Tick(local, batchId) =>
        Snapshot(s);
        TimerKeeps(s, cfg, OpenHandles(s, |s.dirOrder|), local, batchId);
      case Resume(timer, local, batchId) =>
        if timer in s.timers {
          var s1 := s.(timers := s.timers - {timer});
          assert Inv(s1);
          TimerKeeps(s1, cfg, s.timers[timer], local, batchId);
        }
      case DecryptReplies(task, replies, batchId) =>
        if task in s.tasks && s.tasks[task].AwaitDecrypt? {
          DecryptKeeps(s, cfg, task, replies, batchId);
        }
      case SignReplies(task, sigs) =>
        if task in s.tasks && s.tasks[task].AwaitSign? {
          SignKeeps(s, cfg, task, sigs);
        }
    }
  }

  // ----- whole runs -----

  /** Every reachable state of every interleaving satisfies the invariant. */
  lemma {:induction false} Reachable(cfg: Config, steps: seq<Step>)
    requires ValidConfig(cfg)
    ensures Inv(Run(INIT, cfg, steps))
  {
    if steps != [] {
      Reachable(cfg, steps[..|steps| - 1]);
      StepKeeps(Run(INIT, cfg, steps[..|steps| - 1]), cfg, steps[|steps| - 1]);
    }
  }

  lemma ForwardTrans(a: Sys, b: Sys, c: Sys)
    requires AllForward(a, b) && AllForward(b, c)
    ensures AllForward(a, c)
  {
    forall h | h in a.heap ensures h in c.heap && Forward(a.heap[h], c.heap[h]) {
      assert Forward(a.heap[h], b.heap[h]) && Forward(b.heap[h], c.heap[h]);
    }
  }

  lemma NextForward(cfg: Config, steps: seq<Step>, e: Step)
    requires ValidConfig(cfg)
    ensures AllForward(Run(INIT, cfg, steps), Run(INIT, cfg, steps + [e]))
  {
    Reachable(cfg, steps);
    StepKeeps(Run(INIT, cfg, steps), cfg, e);
    assert (steps + [e])[..|steps|] == steps;
    assert Run(INIT, cfg, steps + [e]) == Do(Run(INIT, cfg, steps), cfg, e);
  }

  /** Whatever happens after a reachable state, sessions only move forward. */
  lemma {:induction false} RunForward(cfg: Config, before: seq<Step>, after: seq<Step>)
    requires ValidConfig(cfg)
    ensures AllForward(Run(INIT, cfg, before), Run(INIT, cfg, before + after))
    decreases |after|
  {
    if after == [] {
      assert before + after == before;
      ForwardRefl(Run(INIT, cfg, before));
    } else {
      var init, e := after[..|after| - 1], after[|after| - 1];
      RunForward(cfg, before, init);
      assert before + after == (before + init) + [e];
      NextForward(cfg, before + init, e);
      ForwardTrans(Run(INIT, cfg, before), Run(INIT, cfg, before + init), Run(INIT, cfg, before + after));
    }
  }

  /** Session safety under every interleaving: at most one session is open, and
      each session runs at most one round and signs at most one batch, although
      the timer never rechecks the status of its snapshot. */
  lemma AtMostOneRound(cfg: Config, steps: seq<Step>, h: nat, h': nat)
    requires ValidConfig(cfg)
    ensures var s := Run(INIT, cfg, steps);
            && Starts(s.log, h) <= 1 && Signings(s.log, h) <= 1 && Signings(s.log, h) <= Starts(s.log, h)
            && (h in s.heap && h' in s.heap && s.heap[h].status == Open && s.heap[h'].status == Open ==> h == h')
  {
    Reachable(cfg, steps);
  }

  /** Status and contents over time: open, then matching, then signed or failed,
      never back; the intents are frozen from the start of the round, and a
      signed batch never changes and matches only those intents. */
  lemma FrozenFromStart(cfg: Config, before: seq<Step>, after: seq<Step>, h: nat)
    requires ValidConfig(cfg) && h in Run(INIT, cfg, before).heap
    ensures h in Run(INIT, cfg, before + after).heap
    ensures var s, s' := Run(INIT, cfg, before).heap[h], Run(INIT, cfg, before + after).heap[h];
            && Forward(s, s')
            && (s.status != Open && s'.batch.Some? ==> SoundMatches(s'.batch.value.matches, s))
  {
    RunForward(cfg, before, after);
    Reachable(cfg, before + after);
    var s' := Run(INIT, cfg, before + after);
    assert SessionOk(s'.heap[h], s'.submitted);
  }

}
