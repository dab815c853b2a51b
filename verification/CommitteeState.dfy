/** The mutable committee of apps/mpc-committee/src/state.ts and the matching
    rounds that update a session object in place. Every method is tied to the
    pure functions of module Session. */
module CommitteeState {
  import opened Wrappers
  import opened Field
  import opened Polynomial
  import Netting
  import Shamir
  import opened Encoding
  import opened Session

  class SessionState {
    const name: string
    var status: Status
    var order: seq<string>
    var intents: map<string, MpcIntent>
    var shares: Shares
    var batch: Option<Batch>

    function View(): Session
      reads this
    {
      Session(name, status, order, intents, shares, batch)
    }

    constructor (name: string)
      ensures View() == EmptySession(name) && this.name == name
    {
      this.name := name;
      status, order, intents, shares, batch := Open, [], map[], map[], None;
    }

    /** What `addIntent` writes into the open session. */
    method Store(intent: MpcIntent)
      modifies this
      ensures View() == Submit(old(View()), intent)
    {
      if intent.id !in intents {
        order := order + [intent.id];
      }
      intents := intents[intent.id := intent];
      for i := 0 to |intent.encShares|
        modifies `shares
        invariant shares == PutShares(old(shares), intent.id, intent.encShares[..i])
      {
        var e := intent.encShares[i];
        assert intent.encShares[..i + 1][..i] == intent.encShares[..i];
        shares := shares[Slot(e.node, intent.id) := Entry(e.cipher, None)];
      }
      assert intent.encShares[..|intent.encShares|] == intent.encShares;
    }
  }

  class CommitteeState {
    var sessions: map<string, SessionState>
    /** Keys of `sessions` in insertion order. */
    var order: seq<string>
    var intentToSession: map<string, string>

    ghost predicate Valid()
      reads this, sessions.Values
    {
      && (forall k :: k in order <==> k in sessions)
      && (forall k :: k in sessions ==> sessions[k].name == k && WellFormed(sessions[k].View()))
    }

    constructor ()
      ensures Valid() && sessions == map[] && intentToSession == map[]
    {
      sessions, order, intentToSession := map[], [], map[];
    }

    /** A clock reading that names an existing session replaces its entry; the
        old object lives on in whoever holds it. */
    method CreateSession(name: string) returns (s: SessionState)
      requires Valid()
      modifies this
      ensures Valid() && fresh(s) && s.View() == EmptySession(name)
      ensures sessions == old(sessions)[name := s] && intentToSession == old(intentToSession)
    {
      s := new SessionState(name);
      sessions := sessions[name := s];
      if name !in order {
        order := order + [name];
      }
    }

    ghost predicate HasOpen()
      reads this, sessions.Values
    {
      exists k :: k in sessions && sessions[k].status == Open
    }

    method GetOrCreateOpenSession(now: string) returns (s: SessionState)
      requires Valid()
      modifies this
      ensures Valid() && s.name in sessions && sessions[s.name] == s && s.status == Open
      ensures intentToSession == old(intentToSession)
      ensures old(HasOpen()) ==> sessions == old(sessions)
      ensures !old(HasOpen()) ==> fresh(s) && s.View() == EmptySession("session-" + now)
                                  && sessions == old(sessions)["session-" + now := s]
    {
      for i := 0 to |order|
        invariant forall j :: 0 <= j < i ==> sessions[order[j]].status != Open
      {
        if sessions[order[i]].status == Open {
          s := sessions[order[i]];
          return;
        }
      }
      assert forall k :: k in sessions ==> k in order;
      s := CreateSession("session-" + now);
    }

    /** Record an intent in a registered session. */
    method StoreIn(s: SessionState, intent: MpcIntent)
      requires Valid() && s.name in sessions && sessions[s.name] == s
      modifies this`intentToSession, s
      ensures Valid() && s.View() == Submit(old(s.View()), intent)
      ensures intentToSession == old(intentToSession)[intent.id := s.name]
    {
      SubmitWellFormed(s.View(), intent);
      s.Store(intent);
      intentToSession := intentToSession[intent.id := s.name];
    }

    /** The intent goes to an open session if there is one, and to a new one
        otherwise; no other session changes. */
    method AddIntent(intent: MpcIntent, now: string) returns (s: SessionState)
      requires Valid()
      modifies this, sessions.Values
      ensures Valid() && s.name in sessions && sessions[s.name] == s
      ensures intentToSession == old(intentToSession)[intent.id := s.name]
      ensures forall k :: k in old(sessions) && old(sessions[k]) != s ==> unchanged(old(sessions[k]))
      ensures if old(HasOpen()) then
                sessions == old(sessions) && old(s.status) == Open && s.View() == Submit(old(s.View()), intent)
              else
                fresh(s) && sessions == old(sessions)["session-" + now := s]
                && s.View() == Submit(EmptySession("session-" + now), intent)
    {
      s := GetOrCreateOpenSession(now);
      StoreIn(s, intent);
    }

    method GetOpenSessions() returns (open: seq<SessionState>)
      requires Valid()
      ensures forall o :: o in open <==> o in sessions.Values && o.status == Open
    {
      open := [];
      for i := 0 to |order|
        invariant forall o :: o in open <==> exists j :: 0 <= j < i && sessions[order[j]] == o && o.status == Open
      {
        if sessions[order[i]].status == Open {
          open := open + [sessions[order[i]]];
        }
      }
      assert forall k :: k in sessions ==> k in order;
    }
  }

  lemma SubmitWellFormed(s: Session, intent: MpcIntent)
    requires WellFormed(s)
    ensures WellFormed(Submit(s, intent))
  {
  }

  // ----- rounds, in place -----

  method CeilTwoThirds(n: nat) returns (t: nat)
    ensures t == Threshold(n) && 3 * t >= 2 * n && 3 * (t - 1) < 2 * n
  {
    t := (n * 2) / 3;
    if t * 3 < n * 2 {
      t := t + 1;
    }
  }

  /** The loop over nodes that stops at two shares. */
  method CollectShares(shares: Shares, nodes: seq<string>, id: string) returns (av: seq<Text>)
    ensures av == Available(shares, nodes, id)
  {
    av := [];
    for i := 0 to |nodes|
      invariant av == Decrypted(shares, nodes, id, i) && |av| < 2
    {
      var slot := Slot(nodes[i], id);
      if slot in shares && shares[slot].dec.Some? {
        av := av + [shares[slot].dec.value];
      }
      if |av| >= 2 {
        DecryptedPrefix(shares, nodes, id, i + 1, |nodes|);
        return;
      }
    }
  }

  lemma {:induction false} DecryptedPrefix(sh: Shares, nodes: seq<string>, id: string, m: nat, n: nat)
    requires m <= n <= |nodes|
    ensures Decrypted(sh, nodes, id, m) <= Decrypted(sh, nodes, id, n)
  {
    if m < n {
      DecryptedPrefix(sh, nodes, id, m, n - 1);
    }
  }

  /** `reconstructAmount`: decode, then interpolate; None when decoding throws. */
  method ReconstructAmount(ts: seq<Text>, p: int) returns (amount: Option<int>)
    requires Prime(p)
    ensures amount.Some? <==> Decodable(ts)
    ensures amount.Some? ==> amount.value == LagrangeAt(Points(ts), 0, p) % p
  {
    var points := DecodeAll(ts);
    if points.None? {
      return None;
    }
    var secret := Shamir.ShamirReconstruct(points.value, p);
    return Some(secret);
  }

  /** The body of the loop over intents. */
  method ReconstructIntent(s: Session, cfg: Config, id: string) returns (end: End, intent: Option<Netting.Intent>)
    requires Prime(cfg.p) && id in s.intents
    ensures end == Check(s.shares, cfg.nodes, id) && (intent.Some? <==> end.Done?)
    ensures intent.Some? ==> intent.value == Plain(s, s.shares, cfg, id)
  {
    var av := CollectShares(s.shares, cfg.nodes, id);
    if |av| < 2 {
      return Short, None;
    }
    var amount := ReconstructAmount(av, cfg.p);
    if amount.None? {
      return Thrown, None;
    }
    return Done, Some(Netting.Intent(id, amount.value, s.intents[id].inAsset, s.intents[id].outAsset));
  }

  /** The loop over intents: reconstruct each amount. Thrown: the decoder threw,
      and nothing catches it. */
  method ReconstructAll(s: Session, cfg: Config) returns (end: End, rec: seq<Netting.Intent>)
    requires WellFormed(s) && Prime(cfg.p)
    ensures end == LoopEnd(s.shares, cfg.nodes, s.order, |s.order|)
    ensures end.Done? ==> rec == PlainIntents(s, s.shares, cfg, |s.order|)
  {
    rec, end := [], Done;
    for i := 0 to |s.order|
      invariant end == LoopEnd(s.shares, cfg.nodes, s.order, i) == Done
      invariant rec == PlainIntents(s, s.shares, cfg, i)
    {
      PlainSnoc(s, s.shares, cfg, i);
      EndSnoc(s.shares, cfg.nodes, s.order, i);
      var intent;
      end, intent := ReconstructIntent(s, cfg, s.order[i]);
      if intent.None? {
        EndFinal(s.shares, cfg.nodes, s.order, i + 1);
        return end, [];
      }
      rec := rec + [intent.value];
    }
  }

  lemma PlainSnoc(s: Session, sh: Shares, cfg: Config, n: nat)
    requires WellFormed(s) && Prime(cfg.p) && n < |s.order|
    ensures s.order[n] in s.intents
    ensures PlainIntents(s, sh, cfg, n + 1) == PlainIntents(s, sh, cfg, n) + [Plain(s, sh, cfg, s.order[n])]
  {
    assert s.order[n] in s.order;
  }

  lemma EndSnoc(sh: Shares, nodes: seq<string>, ids: seq<string>, n: nat)
    requires n < |ids| && LoopEnd(sh, nodes, ids, n) == Done
    ensures LoopEnd(sh, nodes, ids, n + 1) == Check(sh, nodes, ids[n])
  {
    assert Checks(sh, nodes, ids)[n] == Check(sh, nodes, ids[n]);
  }

  lemma EndFinal(sh: Shares, nodes: seq<string>, ids: seq<string>, n: nat)
    requires n <= |ids| && LoopEnd(sh, nodes, ids, n) != Done
    ensures LoopEnd(sh, nodes, ids, |ids|) == LoopEnd(sh, nodes, ids, n)
  {
    EndStays(Checks(sh, nodes, ids), n, |ids|);
  }

  lemma {:induction false} EndStays(ends: seq<End>, m: nat, n: nat)
    requires m <= n <= |ends| && FirstEnd(ends, m) != Done
    ensures FirstEnd(ends, n) == FirstEnd(ends, m)
  {
    if m < n {
      EndStays(ends, m, n - 1);
    }
  }

  /** Reconstruct, clear and match; the common middle of both rounds. */
  method FinishMatching(session: SessionState, cfg: Config) returns (matches: Option<seq<Netting.Match>>, threw: bool)
    requires WellFormed(session.View()) && ValidConfig(cfg)
    modifies session
    ensures Decision(session.View(), matches, threw) == Conclude(old(session.View()), old(session.shares), cfg)
  {
    var end, rec := ReconstructAll(session.View(), cfg);
    if end.Thrown? {
      return None, true;
    }
    if end.Short? {
      session.status := Failed;
      return None, false;
    }
    session.shares := Clear(session.shares, cfg.nodes);
    var ms := Netting.MatchIntents(rec, cfg.sort);
    return Some(ms), false;
  }

  /** `runMatchingRoundRemote` up to its first await. */
  method BeginRemote(session: SessionState) returns (started: bool)
    modifies session
    ensures started == (|old(session.intents)| >= 2) && session.View() == Begin(old(session.View()))
  {
    started := |session.intents| >= 2;
    if started {
      session.status := Matching;
    }
  }

  /** `runMatchingRoundRemote` between its awaits. */
  method OnDecryptReplies(session: SessionState, cfg: Config, replies: seq<Option<Reply>>)
    returns (matches: Option<seq<Netting.Match>>, threw: bool)
    requires WellFormed(session.View()) && ValidConfig(cfg)
    modifies session
    ensures Decision(session.View(), matches, threw) == AfterDecrypt(old(session.View()), cfg, replies)
  {
    var need := CeilTwoThirds(|cfg.nodes|);
    if Count(replies) < need {
      session.status := Failed;
      return None, false;
    }
    ghost var s := session.View();
    for i := 0 to |replies|
      invariant session.View() == s.(shares := ApplyReplies(s.shares, replies, i))
    {
      if replies[i].Some? {
        session.shares := ApplyReply(session.shares, replies[i].value);
      }
    }
    matches, threw := FinishMatching(session, cfg);
    assert Conclude(s.(shares := ApplyReplies(s.shares, replies, |replies|)), ApplyReplies(s.shares, replies, |replies|), cfg)
        == Conclude(s, ApplyReplies(s.shares, replies, |replies|), cfg) by {
      ConcludeIgnoresOwnShares(s, ApplyReplies(s.shares, replies, |replies|), cfg);
    }
  }

  lemma ConcludeIgnoresOwnShares(s: Session, sh: Shares, cfg: Config)
    requires WellFormed(s) && ValidConfig(cfg)
    ensures Conclude(s.(shares := sh), sh, cfg) == Conclude(s, sh, cfg)
  {
    assert PlainIntents(s.(shares := sh), sh, cfg, |s.order|) == PlainIntents(s, sh, cfg, |s.order|);
  }

  /** `runMatchingRoundRemote` after its second await. */
  method OnSignReplies(session: SessionState, cfg: Config, sigs: seq<Option<Signature>>, batchId: string,
                       matches: seq<Netting.Match>) returns (batch: Option<Batch>)
    modifies session
    ensures session.View() == AfterSign(old(session.View()), cfg, sigs, batchId, matches)
    ensures batch.Some? ==> session.batch == batch && session.status == Signed
    ensures batch.None? ==> session.status == Failed
  {
    var need := CeilTwoThirds(|cfg.nodes|);
    if Count(sigs) < need {
      session.status := Failed;
      return None;
    }
    session.batch := Some(Batch(batchId, session.name, matches, Collect(sigs)));
    session.status := Signed;
    return session.batch;
  }

  /** Step 1 of the in-process round: every node decrypts its slots. */
  method DecryptShares(session: SessionState, cfg: Config) returns (ok: bool)
    modifies session`shares
    ensures Progress(session.shares, ok) == DecryptAll(old(session.shares), cfg, session.order, |cfg.nodes|)
  {
    ghost var sh, ids := session.shares, session.order;
    for i := 0 to |cfg.nodes|
      invariant DecryptAll(sh, cfg, ids, i) == Progress(session.shares, true)
    {
      ghost var before := session.shares;
      for j := 0 to |session.order|
        invariant DecryptNode(before, cfg, cfg.nodes[i], ids, j) == Progress(session.shares, true)
      {
        var slot := Slot(cfg.nodes[i], session.order[j]);
        if slot in session.shares {
          var d := cfg.decrypt(slot.node, session.shares[slot].cipher);
          if d.None? {
            NodeStuck(before, cfg, cfg.nodes[i], ids, j + 1, |ids|);
            AllStuck(sh, cfg, ids, i + 1, |cfg.nodes|);
            return false;
          }
          session.shares := session.shares[slot := session.shares[slot].(dec := d.value)];
        }
      }
    }
    return true;
  }

  /** `runMatchingRound`. */
  method RunMatchingRound(session: SessionState, cfg: Config, batchId: string) returns (batch: Option<Batch>, threw: bool)
    requires WellFormed(session.View()) && ValidConfig(cfg)
    modifies session
    ensures session.View() == LocalRound(old(session.View()), cfg, batchId)
    ensures threw == (|old(session.intents)| >= 2 && LocalDecision(old(session.View()).(status := Matching), cfg).threw)
    ensures batch.Some? ==> session.batch == batch && session.status == Signed
    ensures batch.None? && |old(session.intents)| >= 2 ==> session.status == (if threw then Matching else Failed)
  {
    if |session.intents| < 2 {
      return None, false;
    }
    session.status := Matching;
    ghost var m := session.View();
    var ok := DecryptShares(session, cfg);
    if !ok {
      session.status := Failed;
      return None, false;
    }
    ConcludeIgnoresOwnShares(m, session.shares, cfg);
    var matches;
    matches, threw := FinishMatching(session, cfg);
    if matches.None? {
      return None, threw;
    }
    session.batch := Some(Batch(batchId, session.name, matches.value, NodeSignatures(cfg, batchId, matches.value)));
    session.status := Signed;
    return session.batch, false;
  }

  lemma {:induction false} NodeStuck(sh: Shares, cfg: Config, node: string, ids: seq<string>, m: nat, n: nat)
    requires m <= n <= |ids| && !DecryptNode(sh, cfg, node, ids, m).ok
    ensures DecryptNode(sh, cfg, node, ids, n) == DecryptNode(sh, cfg, node, ids, m)
  {
    if m < n {
      NodeStuck(sh, cfg, node, ids, m, n - 1);
    }
  }

  lemma {:induction false} AllStuck(sh: Shares, cfg: Config, ids: seq<string>, m: nat, n: nat)
    requires m <= n <= |cfg.nodes| && !DecryptAll(sh, cfg, ids, m).ok
    ensures DecryptAll(sh, cfg, ids, n) == DecryptAll(sh, cfg, ids, m)
  {
    if m < n {
      AllStuck(sh, cfg, ids, m, n - 1);
    }
  }
}
