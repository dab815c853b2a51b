/** What one matching round guarantees, whichever nodes answer: fault tolerance
    of the remote round, agreement of all quorums and of the in-process round,
    and which decrypted shares survive the clearing step. */
module Rounds {
  import opened Wrappers
  import opened Field
  import opened Polynomial
  import opened Shamir
  import opened Finite
  import opened Encoding
  import Netting
  import opened Session
  import CommitteeState

  // ----- quorums -----

  ghost predicate Quorum(q: set<nat>, n: nat) {
    (forall i :: i in q ==> i < n) && |q| >= Threshold(n)
  }

  lemma {:induction false} BelowCard(q: set<nat>, n: nat)
    requires forall i :: i in q ==> i < n
    ensures |q| <= n
  {
    if n == 0 {
      assert q == {};
    } else {
      BelowCard(q - {n - 1}, n - 1);
    }
  }

  /** Any two quorums of n nodes share at least n/3 nodes. */
  lemma QuorumsIntersect(q: set<nat>, r: set<nat>, n: nat)
    requires Quorum(q, n) && Quorum(r, n)
    ensures 3 * |q * r| >= n
  {
    BelowCard(q + r, n);
    assert |q + r| + |q * r| == |q| + |r|;
  }

  lemma {:induction false} CountAtLeast<T>(xs: seq<Option<T>>, q: set<nat>)
    requires forall i :: i in q ==> i < |xs| && xs[i].Some?
    ensures Count(xs) >= |q|
  {
    if xs == [] {
      assert q == {};
    } else {
      CountAtLeast(xs[..|xs| - 1], q - {|xs| - 1});
    }
  }

  lemma {:induction false} CollectCount<T>(xs: seq<Option<T>>)
    ensures |Collect(xs)| == Count(xs)
  {
    if xs != [] {
      CollectCount(xs[..|xs| - 1]);
    }
  }

  /** A batch is only ever signed by a quorum of endpoints. */
  lemma SignedByQuorum(s: Session, cfg: Config, sigs: seq<Option<Signature>>, batchId: string, matches: seq<Netting.Match>)
    requires s.status == Matching
    ensures var s' := AfterSign(s, cfg, sigs, batchId, matches);
            && (s'.status == Signed <==> Count(sigs) >= Threshold(|cfg.nodes|))
            && (s'.status == Signed ==> s'.batch.Some? && |s'.batch.value.sigs| >= Threshold(|cfg.nodes|)
                                        && s'.batch.value.matches == matches)
  {
    CollectCount(sigs);
  }

  /** The endpoints whose signatures came back. */
  function Signers(sigs: seq<Option<Signature>>): set<nat> {
    set i: nat | i < |sigs| && sigs[i].Some?
  }

  lemma {:induction false} SignersCount(sigs: seq<Option<Signature>>)
    ensures |Signers(sigs)| == Count(sigs)
  {
    if sigs == [] {
      assert Signers(sigs) == {};
    } else {
      var n := |sigs| - 1;
      SignersCount(sigs[..n]);
      assert Signers(sigs) == Signers(sigs[..n]) + (if sigs[n].Some? then {n as nat} else {});
    }
  }

  /** Asking every endpoint, a round ends signed exactly when a quorum of them
      signed. */
  lemma SignersAreQuorum(s: Session, cfg: Config, sigs: seq<Option<Signature>>, batchId: string, matches: seq<Netting.Match>)
    requires s.status == Matching && |sigs| == |cfg.nodes|
    ensures AfterSign(s, cfg, sigs, batchId, matches).status == Signed <==> Quorum(Signers(sigs), |cfg.nodes|)
  {
    SignersCount(sigs);
  }

  /** Any two signed batches of a committee share at least a third of its
      endpoints among their signers. */
  lemma SignedBatchesOverlap(s: Session, t: Session, cfg: Config, sigs: seq<Option<Signature>>, sigs': seq<Option<Signature>>,
                             b: string, b': string, ms: seq<Netting.Match>, ms': seq<Netting.Match>)
    requires s.status == Matching && t.status == Matching && |sigs| == |cfg.nodes| == |sigs'|
    requires AfterSign(s, cfg, sigs, b, ms).status == Signed && AfterSign(t, cfg, sigs', b', ms').status == Signed
    ensures 3 * |Signers(sigs) * Signers(sigs')| >= |cfg.nodes|
  {
    SignersAreQuorum(s, cfg, sigs, b, ms);
    SignersAreQuorum(t, cfg, sigs', b', ms');
    QuorumsIntersect(Signers(sigs), Signers(sigs'), |cfg.nodes|);
  }

  // ----- when a round throws -----

  lemma {:induction false} FirstEnds(ends: seq<End>, n: nat) returns (k: nat)
    requires n <= |ends|
    ensures k <= n && forall j :: 0 <= j < k ==> ends[j].Done?
    ensures if k == n then FirstEnd(ends, n).Done? else !ends[k].Done? && FirstEnd(ends, n) == ends[k]
  {
    if n == 0 {
      k := 0;
    } else {
      k := FirstEnds(ends, n - 1);
      if k == n - 1 && ends[n - 1].Done? {
        k := n;
      }
    }
  }

  /** How the loop over the intents ends, without the loop. */
  lemma LoopEnds(sh: Shares, nodes: seq<string>, ids: seq<string>) returns (k: nat)
    ensures k <= |ids| && forall j :: 0 <= j < k ==> Check(sh, nodes, ids[j]).Done?
    ensures if k == |ids| then LoopEnd(sh, nodes, ids, |ids|).Done?
            else !Check(sh, nodes, ids[k]).Done? && LoopEnd(sh, nodes, ids, |ids|) == Check(sh, nodes, ids[k])
  {
    k := FirstEnds(Checks(sh, nodes, ids), |ids|);
    assert forall j :: 0 <= j < k ==> Checks(sh, nodes, ids)[j] == Check(sh, nodes, ids[j]);
  }

  /** Up to intent k everyone has two shares, and one of the two of intent k
      cannot be decoded. */
  ghost predicate ThrowsAt(sh: Shares, nodes: seq<string>, ids: seq<string>, k: nat) {
    && k < |ids|
    && (forall j :: 0 <= j <= k ==> |Available(sh, nodes, ids[j])| >= 2)
    && !Decodable(Available(sh, nodes, ids[k]))
  }

  ghost predicate Throws(sh: Shares, nodes: seq<string>, ids: seq<string>) {
    exists k: nat :: ThrowsAt(sh, nodes, ids, k)
  }

  lemma ThrownHasWitness(sh: Shares, nodes: seq<string>, ids: seq<string>)
    requires LoopEnd(sh, nodes, ids, |ids|).Thrown?
    ensures Throws(sh, nodes, ids)
  {
    var k := LoopEnds(sh, nodes, ids);
    forall j | 0 <= j <= k ensures |Available(sh, nodes, ids[j])| >= 2 {
      assert !Check(sh, nodes, ids[j]).Short?;
    }
    assert ThrowsAt(sh, nodes, ids, k);
  }

  lemma WitnessThrows(sh: Shares, nodes: seq<string>, ids: seq<string>, k: nat)
    requires ThrowsAt(sh, nodes, ids, k)
    ensures LoopEnd(sh, nodes, ids, |ids|).Thrown?
  {
    var first := LoopEnds(sh, nodes, ids);
    assert Check(sh, nodes, ids[k]).Thrown?;
    assert first <= k;
    assert |Available(sh, nodes, ids[first])| >= 2;
  }

  lemma ThrowsIff(sh: Shares, nodes: seq<string>, ids: seq<string>)
    ensures LoopEnd(sh, nodes, ids, |ids|).Thrown? <==> Throws(sh, nodes, ids)
  {
    if LoopEnd(sh, nodes, ids, |ids|).Thrown? {
      ThrownHasWitness(sh, nodes, ids);
    }
    forall k: nat | ThrowsAt(sh, nodes, ids, k) ensures LoopEnd(sh, nodes, ids, |ids|).Thrown? {
      WitnessThrows(sh, nodes, ids, k);
    }
  }

  lemma ConcludeThrowsIff(s: Session, sh: Shares, cfg: Config)
    requires WellFormed(s) && Prime(cfg.p)
    ensures Conclude(s, sh, cfg).threw <==> Throws(sh, cfg.nodes, s.order)
  {
    ThrowsIff(sh, cfg.nodes, s.order);
  }

  /** A remote round that gets past its quorum check throws if and only if some
      intent, before the first with fewer than two shares, has an undecodable one
      among its first two. */
  lemma RemoteThrowsIff(s: Session, cfg: Config, replies: seq<Option<Reply>>)
    requires WellFormed(s) && Prime(cfg.p)
    ensures AfterDecrypt(s, cfg, replies).threw
        <==> Count(replies) >= Threshold(|cfg.nodes|) && Throws(ApplyReplies(s.shares, replies, |replies|), cfg.nodes, s.order)
  {
    ConcludeThrowsIff(s, ApplyReplies(s.shares, replies, |replies|), cfg);
  }

  /** And an in-process round that decrypted every share. */
  lemma LocalThrowsIff(m: Session, cfg: Config)
    requires WellFormed(m) && Prime(cfg.p)
    ensures var dec := DecryptAll(m.shares, cfg, m.order, |cfg.nodes|);
      LocalDecision(m, cfg).threw <==> dec.ok && Throws(dec.shares, cfg.nodes, m.order)
  {
    ConcludeThrowsIff(m, DecryptAll(m.shares, cfg, m.order, |cfg.nodes|).shares, cfg);
  }

  lemma {:induction false} CleanHasNone(sh: Shares, nodes: seq<string>, id: string, n: nat)
    requires n <= |nodes| && Clean(sh)
    ensures Decrypted(sh, nodes, id, n) == []
  {
    if n > 0 {
      CleanHasNone(sh, nodes, id, n - 1);
    }
  }

  /** A round that threw is still matching and still holds decrypted shares. */
  lemma ThrownHoldsShares(s: Session, sh: Shares, cfg: Config)
    requires WellFormed(s) && Prime(cfg.p) && Conclude(s, sh, cfg).threw
    ensures var d := Conclude(s, sh, cfg); d.matches.None? && d.session == s.(shares := sh) && !Clean(sh)
  {
    ThrowsIff(sh, cfg.nodes, s.order);
    var k: nat :| ThrowsAt(sh, cfg.nodes, s.order, k);
    if Clean(sh) {
      CleanHasNone(sh, cfg.nodes, s.order[k], |cfg.nodes|);
    }
  }

  // ----- what the answers leave in the slots -----

  predicate Names(r: Option<Reply>, slot: Slot) {
    r.Some? && r.value.node == slot.node && slot.id in r.value.shares
  }

  predicate NotNamed(replies: seq<Option<Reply>>, i: int, n: nat, slot: Slot)
    requires -1 <= i && n <= |replies|
  {
    forall j :: i < j < n ==> !Names(replies[j], slot)
  }

  lemma {:induction false} NoWord(sh: Shares, replies: seq<Option<Reply>>, n: nat, slot: Slot)
    requires n <= |replies| && slot in sh && NotNamed(replies, -1, n, slot)
    ensures ApplyReplies(sh, replies, n)[slot] == sh[slot]
  {
    if n > 0 {
      NoWord(sh, replies, n - 1, slot);
    }
  }

  /** The last answer that names a slot decides it. */
  lemma {:induction false} LastWord(sh: Shares, replies: seq<Option<Reply>>, n: nat, slot: Slot, i: nat)
    requires i < n <= |replies| && slot in sh && Names(replies[i], slot) && NotNamed(replies, i, n, slot)
    ensures ApplyReplies(sh, replies, n)[slot].dec == replies[i].value.shares[slot.id]
  {
    if i < n - 1 {
      LastWord(sh, replies, n - 1, slot, i);
    }
  }

  ghost predicate Clean(sh: Shares) {
    forall slot :: slot in sh ==> sh[slot].dec.None?
  }

  /** An answer under a node id that is not an endpoint has the last word on an
      existing slot, with a share. */
  ghost predicate Stray(cfg: Config, sh: Shares, replies: seq<Option<Reply>>, slot: Slot, i: nat) {
    && slot in sh && slot.node !in cfg.nodes && i < |replies|
    && Names(replies[i], slot) && replies[i].value.shares[slot.id].Some?
    && NotNamed(replies, i, |replies|, slot)
  }

  lemma {:induction false} LastNamer(replies: seq<Option<Reply>>, n: nat, slot: Slot) returns (i: int)
    requires n <= |replies|
    ensures -1 <= i < n && (i >= 0 ==> Names(replies[i], slot)) && NotNamed(replies, i, n, slot)
  {
    if n == 0 {
      i := -1;
    } else if Names(replies[n - 1], slot) {
      i := n - 1;
    } else {
      i := LastNamer(replies, n - 1, slot);
    }
  }

  /** Privacy hygiene of the remote round, exactly: clearing by endpoint id
      leaves a decrypted share behind if and only if some answer was stray. */
  lemma ClearedIffNoStray(cfg: Config, sh: Shares, replies: seq<Option<Reply>>)
    requires Clean(sh)
    ensures Clean(Clear(ApplyReplies(sh, replies, |replies|), cfg.nodes))
        <==> forall slot, i: nat :: !Stray(cfg, sh, replies, slot, i)
  {
    var out := Clear(ApplyReplies(sh, replies, |replies|), cfg.nodes);
    forall slot | slot in sh ensures out[slot].dec.Some? <==> exists i: nat :: Stray(cfg, sh, replies, slot, i) {
      SlotCleared(cfg, sh, replies, slot);
    }
    if !Clean(out) {
      var slot :| slot in out && out[slot].dec.Some?;
      assert slot in sh;
    }
    assert forall slot, i: nat :: Stray(cfg, sh, replies, slot, i) ==> slot in sh;
  }

  lemma SlotCleared(cfg: Config, sh: Shares, replies: seq<Option<Reply>>, slot: Slot)
    requires Clean(sh) && slot in sh
    ensures Clear(ApplyReplies(sh, replies, |replies|), cfg.nodes)[slot].dec.Some?
        <==> exists i: nat :: Stray(cfg, sh, replies, slot, i)
  {
    var i := LastNamer(replies, |replies|, slot);
    if i < 0 {
      NoWord(sh, replies, |replies|, slot);
    } else {
      LastWord(sh, replies, |replies|, slot, i);
      if slot.node !in cfg.nodes && replies[i].value.shares[slot.id].Some? {
        assert Stray(cfg, sh, replies, slot, i);
      }
    }
    forall j: nat | Stray(cfg, sh, replies, slot, j) ensures i == j {
      assert Names(replies[j], slot) && NotNamed(replies, j, |replies|, slot);
    }
  }

  /** Every node answers under its own endpoint id, as node-server.ts does. */
  predicate ProperReplies(cfg: Config, replies: seq<Option<Reply>>) {
    |replies| == |cfg.nodes| && forall i :: 0 <= i < |replies| && replies[i].Some? ==> replies[i].value.node == cfg.nodes[i]
  }

  predicate DistinctNodes(cfg: Config) {
    forall i, j :: 0 <= i < j < |cfg.nodes| ==> cfg.nodes[i] != cfg.nodes[j]
  }

  lemma ProperMeansNoStray(cfg: Config, sh: Shares, replies: seq<Option<Reply>>)
    requires Clean(sh) && ProperReplies(cfg, replies)
    ensures Clean(Clear(ApplyReplies(sh, replies, |replies|), cfg.nodes)) && !HasStray(cfg, sh, replies)
  {
    ClearedIffNoStray(cfg, sh, replies);
  }

  /** With distinct endpoints, endpoint i alone decides its slots. */
  lemma OwnSlot(cfg: Config, sh: Shares, replies: seq<Option<Reply>>, i: nat, id: string)
    requires ProperReplies(cfg, replies) && DistinctNodes(cfg) && i < |cfg.nodes| && Slot(cfg.nodes[i], id) in sh
    ensures ApplyReplies(sh, replies, |replies|)[Slot(cfg.nodes[i], id)].dec
         == if Names(replies[i], Slot(cfg.nodes[i], id)) then replies[i].value.shares[id]
            else sh[Slot(cfg.nodes[i], id)].dec
  {
    var slot := Slot(cfg.nodes[i], id);
    if Names(replies[i], slot) {
      LastWord(sh, replies, |replies|, slot, i);
    } else {
      NoWord(sh, replies, |replies|, slot);
    }
  }

  // ----- fault tolerance -----

  lemma {:induction false} DecryptedAtLeast(sh: Shares, nodes: seq<string>, id: string, n: nat, q: set<nat>)
    requires n <= |nodes| && forall i :: i in q ==> i < n && Slot(nodes[i], id) in sh && sh[Slot(nodes[i], id)].dec.Some?
    ensures |Decrypted(sh, nodes, id, n)| >= |q|
  {
    if n == 0 {
      assert q == {};
    } else {
      DecryptedAtLeast(sh, nodes, id, n - 1, q - {n - 1});
    }
  }

  lemma {:induction false} DecryptedAtMost(sh: Shares, nodes: seq<string>, id: string, n: nat)
    requires n <= |nodes|
    ensures |Decrypted(sh, nodes, id, n)| <= n
  {
    if n > 0 {
      DecryptedAtMost(sh, nodes, id, n - 1);
    }
  }

  /** Endpoint i returned its share of every intent of the session. */
  predicate Serves(s: Session, cfg: Config, replies: seq<Option<Reply>>, i: nat) {
    && i < |replies| == |cfg.nodes| && replies[i].Some?
    && forall j :: 0 <= j < |s.order| ==>
         && Slot(cfg.nodes[i], s.order[j]) in s.shares
         && s.order[j] in replies[i].value.shares && replies[i].value.shares[s.order[j]].Some?
  }

  lemma QuorumServes(s: Session, cfg: Config, replies: seq<Option<Reply>>, q: set<nat>, j: nat)
    requires DistinctNodes(cfg) && ProperReplies(cfg, replies) && j < |s.order|
    requires |cfg.nodes| >= 2 && Quorum(q, |cfg.nodes|) && forall i :: i in q ==> Serves(s, cfg, replies, i)
    ensures |Available(ApplyReplies(s.shares, replies, |replies|), cfg.nodes, s.order[j])| >= 2
  {
    var sh, id := ApplyReplies(s.shares, replies, |replies|), s.order[j];
    forall i | i in q ensures i < |cfg.nodes| && Slot(cfg.nodes[i], id) in sh && sh[Slot(cfg.nodes[i], id)].dec.Some? {
      assert Serves(s, cfg, replies, i);
      OwnSlot(cfg, s.shares, replies, i, id);
    }
    DecryptedAtLeast(sh, cfg.nodes, id, |cfg.nodes|, q);
  }

  /** Some intent has a share that cannot be decoded among its first two. */
  ghost predicate Undecodable(sh: Shares, nodes: seq<string>, ids: seq<string>) {
    exists j :: 0 <= j < |ids| && !Decodable(Available(sh, nodes, ids[j]))
  }

  /** Losing nodes does not stop the round: if a quorum serves its shares and a
      quorum signs, the round ends signed, unless one of the shares it would
      reconstruct from cannot be decoded; then it throws. */
  lemma FaultTolerance(s: Session, cfg: Config, replies: seq<Option<Reply>>, q: set<nat>,
                       sigs: seq<Option<Signature>>, batchId: string)
    requires WellFormed(s) && ValidConfig(cfg) && DistinctNodes(cfg) && ProperReplies(cfg, replies)
    requires |cfg.nodes| >= 2 && Quorum(q, |cfg.nodes|) && forall i :: i in q ==> Serves(s, cfg, replies, i)
    requires Count(sigs) >= Threshold(|cfg.nodes|)
    ensures var d := AfterDecrypt(s, cfg, replies);
            if Undecodable(ApplyReplies(s.shares, replies, |replies|), cfg.nodes, s.order) then d.threw
            else d.matches.Some? && AfterSign(d.session, cfg, sigs, batchId, d.matches.value).status == Signed
  {
    var sh := ApplyReplies(s.shares, replies, |replies|);
    CountAtLeast(replies, q);
    forall j | 0 <= j < |s.order| ensures |Available(sh, cfg.nodes, s.order[j])| >= 2 {
      QuorumServes(s, cfg, replies, q, j);
    }
    EndOfServed(sh, cfg.nodes, s.order);
  }

  lemma EndOfServed(sh: Shares, nodes: seq<string>, ids: seq<string>)
    requires forall j :: 0 <= j < |ids| ==> |Available(sh, nodes, ids[j])| >= 2
    ensures LoopEnd(sh, nodes, ids, |ids|) == if Undecodable(sh, nodes, ids) then Thrown else Done
  {
    var k := LoopEnds(sh, nodes, ids);
    if Undecodable(sh, nodes, ids) {
      var j :| 0 <= j < |ids| && !Decodable(Available(sh, nodes, ids[j]));
      assert ThrowsAt(sh, nodes, ids, j);
      ThrowsIff(sh, nodes, ids);
    } else {
      forall j | 0 <= j < |ids| ensures Check(sh, nodes, ids[j]).Done? {
        assert Decodable(Available(sh, nodes, ids[j]));
      }
    }
  }

  /** With fewer than two endpoints no round can succeed. */
  lemma TwoNodesNeeded(s: Session, cfg: Config, replies: seq<Option<Reply>>)
    requires WellFormed(s) && ValidConfig(cfg) && |s.order| > 0 && |cfg.nodes| < 2
    ensures AfterDecrypt(s, cfg, replies).matches.None? && AfterDecrypt(s, cfg, replies).session.status == Failed
  {
    var sh := ApplyReplies(s.shares, replies, |replies|);
    DecryptedAtMost(sh, cfg.nodes, s.order[0], |cfg.nodes|);
    var k := LoopEnds(sh, cfg.nodes, s.order);
    assert Check(sh, cfg.nodes, s.order[0]).Short?;
  }

  // ----- all quorums see the same amounts -----

  /** What the client sent: per intent the amount and the one random coefficient
      of its 2-of-n sharing. */
  datatype Secret = Secret(amount: int, slope: int)

  function ShareOf(secret: Secret, i: nat, cfg: Config): Point
    requires cfg.p > 0 && i < |cfg.nodes|
  {
    SharesOf(Coefficients(secret.amount, [secret.slope], cfg.p), |cfg.nodes|, cfg.p)[i]
  }

  /** Every decrypted share of this intent is the one the client dealt. */
  ghost predicate HonestSlots(sh: Shares, cfg: Config, id: string, secret: Secret)
    requires cfg.p > 0
  {
    forall i :: 0 <= i < |cfg.nodes| && Slot(cfg.nodes[i], id) in sh && sh[Slot(cfg.nodes[i], id)].dec.Some?
      ==> sh[Slot(cfg.nodes[i], id)].dec.value == EncodeShare(ShareOf(secret, i, cfg))
  }

  /** The endpoints whose shares were decrypted, in order. */
  function Sources(sh: Shares, nodes: seq<string>, id: string, n: nat): seq<nat>
    requires n <= |nodes|
  {
    if n == 0 then []
    else
      var prev, slot := Sources(sh, nodes, id, n - 1), Slot(nodes[n - 1], id);
      if slot in sh && sh[slot].dec.Some? then prev + [n - 1] else prev
  }

  /** The texts are the shares of the given endpoints. */
  ghost predicate Encoded(ts: seq<Text>, picks: seq<nat>, secret: Secret, cfg: Config)
    requires cfg.p > 0
  {
    |ts| == |picks| && forall i :: 0 <= i < |ts| ==> picks[i] < |cfg.nodes| && ts[i] == EncodeShare(ShareOf(secret, picks[i], cfg))
  }

  lemma {:induction false} SourcesEncoded(sh: Shares, cfg: Config, id: string, secret: Secret, n: nat)
    requires cfg.p > 0 && n <= |cfg.nodes| && HonestSlots(sh, cfg, id, secret)
    ensures DistinctBelow(Sources(sh, cfg.nodes, id, n), n)
    ensures Encoded(Decrypted(sh, cfg.nodes, id, n), Sources(sh, cfg.nodes, id, n), secret, cfg)
  {
    if n > 0 {
      SourcesEncoded(sh, cfg, id, secret, n - 1);
    }
  }

  lemma EncodedDecodes(ts: seq<Text>, picks: seq<nat>, secret: Secret, cfg: Config)
    requires cfg.p > 0 && Encoded(ts, picks, secret, cfg)
    ensures Decodable(ts)
    ensures Points(ts) == Pick(SharesOf(Coefficients(secret.amount, [secret.slope], cfg.p), |cfg.nodes|, cfg.p), picks)
  {
    forall i | 0 <= i < |ts| ensures DecodeShare(ts[i]) == Some(ShareOf(secret, picks[i], cfg)) {
      DecodeEncode(ShareOf(secret, picks[i], cfg));
    }
  }

  /** Any two honest shares can be decoded and reconstruct the amount that was
      split. */
  lemma HonestAmount(sh: Shares, cfg: Config, id: string, secret: Secret)
    requires Prime(cfg.p) && |cfg.nodes| < cfg.p && HonestSlots(sh, cfg, id, secret)
    ensures Decodable(Available(sh, cfg.nodes, id))
    ensures |Available(sh, cfg.nodes, id)| >= 2
            ==> LagrangeAt(Points(Available(sh, cfg.nodes, id)), 0, cfg.p) % cfg.p == secret.amount % cfg.p
  {
    var n := |cfg.nodes|;
    SourcesEncoded(sh, cfg, id, secret, n);
    var all := Sources(sh, cfg.nodes, id, n);
    var picks := if |all| > 2 then all[..2] else all;
    EncodedDecodes(Available(sh, cfg.nodes, id), picks, secret, cfg);
    if |picks| >= 2 {
      SplitReconstruct(secret.amount, [secret.slope], n, picks, cfg.p);
    }
  }

  type Secrets = map<string, Secret>

  /** Every intent of the session was dealt by some client. */
  predicate Dealt(s: Session, secrets: Secrets) {
    forall j :: 0 <= j < |s.order| ==> s.order[j] in secrets
  }

  ghost predicate HonestSession(s: Session, sh: Shares, cfg: Config, secrets: Secrets)
    requires Dealt(s, secrets)
  {
    cfg.p > 0 && forall j :: 0 <= j < |s.order| ==> HonestSlots(sh, cfg, s.order[j], secrets[s.order[j]])
  }

  /** The intents as their owners submitted them. */
  ghost function TrueIntents(s: Session, secrets: Secrets, p: int): (t: seq<Netting.Intent>)
    requires WellFormed(s) && p > 0 && Dealt(s, secrets)
    ensures |t| == |s.order|
  {
    seq(|s.order|, j requires 0 <= j < |s.order| =>
      assert s.order[j] in s.order;
      var id := s.order[j];
      Netting.Intent(id, secrets[id].amount % p, s.intents[id].inAsset, s.intents[id].outAsset))
  }

  /** The matches of the intents as submitted. */
  ghost function TrueMatches(s: Session, secrets: Secrets, cfg: Config): seq<Netting.Match>
    requires WellFormed(s) && cfg.p > 0 && Dealt(s, secrets)
  {
    Netting.Matches(Netting.Pairs(TrueIntents(s, secrets, cfg.p), cfg.sort))
  }

  /** Honest shares never make a round throw. */
  lemma HonestNeverThrows(s: Session, sh: Shares, cfg: Config, secrets: Secrets)
    requires WellFormed(s) && ValidConfig(cfg) && |cfg.nodes| < cfg.p && Dealt(s, secrets) && HonestSession(s, sh, cfg, secrets)
    ensures !Conclude(s, sh, cfg).threw
  {
    ThrowsIff(sh, cfg.nodes, s.order);
    forall k: nat | k < |s.order| ensures !ThrowsAt(sh, cfg.nodes, s.order, k) {
      HonestAmount(sh, cfg, s.order[k], secrets[s.order[k]]);
    }
  }

  lemma DoneMeansTwo(sh: Shares, nodes: seq<string>, ids: seq<string>, j: nat)
    requires j < |ids| && LoopEnd(sh, nodes, ids, |ids|).Done?
    ensures |Available(sh, nodes, ids[j])| >= 2
  {
    var k := LoopEnds(sh, nodes, ids);
  }

  lemma HonestConclusion(s: Session, sh: Shares, cfg: Config, secrets: Secrets)
    requires WellFormed(s) && ValidConfig(cfg) && |cfg.nodes| < cfg.p && Dealt(s, secrets) && HonestSession(s, sh, cfg, secrets)
    requires Conclude(s, sh, cfg).matches.Some?
    ensures Conclude(s, sh, cfg).matches.value == TrueMatches(s, secrets, cfg)
  {
    var rec, t := PlainIntents(s, sh, cfg, |s.order|), TrueIntents(s, secrets, cfg.p);
    forall j | 0 <= j < |s.order| ensures rec[j] == t[j] {
      DoneMeansTwo(sh, cfg.nodes, s.order, j);
      HonestAmount(sh, cfg, s.order[j], secrets[s.order[j]]);
    }
    assert rec == t;
  }

  /** Nodes answer with the shares the clients dealt, or with null. */
  ghost predicate HonestReplies(s: Session, cfg: Config, replies: seq<Option<Reply>>, secrets: Secrets)
    requires Dealt(s, secrets)
  {
    && cfg.p > 0 && ProperReplies(cfg, replies)
    && forall i, j :: 0 <= i < |replies| && 0 <= j < |s.order| ==>
         HonestReply(cfg, replies[i], i, s.order[j], secrets[s.order[j]])
  }

  ghost predicate HonestReply(cfg: Config, r: Option<Reply>, i: nat, id: string, secret: Secret)
    requires cfg.p > 0
  {
    (i < |cfg.nodes| && r.Some? && id in r.value.shares && r.value.shares[id].Some?)
      ==> r.value.shares[id].value == EncodeShare(ShareOf(secret, i, cfg))
  }

  /** Quorum independence: whichever honest nodes answered, a remote round that
      gets past decryption computes the matches of the submitted intents. */
  lemma RemoteMatches(s: Session, cfg: Config, replies: seq<Option<Reply>>, secrets: Secrets)
    requires WellFormed(s) && ValidConfig(cfg) && DistinctNodes(cfg) && |cfg.nodes| < cfg.p
    requires Clean(s.shares) && Dealt(s, secrets) && HonestReplies(s, cfg, replies, secrets)
    ensures var d := AfterDecrypt(s, cfg, replies);
      !d.threw && (d.matches.Some? ==> d.matches.value == TrueMatches(s, secrets, cfg))
  {
    var sh := ApplyReplies(s.shares, replies, |replies|);
    forall j | 0 <= j < |s.order| ensures HonestSlots(sh, cfg, s.order[j], secrets[s.order[j]]) {
      var id := s.order[j];
      forall i | 0 <= i < |cfg.nodes| && Slot(cfg.nodes[i], id) in sh && sh[Slot(cfg.nodes[i], id)].dec.Some?
        ensures sh[Slot(cfg.nodes[i], id)].dec.value == EncodeShare(ShareOf(secrets[id], i, cfg))
      {
        OwnSlot(cfg, s.shares, replies, i, id);
        assert HonestReply(cfg, replies[i], i, id, secrets[id]);
      }
    }
    HonestNeverThrows(s, sh, cfg, secrets);
    if AfterDecrypt(s, cfg, replies).matches.Some? {
      HonestConclusion(s, sh, cfg, secrets);
    }
  }

  // ----- the in-process round agrees -----

  /** What decryption leaves in a slot of a processed node. */
  ghost predicate Opened(sh: Shares, sh': Shares, cfg: Config, slot: Slot) {
    slot in sh && slot in sh' && sh'[slot].cipher == sh[slot].cipher
    && Some(sh'[slot].dec) == cfg.decrypt(slot.node, sh[slot].cipher)
  }

  lemma {:induction false} NodeOpens(sh: Shares, cfg: Config, node: string, ids: seq<string>, n: nat, slot: Slot)
    requires n <= |ids| && DecryptNode(sh, cfg, node, ids, n).ok && slot in sh
    ensures var sh' := DecryptNode(sh, cfg, node, ids, n).shares;
            slot in sh' && (if slot.node == node && slot.id in ids[..n] then Opened(sh, sh', cfg, slot) else sh'[slot] == sh[slot])
  {
    if n > 0 {
      NodeOpens(sh, cfg, node, ids, n - 1, slot);
      assert ids[..n] == ids[..n - 1] + [ids[n - 1]];
    }
  }

  lemma {:induction false} AllOpen(sh: Shares, cfg: Config, ids: seq<string>, n: nat, slot: Slot)
    requires n <= |cfg.nodes| && DecryptAll(sh, cfg, ids, n).ok && slot in sh
    ensures var sh' := DecryptAll(sh, cfg, ids, n).shares;
            slot in sh' && (if slot.node in cfg.nodes[..n] && slot.id in ids then Opened(sh, sh', cfg, slot) else sh'[slot] == sh[slot])
  {
    if n > 0 {
      AllOpen(sh, cfg, ids, n - 1, slot);
      var mid := DecryptAll(sh, cfg, ids, n - 1).shares;
      NodeOpens(mid, cfg, cfg.nodes[n - 1], ids, |ids|, slot);
      assert cfg.nodes[..n] == cfg.nodes[..n - 1] + [cfg.nodes[n - 1]];
      assert ids[..|ids|] == ids;
    }
  }

  lemma {:induction false} AllKeys(sh: Shares, cfg: Config, ids: seq<string>, n: nat)
    requires n <= |cfg.nodes|
    ensures DecryptAll(sh, cfg, ids, n).shares.Keys == sh.Keys
  {
    if n > 0 {
      AllKeys(sh, cfg, ids, n - 1);
      NodeKeys(DecryptAll(sh, cfg, ids, n - 1).shares, cfg, cfg.nodes[n - 1], ids, |ids|);
    }
  }

  lemma {:induction false} NodeKeys(sh: Shares, cfg: Config, node: string, ids: seq<string>, n: nat)
    requires n <= |ids|
    ensures DecryptNode(sh, cfg, node, ids, n).shares.Keys == sh.Keys
  {
    if n > 0 {
      NodeKeys(sh, cfg, node, ids, n - 1);
    }
  }

  /** The ciphertexts decrypt to the shares the clients dealt. */
  ghost predicate HonestCiphers(s: Session, cfg: Config, secrets: Secrets)
    requires Dealt(s, secrets)
  {
    cfg.p > 0 && forall i, j :: 0 <= i < |cfg.nodes| && 0 <= j < |s.order| ==>
      HonestCipher(s.shares, cfg, i, s.order[j], secrets[s.order[j]])
  }

  ghost predicate HonestCipher(sh: Shares, cfg: Config, i: nat, id: string, secret: Secret)
    requires cfg.p > 0
  {
    (i < |cfg.nodes| && Slot(cfg.nodes[i], id) in sh)
      ==> cfg.decrypt(cfg.nodes[i], sh[Slot(cfg.nodes[i], id)].cipher) in {None, Some(None), Some(Some(EncodeShare(ShareOf(secret, i, cfg))))}
  }

  lemma LocalSlotsHonest(s: Session, cfg: Config, secrets: Secrets, j: nat)
    requires j < |s.order| && Dealt(s, secrets) && HonestCiphers(s, cfg, secrets)
    requires DecryptAll(s.shares, cfg, s.order, |cfg.nodes|).ok
    ensures HonestSlots(DecryptAll(s.shares, cfg, s.order, |cfg.nodes|).shares, cfg, s.order[j], secrets[s.order[j]])
  {
    var id, sh := s.order[j], DecryptAll(s.shares, cfg, s.order, |cfg.nodes|).shares;
    AllKeys(s.shares, cfg, s.order, |cfg.nodes|);
    forall i | 0 <= i < |cfg.nodes| && Slot(cfg.nodes[i], id) in sh && sh[Slot(cfg.nodes[i], id)].dec.Some?
      ensures sh[Slot(cfg.nodes[i], id)].dec.value == EncodeShare(ShareOf(secrets[id], i, cfg))
    {
      AllOpen(s.shares, cfg, s.order, |cfg.nodes|, Slot(cfg.nodes[i], id));
      assert cfg.nodes[..|cfg.nodes|] == cfg.nodes;
      assert HonestCipher(s.shares, cfg, i, id, secrets[id]);
    }
  }

  // when an honest in-process round is signed

  /** The slot decrypts without an error. */
  predicate Opens(sh: Shares, cfg: Config, slot: Slot) {
    slot in sh ==> cfg.decrypt(slot.node, sh[slot].cipher).Some?
  }

  lemma {:induction false} NodeOkIff(sh: Shares, cfg: Config, node: string, ids: seq<string>, n: nat)
    requires n <= |ids|
    ensures DecryptNode(sh, cfg, node, ids, n).ok <==> forall j :: 0 <= j < n ==> Opens(sh, cfg, Slot(node, ids[j]))
  {
    if n > 0 {
      NodeOkIff(sh, cfg, node, ids, n - 1);
      if DecryptNode(sh, cfg, node, ids, n - 1).ok {
        NodeCipher(sh, cfg, node, ids, n - 1, Slot(node, ids[n - 1]));
      }
    }
  }

  /** Decrypting touches no ciphertext. */
  lemma {:induction false} NodeCipher(sh: Shares, cfg: Config, node: string, ids: seq<string>, n: nat, slot: Slot)
    requires n <= |ids|
    ensures var sh' := DecryptNode(sh, cfg, node, ids, n).shares;
            (slot in sh' <==> slot in sh) && (slot in sh ==> sh'[slot].cipher == sh[slot].cipher)
  {
    if n > 0 {
      NodeCipher(sh, cfg, node, ids, n - 1, slot);
    }
  }

  lemma {:induction false} AllCipher(sh: Shares, cfg: Config, ids: seq<string>, n: nat, slot: Slot)
    requires n <= |cfg.nodes|
    ensures var sh' := DecryptAll(sh, cfg, ids, n).shares;
            (slot in sh' <==> slot in sh) && (slot in sh ==> sh'[slot].cipher == sh[slot].cipher)
  {
    if n > 0 {
      AllCipher(sh, cfg, ids, n - 1, slot);
      NodeCipher(DecryptAll(sh, cfg, ids, n - 1).shares, cfg, cfg.nodes[n - 1], ids, |ids|, slot);
    }
  }

  /** Every slot of node i decrypts. */
  predicate NodeOpensAll(sh: Shares, cfg: Config, ids: seq<string>, i: nat) {
    i < |cfg.nodes| ==> forall j :: 0 <= j < |ids| ==> Opens(sh, cfg, Slot(cfg.nodes[i], ids[j]))
  }

  lemma {:induction false} AllOkIff(sh: Shares, cfg: Config, ids: seq<string>, n: nat)
    requires n <= |cfg.nodes|
    ensures DecryptAll(sh, cfg, ids, n).ok <==> forall i: nat :: i < n ==> NodeOpensAll(sh, cfg, ids, i)
  {
    if n > 0 {
      AllOkIff(sh, cfg, ids, n - 1);
      if DecryptAll(sh, cfg, ids, n - 1).ok {
        SameOpens(sh, cfg, ids, n);
      }
    }
  }

  lemma SameOpens(sh: Shares, cfg: Config, ids: seq<string>, n: nat)
    requires 0 < n <= |cfg.nodes|
    ensures DecryptNode(DecryptAll(sh, cfg, ids, n - 1).shares, cfg, cfg.nodes[n - 1], ids, |ids|).ok
            <==> NodeOpensAll(sh, cfg, ids, n - 1)
  {
    var mid, node := DecryptAll(sh, cfg, ids, n - 1).shares, cfg.nodes[n - 1];
    NodeOkIff(mid, cfg, node, ids, |ids|);
    forall j | 0 <= j < |ids| ensures Opens(mid, cfg, Slot(node, ids[j])) <==> Opens(sh, cfg, Slot(node, ids[j])) {
      AllCipher(sh, cfg, ids, n - 1, Slot(node, ids[j]));
    }
  }

  predicate Holds(sh: Shares, nodes: seq<string>, id: string, i: nat) {
    i < |nodes| && Slot(nodes[i], id) in sh && sh[Slot(nodes[i], id)].dec.Some?
  }

  ghost predicate TwoHold(sh: Shares, nodes: seq<string>, id: string, n: nat) {
    exists i: nat, k: nat :: i < k < n && Holds(sh, nodes, id, i) && Holds(sh, nodes, id, k)
  }

  lemma {:induction false} OneDecrypted(sh: Shares, nodes: seq<string>, id: string, n: nat) returns (i: nat)
    requires n <= |nodes| && |Decrypted(sh, nodes, id, n)| >= 1
    ensures i < n && Holds(sh, nodes, id, i)
  {
    if Holds(sh, nodes, id, n - 1) {
      i := n - 1;
    } else {
      i := OneDecrypted(sh, nodes, id, n - 1);
    }
  }

  lemma {:induction false} TwoDecrypted(sh: Shares, nodes: seq<string>, id: string, n: nat)
    requires n <= |nodes| && |Decrypted(sh, nodes, id, n)| >= 2
    ensures TwoHold(sh, nodes, id, n)
  {
    if Holds(sh, nodes, id, n - 1) {
      var i := OneDecrypted(sh, nodes, id, n - 1);
      assert Holds(sh, nodes, id, i) && i < n - 1;
    } else {
      TwoDecrypted(sh, nodes, id, n - 1);
    }
  }

  lemma AvailableIff(sh: Shares, nodes: seq<string>, id: string)
    ensures |Available(sh, nodes, id)| >= 2 <==> TwoHold(sh, nodes, id, |nodes|)
  {
    if |Available(sh, nodes, id)| >= 2 {
      TwoDecrypted(sh, nodes, id, |nodes|);
    }
    if TwoHold(sh, nodes, id, |nodes|) {
      var i: nat, k: nat :| i < k < |nodes| && Holds(sh, nodes, id, i) && Holds(sh, nodes, id, k);
      DecryptedAtLeast(sh, nodes, id, |nodes|, {i, k});
    }
  }

  /** Endpoint i has a ciphertext for the intent that decrypts to a share. */
  predicate Yields(sh: Shares, cfg: Config, id: string, i: nat) {
    && i < |cfg.nodes| && Slot(cfg.nodes[i], id) in sh
    && var d := cfg.decrypt(cfg.nodes[i], sh[Slot(cfg.nodes[i], id)].cipher); d.Some? && d.value.Some?
  }

  ghost predicate TwoYield(sh: Shares, cfg: Config, id: string) {
    exists i: nat, k: nat :: i < k && Yields(sh, cfg, id, i) && Yields(sh, cfg, id, k)
  }

  /** No ciphertext of the session's intents fails to decrypt, and two endpoints
      have a share of every intent. */
  ghost predicate Decryptable(s: Session, cfg: Config) {
    && (forall i: nat :: i < |cfg.nodes| ==> NodeOpensAll(s.shares, cfg, s.order, i))
    && (forall j :: 0 <= j < |s.order| ==> TwoYield(s.shares, cfg, s.order[j]))
  }

  lemma HoldsIffYields(s: Session, cfg: Config, j: nat, i: nat)
    requires j < |s.order| && i < |cfg.nodes| && DecryptAll(s.shares, cfg, s.order, |cfg.nodes|).ok
    ensures Holds(DecryptAll(s.shares, cfg, s.order, |cfg.nodes|).shares, cfg.nodes, s.order[j], i)
            <==> Yields(s.shares, cfg, s.order[j], i)
  {
    var slot := Slot(cfg.nodes[i], s.order[j]);
    AllKeys(s.shares, cfg, s.order, |cfg.nodes|);
    if slot in s.shares {
      AllOpen(s.shares, cfg, s.order, |cfg.nodes|, slot);
      assert cfg.nodes[..|cfg.nodes|] == cfg.nodes;
    }
  }

  lemma TwoHoldIffYield(s: Session, cfg: Config, j: nat)
    requires j < |s.order| && DecryptAll(s.shares, cfg, s.order, |cfg.nodes|).ok
    ensures TwoHold(DecryptAll(s.shares, cfg, s.order, |cfg.nodes|).shares, cfg.nodes, s.order[j], |cfg.nodes|)
            <==> TwoYield(s.shares, cfg, s.order[j])
  {
    var sh, id := DecryptAll(s.shares, cfg, s.order, |cfg.nodes|).shares, s.order[j];
    forall i: nat | i < |cfg.nodes| ensures Holds(sh, cfg.nodes, id, i) <==> Yields(s.shares, cfg, id, i) {
      HoldsIffYields(s, cfg, j, i);
    }
    if TwoHold(sh, cfg.nodes, id, |cfg.nodes|) {
      var i: nat, k: nat :| i < k < |cfg.nodes| && Holds(sh, cfg.nodes, id, i) && Holds(sh, cfg.nodes, id, k);
      assert Yields(s.shares, cfg, id, i) && Yields(s.shares, cfg, id, k);
    }
    if TwoYield(s.shares, cfg, id) {
      var i: nat, k: nat :| i < k && Yields(s.shares, cfg, id, i) && Yields(s.shares, cfg, id, k);
      assert Holds(sh, cfg.nodes, id, i) && Holds(sh, cfg.nodes, id, k);
    }
  }

  /** The loop over intents is done exactly when all have two shares, if nothing
      throws. */
  lemma DoneIffTwo(sh: Shares, nodes: seq<string>, ids: seq<string>)
    requires !Throws(sh, nodes, ids)
    ensures LoopEnd(sh, nodes, ids, |ids|).Done? <==> forall j :: 0 <= j < |ids| ==> TwoHold(sh, nodes, ids[j], |nodes|)
  {
    forall j | 0 <= j < |ids| ensures |Available(sh, nodes, ids[j])| >= 2 <==> TwoHold(sh, nodes, ids[j], |nodes|) {
      AvailableIff(sh, nodes, ids[j]);
    }
    if LoopEnd(sh, nodes, ids, |ids|).Done? {
      forall j | 0 <= j < |ids| ensures |Available(sh, nodes, ids[j])| >= 2 {
        DoneMeansTwo(sh, nodes, ids, j);
      }
    } else if forall j :: 0 <= j < |ids| ==> |Available(sh, nodes, ids[j])| >= 2 {
      EndOfServed(sh, nodes, ids);
      ThrowsIff(sh, nodes, ids);
    }
  }

  lemma LocalNeverThrows(s: Session, cfg: Config, secrets: Secrets)
    requires WellFormed(s) && ValidConfig(cfg) && |cfg.nodes| < cfg.p && Dealt(s, secrets) && HonestCiphers(s, cfg, secrets)
    requires DecryptAll(s.shares, cfg, s.order, |cfg.nodes|).ok
    ensures !Conclude(s.(status := Matching), DecryptAll(s.shares, cfg, s.order, |cfg.nodes|).shares, cfg).threw
  {
    var m, sh := s.(status := Matching), DecryptAll(s.shares, cfg, s.order, |cfg.nodes|).shares;
    forall j | 0 <= j < |s.order| ensures HonestSlots(sh, cfg, s.order[j], secrets[s.order[j]]) {
      LocalSlotsHonest(s, cfg, secrets, j);
    }
    HonestNeverThrows(m, sh, cfg, secrets);
  }

  lemma LocalStatus(s: Session, cfg: Config, batchId: string)
    requires WellFormed(s) && ValidConfig(cfg) && |s.intents| >= 2
    ensures var dec := DecryptAll(s.shares, cfg, s.order, |cfg.nodes|);
      LocalRound(s, cfg, batchId).status == Signed <==> dec.ok && LoopEnd(dec.shares, cfg.nodes, s.order, |s.order|).Done?
  {
  }

  lemma LocalDoneIff(s: Session, cfg: Config, secrets: Secrets)
    requires WellFormed(s) && ValidConfig(cfg) && |cfg.nodes| < cfg.p && Dealt(s, secrets) && HonestCiphers(s, cfg, secrets)
    requires DecryptAll(s.shares, cfg, s.order, |cfg.nodes|).ok
    ensures LoopEnd(DecryptAll(s.shares, cfg, s.order, |cfg.nodes|).shares, cfg.nodes, s.order, |s.order|).Done?
            <==> forall j :: 0 <= j < |s.order| ==> TwoYield(s.shares, cfg, s.order[j])
  {
    var sh := DecryptAll(s.shares, cfg, s.order, |cfg.nodes|).shares;
    LocalNeverThrows(s, cfg, secrets);
    ConcludeThrowsIff(s.(status := Matching), sh, cfg);
    DoneIffTwo(sh, cfg.nodes, s.order);
    forall j | 0 <= j < |s.order|
      ensures TwoHold(sh, cfg.nodes, s.order[j], |cfg.nodes|) <==> TwoYield(s.shares, cfg, s.order[j])
    {
      TwoHoldIffYield(s, cfg, j);
    }
  }

  /** An honest in-process round ends signed if and only if no ciphertext fails to
      decrypt and every intent has two shares. */
  lemma LocalSignedIff(s: Session, cfg: Config, batchId: string, secrets: Secrets)
    requires WellFormed(s) && ValidConfig(cfg) && |cfg.nodes| < cfg.p && |s.intents| >= 2
    requires s.status == Open && Dealt(s, secrets) && HonestCiphers(s, cfg, secrets)
    ensures LocalRound(s, cfg, batchId).status == Signed <==> Decryptable(s, cfg)
  {
    LocalStatus(s, cfg, batchId);
    AllOkIff(s.shares, cfg, s.order, |cfg.nodes|);
    if DecryptAll(s.shares, cfg, s.order, |cfg.nodes|).ok {
      LocalDoneIff(s, cfg, secrets);
    }
  }

  /** An honest in-process round ends signed, with the matches of the submitted
      intents, as every remote quorum decides them, if no ciphertext fails to
      decrypt and every intent has two shares; otherwise it fails. */
  lemma LocalMatches(s: Session, cfg: Config, batchId: string, secrets: Secrets)
    requires WellFormed(s) && ValidConfig(cfg) && |cfg.nodes| < cfg.p && |s.intents| >= 2
    requires s.status == Open && Dealt(s, secrets) && HonestCiphers(s, cfg, secrets)
    ensures var r := LocalRound(s, cfg, batchId);
      if Decryptable(s, cfg) then r.status == Signed && r.batch.Some? && r.batch.value.matches == TrueMatches(s, secrets, cfg)
      else r.status == Failed
  {
    LocalSignedIff(s, cfg, batchId, secrets);
    if Decryptable(s, cfg) {
      LocalBatch(s, cfg, batchId, secrets);
    } else {
      LocalOtherwise(s, cfg, batchId, secrets);
    }
  }

  lemma LocalBatch(s: Session, cfg: Config, batchId: string, secrets: Secrets)
    requires WellFormed(s) && ValidConfig(cfg) && |cfg.nodes| < cfg.p && |s.intents| >= 2
    requires s.status == Open && Dealt(s, secrets) && HonestCiphers(s, cfg, secrets)
    requires LocalRound(s, cfg, batchId).status == Signed
    ensures var r := LocalRound(s, cfg, batchId); r.batch.Some? && r.batch.value.matches == TrueMatches(s, secrets, cfg)
  {
    var m := s.(status := Matching);
    var sh := DecryptAll(s.shares, cfg, s.order, |cfg.nodes|).shares;
    assert HonestSession(m, sh, cfg, secrets) by {
      forall j | 0 <= j < |s.order| ensures HonestSlots(sh, cfg, s.order[j], secrets[s.order[j]]) {
        LocalSlotsHonest(s, cfg, secrets, j);
      }
    }
    HonestConclusion(m, sh, cfg, secrets);
    assert TrueIntents(m, secrets, cfg.p) == TrueIntents(s, secrets, cfg.p);
  }

  lemma LocalOtherwise(s: Session, cfg: Config, batchId: string, secrets: Secrets)
    requires WellFormed(s) && ValidConfig(cfg) && |cfg.nodes| < cfg.p && |s.intents| >= 2
    requires s.status == Open && Dealt(s, secrets) && HonestCiphers(s, cfg, secrets)
    requires LocalRound(s, cfg, batchId).status != Signed
    ensures LocalRound(s, cfg, batchId).status == Failed
  {
    if DecryptAll(s.shares, cfg, s.order, |cfg.nodes|).ok {
      LocalNeverThrows(s, cfg, secrets);
    }
  }

  /** Clearing after decryption leaves nothing. */
  lemma LocalCleared(s: Session, cfg: Config)
    requires Clean(s.shares) && DecryptAll(s.shares, cfg, s.order, |cfg.nodes|).ok
    ensures Clean(Clear(DecryptAll(s.shares, cfg, s.order, |cfg.nodes|).shares, cfg.nodes))
  {
    var dec := DecryptAll(s.shares, cfg, s.order, |cfg.nodes|);
    AllKeys(s.shares, cfg, s.order, |cfg.nodes|);
    forall slot | slot in dec.shares ensures Clear(dec.shares, cfg.nodes)[slot].dec.None? {
      AllOpen(s.shares, cfg, s.order, |cfg.nodes|, slot);
      assert cfg.nodes[..|cfg.nodes|] == cfg.nodes;
    }
  }

  /** Unless it fails, the in-process round leaves no decrypted share if and only
      if it does not throw. */
  lemma LocalCleanIff(m: Session, cfg: Config)
    requires WellFormed(m) && ValidConfig(cfg) && Clean(m.shares)
    ensures var d := LocalDecision(m, cfg); d.session.status == Failed || (Clean(d.session.shares) <==> !d.threw)
  {
    var dec := DecryptAll(m.shares, cfg, m.order, |cfg.nodes|);
    if dec.ok {
      LocalCleared(m, cfg);
      if LocalDecision(m, cfg).threw {
        ThrownHoldsShares(m, dec.shares, cfg);
      }
    }
  }

  ghost predicate HasStray(cfg: Config, sh: Shares, replies: seq<Option<Reply>>) {
    exists slot, i: nat :: Stray(cfg, sh, replies, slot, i)
  }

  /** The same of the remote round, which also leaves shares if one of its answers
      was stray. */
  lemma RemoteCleanIff(m: Session, cfg: Config, replies: seq<Option<Reply>>)
    requires WellFormed(m) && ValidConfig(cfg) && Clean(m.shares)
    ensures var d := AfterDecrypt(m, cfg, replies);
      d.session.status == Failed || (Clean(d.session.shares) <==> !d.threw && !(d.matches.Some? && HasStray(cfg, m.shares, replies)))
  {
    ClearedIffNoStray(cfg, m.shares, replies);
    if AfterDecrypt(m, cfg, replies).threw {
      ThrownHoldsShares(m, ApplyReplies(m.shares, replies, |replies|), cfg);
    }
  }

  // ----- one undecodable share -----

  const OOPS := Text("1", "oops")

  const CIPHERS := [EncShare("n0", ""), EncShare("n1", ""), EncShare("n2", "")]
  const A := MpcIntent("a", "X", "Y", CIPHERS)
  const B := MpcIntent("b", "Y", "X", CIPHERS)

  /** A session in which A and B wait for their round. */
  function TwoIntents(): Session {
    var e := Entry("", None);
    Session("session-0", Matching, ["a", "b"], map["a" := A, "b" := B],
            map[Slot("n0", "a") := e, Slot("n1", "a") := e, Slot("n2", "a") := e,
                Slot("n0", "b") := e, Slot("n1", "b") := e, Slot("n2", "b") := e], None)
  }

  function Answer(node: string, a: Text): Option<Reply> {
    Some(Reply(node, map["a" := Some(a), "b" := Some(Text("1", "1"))]))
  }

  /** Three nodes answer in order, under their own ids, two of them well. */
  function OneBadAnswer(): seq<Option<Reply>> {
    [Answer("n0", OOPS), Answer("n1", Text("2", "5")), Answer("n2", Text("3", "6"))]
  }

  lemma OneBadAnswerServed(cfg: Config)
    requires cfg.nodes == ["n0", "n1", "n2"]
    ensures var s, replies, q := TwoIntents(), OneBadAnswer(), {1 as nat, 2};
      && WellFormed(s) && Clean(s.shares) && DistinctNodes(cfg) && ProperReplies(cfg, replies)
      && Quorum(q, 3) && (forall i :: i in q ==> Serves(s, cfg, replies, i))
  {
    var s, replies := TwoIntents(), OneBadAnswer();
    assert Serves(s, cfg, replies, 1) && Serves(s, cfg, replies, 2);
  }

  /** Whatever the quorum serves, an undecodable share of the first endpoint
      makes the round throw: the session stays as it is, with shares. */
  lemma FirstBadThrows(s: Session, cfg: Config, replies: seq<Option<Reply>>, q: set<nat>, j: nat, t: Text)
    requires WellFormed(s) && ValidConfig(cfg) && DistinctNodes(cfg) && ProperReplies(cfg, replies) && j < |s.order|
    requires |cfg.nodes| >= 2 && Quorum(q, |cfg.nodes|) && forall i :: i in q ==> Serves(s, cfg, replies, i)
    requires Slot(cfg.nodes[0], s.order[j]) in s.shares && Names(replies[0], Slot(cfg.nodes[0], s.order[j]))
    requires replies[0].value.shares[s.order[j]] == Some(t) && DecodeShare(t).None?
    ensures var d := AfterDecrypt(s, cfg, replies); d.threw && d.session.status == s.status && !Clean(d.session.shares)
  {
    var sh := ApplyReplies(s.shares, replies, |replies|);
    CountAtLeast(replies, q);
    forall k | 0 <= k < |s.order| ensures |Available(sh, cfg.nodes, s.order[k])| >= 2 {
      QuorumServes(s, cfg, replies, q, k);
    }
    OwnSlot(cfg, s.shares, replies, 0, s.order[j]);
    FirstShare(sh, cfg.nodes, s.order[j], t);
    BadFirst(Available(sh, cfg.nodes, s.order[j]), t);
    assert ThrowsAt(sh, cfg.nodes, s.order, j);
    ConcludeThrowsIff(s, sh, cfg);
    ThrownHoldsShares(s, sh, cfg);
  }

  lemma BadFirst(ts: seq<Text>, t: Text)
    requires ts != [] && ts[0] == t && DecodeShare(t).None?
    ensures !Decodable(ts)
  {
    assert DecodeShare(ts[0]).None?;
  }

  /** Nodes 1 and 2 are a quorum and serve good shares, and still the answer of
      node 0 makes the round throw. */
  lemma UndecodableWitness(cfg: Config)
    requires ValidConfig(cfg) && cfg.nodes == ["n0", "n1", "n2"]
    ensures var s, replies, q := TwoIntents(), OneBadAnswer(), {1 as nat, 2};
      && WellFormed(s) && ProperReplies(cfg, replies) && Quorum(q, 3) && (forall i :: i in q ==> Serves(s, cfg, replies, i))
      && var d := AfterDecrypt(s, cfg, replies);
         d.threw && d.session.status == Matching && !Clean(d.session.shares)
  {
    OneBadAnswerServed(cfg);
    OopsThrows("1");
    FirstBadThrows(TwoIntents(), cfg, OneBadAnswer(), {1, 2}, 0, OOPS);
  }

  /** A share of the first endpoint is the first available one. */
  lemma FirstShare(sh: Shares, nodes: seq<string>, id: string, t: Text)
    requires nodes != [] && Slot(nodes[0], id) in sh && sh[Slot(nodes[0], id)].dec == Some(t)
    ensures Available(sh, nodes, id) != [] && Available(sh, nodes, id)[0] == t
  {
    assert Decrypted(sh, nodes, id, 0) == [];
    assert Decrypted(sh, nodes, id, 1) == [t];
    CommitteeState.DecryptedPrefix(sh, nodes, id, 1, |nodes|);
  }

  lemma {:induction false} NodeSucceeds(sh: Shares, cfg: Config, node: string, ids: seq<string>, n: nat)
    requires n <= |ids| && forall m, c :: cfg.decrypt(m, c).Some?
    ensures DecryptNode(sh, cfg, node, ids, n).ok
  {
    if n > 0 {
      NodeSucceeds(sh, cfg, node, ids, n - 1);
    }
  }

  lemma {:induction false} AllSucceed(sh: Shares, cfg: Config, ids: seq<string>, n: nat)
    requires n <= |cfg.nodes| && forall m, c :: cfg.decrypt(m, c).Some?
    ensures DecryptAll(sh, cfg, ids, n).ok
  {
    if n > 0 {
      AllSucceed(sh, cfg, ids, n - 1);
      NodeSucceeds(DecryptAll(sh, cfg, ids, n - 1).shares, cfg, cfg.nodes[n - 1], ids, |ids|);
    }
  }

  /** The in-process round throws in the same way when what a client encrypted
      cannot be decoded. */
  lemma LocalUndecodableWitness(cfg: Config)
    requires ValidConfig(cfg) && cfg.nodes == ["n0", "n1", "n2"] && forall m, c :: cfg.decrypt(m, c) == Some(Some(OOPS))
    ensures var d := LocalDecision(TwoIntents(), cfg); d.threw && d.session.status == Matching && !Clean(d.session.shares)
  {
    var s := TwoIntents();
    OneBadAnswerServed(cfg);
    AllSucceed(s.shares, cfg, s.order, 3);
    var sh := DecryptAll(s.shares, cfg, s.order, 3).shares;
    assert cfg.nodes[..3] == cfg.nodes;
    AllOpen(s.shares, cfg, s.order, 3, Slot("n0", "a"));
    AllOpen(s.shares, cfg, s.order, 3, Slot("n1", "a"));
    DecryptedAtLeast(sh, cfg.nodes, "a", 3, {0 as nat, 1});
    FirstShare(sh, cfg.nodes, "a", OOPS);
    OopsThrows("1");
    BadFirst(Available(sh, cfg.nodes, "a"), OOPS);
    assert ThrowsAt(sh, cfg.nodes, s.order, 0);
    LocalThrowsIff(s, cfg);
    ThrownHoldsShares(s, sh, cfg);
  }
}
