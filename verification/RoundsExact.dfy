/** What each piece of a round does to a session, said without the functions that
    compute it: submissions, decrypt answers, the two shares that are used, where
    decryption stops, and what a signed batch holds. */
module RoundsExact {
  import opened Wrappers
  import opened Encoding
  import opened Field
  import opened Polynomial
  import opened Session
  import opened Rounds
  import Netting
  import Shamir

  // ----- submission -----

  /** The position of a node's last share in a submission, or -1. */
  predicate LastFor(encs: seq<EncShare>, node: string, i: int) {
    && -1 <= i < |encs|
    && (i >= 0 ==> encs[i].node == node)
    && forall j :: i < j < |encs| ==> encs[j].node != node
  }

  /** The slots after a submission: a node's last share of the intent, not yet
      decrypted; every other slot as before. */
  lemma {:induction false} PutExactly(sh: Shares, id: string, encs: seq<EncShare>, slot: Slot, i: int)
    requires LastFor(encs, slot.node, i)
    ensures var sh' := PutShares(sh, id, encs);
      if slot.id == id && i >= 0 then slot in sh' && sh'[slot] == Entry(encs[i].cipher, None)
      else (slot in sh' <==> slot in sh) && (slot in sh ==> sh'[slot] == sh[slot])
  {
    if slot.id != id {
      PutOther(sh, id, encs, slot);
    } else if encs != [] && i < |encs| - 1 {
      var init := encs[..|encs| - 1];
      assert LastFor(init, slot.node, i);
      PutExactly(sh, id, init, slot, i);
      assert encs[|encs| - 1].node != slot.node;
    }
  }

  lemma {:induction false} PutOther(sh: Shares, id: string, encs: seq<EncShare>, slot: Slot)
    requires slot.id != id
    ensures var sh' := PutShares(sh, id, encs); (slot in sh' <==> slot in sh) && (slot in sh ==> sh'[slot] == sh[slot])
  {
    if encs != [] {
      PutOther(sh, id, encs[..|encs| - 1], slot);
    }
  }

  /** A submission: the intent enters the map, at the end of the order if it is
      new and at its old place otherwise; name, status and batch stay. */
  lemma SubmitExactly(s: Session, intent: MpcIntent)
    requires WellFormed(s)
    ensures var s' := Submit(s, intent);
      && s'.name == s.name && s'.status == s.status && s'.batch == s.batch
      && intent.id in s'.intents && s'.intents[intent.id] == intent
      && (forall id :: id != intent.id ==> (id in s'.intents <==> id in s.intents) && (id in s.intents ==> s'.intents[id] == s.intents[id]))
      && s.order <= s'.order
      && (if intent.id in s.intents then |s'.order| == |s.order| else |s'.order| == |s.order| + 1 && s'.order[|s.order|] == intent.id)
  {
  }

  /** A new session holds nothing and is open. */
  lemma EmptyExactly(name: string)
    ensures var s := EmptySession(name);
      s.name == name && s.status.Open? && s.order == [] && |s.intents| == 0 && |s.shares| == 0 && s.batch.None?
  {
  }

  // ----- a session that is too small -----

  /** With fewer than two intents no round does anything. */
  lemma TooFewIntents(s: Session, cfg: Config, batchId: string)
    requires WellFormed(s) && ValidConfig(cfg) && |s.intents| < 2
    ensures Begin(s) == s && LocalRound(s, cfg, batchId) == s
  {
  }

  /** Otherwise a remote round begins by marking the session, and only that. */
  lemma BeginExactly(s: Session)
    requires |s.intents| >= 2
    ensures var s' := Begin(s);
      && s'.status.Matching? && s'.name == s.name && s'.order == s.order && s'.intents == s.intents
      && s'.shares == s.shares && s'.batch == s.batch
  {
  }

  // ----- decrypt answers -----

  /** A slot after the answers: the last one that names it decides, and its
      ciphertext stays. */
  lemma AnswersExactly(sh: Shares, replies: seq<Option<Reply>>, slot: Slot, i: int)
    requires -1 <= i < |replies| && NotNamed(replies, i, |replies|, slot) && (i >= 0 ==> Names(replies[i], slot))
    ensures var sh' := ApplyReplies(sh, replies, |replies|);
      && (slot in sh' <==> slot in sh)
      && (slot in sh ==> sh'[slot].cipher == sh[slot].cipher
                         && sh'[slot].dec == if i >= 0 then replies[i].value.shares[slot.id] else sh[slot].dec)
  {
    var sh' := ApplyReplies(sh, replies, |replies|);
    assert slot in sh' <==> slot in sh'.Keys;
    if slot in sh {
      AnswerCipher(sh, replies, |replies|, slot);
      if i >= 0 {
        LastWord(sh, replies, |replies|, slot, i);
      } else {
        NoWord(sh, replies, |replies|, slot);
      }
    }
  }

  lemma {:induction false} AnswerCipher(sh: Shares, replies: seq<Option<Reply>>, n: nat, slot: Slot)
    requires n <= |replies| && slot in sh
    ensures ApplyReplies(sh, replies, n)[slot].cipher == sh[slot].cipher
  {
    if n > 0 {
      AnswerCipher(sh, replies, n - 1, slot);
    }
  }

  /** Clearing: decrypted shares of endpoints go, everything else stays. */
  lemma ClearExactly(sh: Shares, nodes: seq<string>, slot: Slot)
    ensures var sh' := Clear(sh, nodes);
      && (slot in sh' <==> slot in sh)
      && (slot in sh ==> sh'[slot].cipher == sh[slot].cipher
                         && sh'[slot].dec == if exists i :: 0 <= i < |nodes| && nodes[i] == slot.node then None else sh[slot].dec)
  {
    assert slot in Clear(sh, nodes) <==> slot in Clear(sh, nodes).Keys;
  }

  // ----- the two shares that are used -----

  function TextOf(sh: Shares, nodes: seq<string>, id: string, i: nat): Text
    requires Holds(sh, nodes, id, i)
  {
    sh[Slot(nodes[i], id)].dec.value
  }

  /** Endpoint i is the first holder from position lo on. */
  predicate FirstHolder(sh: Shares, nodes: seq<string>, id: string, lo: nat, i: nat) {
    lo <= i && Holds(sh, nodes, id, i) && forall j: nat :: lo <= j < i ==> !Holds(sh, nodes, id, j)
  }

  lemma {:induction false} DecryptedFrom(sh: Shares, nodes: seq<string>, id: string, n: nat, m: nat)
    requires m <= n <= |nodes| && forall j: nat :: m <= j < n ==> !Holds(sh, nodes, id, j)
    ensures Decrypted(sh, nodes, id, n) == Decrypted(sh, nodes, id, m)
  {
    if m < n {
      DecryptedFrom(sh, nodes, id, n - 1, m);
      assert !Holds(sh, nodes, id, n - 1);
    }
  }

  lemma DecryptedHolder(sh: Shares, nodes: seq<string>, id: string, i: nat)
    requires Holds(sh, nodes, id, i)
    ensures Decrypted(sh, nodes, id, i + 1) == Decrypted(sh, nodes, id, i) + [TextOf(sh, nodes, id, i)]
  {
  }

  lemma FirstDecrypted(sh: Shares, nodes: seq<string>, id: string, lo: nat, i: nat)
    requires lo <= |nodes| && FirstHolder(sh, nodes, id, lo, i)
    ensures Decrypted(sh, nodes, id, i + 1) == Decrypted(sh, nodes, id, lo) + [TextOf(sh, nodes, id, i)]
  {
    DecryptedFrom(sh, nodes, id, i, lo);
    DecryptedHolder(sh, nodes, id, i);
  }

  /** The shares used are those of the first two endpoints that hold one, in
      endpoint order. */
  lemma FirstTwoUsed(sh: Shares, nodes: seq<string>, id: string, i: nat, k: nat)
    requires FirstHolder(sh, nodes, id, 0, i) && FirstHolder(sh, nodes, id, i + 1, k)
    ensures Available(sh, nodes, id) == [TextOf(sh, nodes, id, i), TextOf(sh, nodes, id, k)]
  {
    TwoDecrypted(sh, nodes, id, i, k);
    PrefixStays(sh, nodes, id, k + 1, |nodes|);
    TwoFirst(Decrypted(sh, nodes, id, |nodes|), TextOf(sh, nodes, id, i), TextOf(sh, nodes, id, k));
  }

  lemma TwoDecrypted(sh: Shares, nodes: seq<string>, id: string, i: nat, k: nat)
    requires FirstHolder(sh, nodes, id, 0, i) && FirstHolder(sh, nodes, id, i + 1, k)
    ensures Decrypted(sh, nodes, id, k + 1) == [TextOf(sh, nodes, id, i), TextOf(sh, nodes, id, k)]
  {
    assert Decrypted(sh, nodes, id, 0) == [];
    FirstDecrypted(sh, nodes, id, 0, i);
    FirstDecrypted(sh, nodes, id, i + 1, k);
  }

  lemma TwoFirst(xs: seq<Text>, a: Text, b: Text)
    requires [a, b] <= xs
    ensures FirstTwo(xs) == [a, b]
  {
    assert xs[..2] == [a, b];
  }

  lemma {:induction false} PrefixStays(sh: Shares, nodes: seq<string>, id: string, m: nat, n: nat)
    requires m <= n <= |nodes|
    ensures Decrypted(sh, nodes, id, m) <= Decrypted(sh, nodes, id, n)
  {
    if m < n {
      PrefixStays(sh, nodes, id, m, n - 1);
    }
  }

  /** With fewer than two holders there are fewer than two shares, and none that
      is not held. */
  lemma FewerUsed(sh: Shares, nodes: seq<string>, id: string)
    ensures (forall i: nat :: !Holds(sh, nodes, id, i)) ==> Available(sh, nodes, id) == []
    ensures forall i: nat :: FirstHolder(sh, nodes, id, 0, i) && (forall k: nat :: i < k ==> !Holds(sh, nodes, id, k))
              ==> Available(sh, nodes, id) == [TextOf(sh, nodes, id, i)]
  {
    assert Decrypted(sh, nodes, id, 0) == [];
    if forall i: nat :: !Holds(sh, nodes, id, i) {
      DecryptedFrom(sh, nodes, id, |nodes|, 0);
    }
    forall i: nat | FirstHolder(sh, nodes, id, 0, i) && (forall k: nat :: i < k ==> !Holds(sh, nodes, id, k))
      ensures Available(sh, nodes, id) == [TextOf(sh, nodes, id, i)]
    {
      FirstDecrypted(sh, nodes, id, 0, i);
      DecryptedFrom(sh, nodes, id, |nodes|, i + 1);
    }
  }

  // ----- how the decision falls -----

  /** The endpoints that answered. */
  function Answered(replies: seq<Option<Reply>>): set<nat> {
    set i: nat | i < |replies| && replies[i].Some?
  }

  lemma {:induction false} AnsweredCount(replies: seq<Option<Reply>>)
    ensures |Answered(replies)| == Count(replies)
  {
    if replies == [] {
      assert Answered(replies) == {};
    } else {
      var n := |replies| - 1;
      AnsweredCount(replies[..n]);
      assert Answered(replies) == Answered(replies[..n]) + (if replies[n].Some? then {n as nat} else {});
    }
  }

  /** When fewer than two thirds answered, the session fails and nothing else
      about it changes; otherwise the answers are used. */
  lemma QuorumDecides(s: Session, cfg: Config, replies: seq<Option<Reply>>)
    requires WellFormed(s) && ValidConfig(cfg)
    ensures AfterDecrypt(s, cfg, replies) ==
      if 3 * |Answered(replies)| < 2 * |cfg.nodes| then Decision(s.(status := Failed), None, false)
      else Conclude(s, ApplyReplies(s.shares, replies, |replies|), cfg)
  {
    AnsweredCount(replies);
  }

  /** The intent as reconstructed from two texts. */
  ghost predicate IsPlain(x: Netting.Intent, s: Session, cfg: Config, id: string, ts: seq<Text>) {
    && x.id == id && id in s.intents && x.inAsset == s.intents[id].inAsset && x.outAsset == s.intents[id].outAsset
    && exists pts: seq<Point>, terms :: |pts| == |ts| && (forall i :: 0 <= i < |ts| ==> DecodeShare(ts[i]) == Some(pts[i]))
                           && Shamir.SumsTerms(x.amount, terms, pts, cfg.p)
  }

  lemma PlainIs(s: Session, sh: Shares, cfg: Config, id: string)
    requires ValidConfig(cfg) && id in s.intents && Decodable(Available(sh, cfg.nodes, id))
    ensures IsPlain(Plain(s, sh, cfg, id), s, cfg, id, Available(sh, cfg.nodes, id))
  {
    var pts := Points(Available(sh, cfg.nodes, id));
    Shamir.LagrangeIsSum(pts, cfg.p);
  }

  /** The end of a round that has its answers: it throws; or an intent has fewer
      than two holders and it fails; or endpoints' shares are cleared and the
      matches are those of the intents as reconstructed. */
  lemma ConcludeExactly(s: Session, sh: Shares, cfg: Config)
    requires WellFormed(s) && ValidConfig(cfg)
    ensures var d := Conclude(s, sh, cfg);
      if Throws(sh, cfg.nodes, s.order) then d == Decision(s.(shares := sh), None, true)
      else if exists j :: 0 <= j < |s.order| && !TwoHold(sh, cfg.nodes, s.order[j], |cfg.nodes|)
      then d == Decision(s.(status := Failed, shares := sh), None, false)
      else
        && d.session == s.(shares := Clear(sh, cfg.nodes)) && !d.threw && d.matches.Some?
        && d.matches.value == Netting.Blocks(PlainIntents(s, sh, cfg, |s.order|), cfg.sort)
  {
    ThrowsIff(sh, cfg.nodes, s.order);
    if !Throws(sh, cfg.nodes, s.order) {
      DoneIffTwo(sh, cfg.nodes, s.order);
      PlainDistinct(s, sh, cfg);
      Netting.PairsAreBlocks(PlainIntents(s, sh, cfg, |s.order|), cfg.sort);
    }
  }

  lemma PlainDistinct(s: Session, sh: Shares, cfg: Config)
    requires WellFormed(s) && ValidConfig(cfg)
    ensures Netting.UniqueIds(PlainIntents(s, sh, cfg, |s.order|))
  {
  }

  /** Where the round goes on, every intent of the list is what its two shares
      say, in order of submission. */
  lemma PlainExactly(s: Session, sh: Shares, cfg: Config, j: nat)
    requires WellFormed(s) && ValidConfig(cfg) && j < |s.order| && Conclude(s, sh, cfg).matches.Some?
    ensures var rec := PlainIntents(s, sh, cfg, |s.order|);
      |rec| == |s.order| && IsPlain(rec[j], s, cfg, s.order[j], Available(sh, cfg.nodes, s.order[j]))
      && |Available(sh, cfg.nodes, s.order[j])| == 2
  {
    var k := LoopEnds(sh, cfg.nodes, s.order);
    assert Check(sh, cfg.nodes, s.order[j]).Done?;
    assert s.order[j] in s.order;
    PlainIs(s, sh, cfg, s.order[j]);
  }

  // ----- where decryption stops -----

  /** Position (i, j) comes before (k, l), node by node. */
  predicate Before(i: nat, j: nat, k: nat, l: nat) { i < k || (i == k && j < l) }

  /** The slot belongs to a position before (k, l). */
  ghost predicate Reached(cfg: Config, ids: seq<string>, slot: Slot, k: nat, l: nat) {
    exists i: nat, j: nat :: i < |cfg.nodes| && j < |ids| && Before(i, j, k, l) && slot == Slot(cfg.nodes[i], ids[j])
  }

  /** A slot that was reached holds what it decrypts to, any other is as it was. */
  ghost predicate OpenedUpTo(sh: Shares, sh': Shares, cfg: Config, ids: seq<string>, k: nat, l: nat) {
    sh'.Keys == sh.Keys && forall slot :: slot in sh ==>
      sh'[slot].cipher == sh[slot].cipher
      && (if Reached(cfg, ids, slot, k, l) then cfg.decrypt(slot.node, sh[slot].cipher) == Some(sh'[slot].dec)
          else sh'[slot].dec == sh[slot].dec)
  }

  /** Nothing before (k, l) fails to decrypt. */
  ghost predicate FineUpTo(sh: Shares, cfg: Config, ids: seq<string>, k: nat, l: nat) {
    forall i: nat, j: nat :: i < |cfg.nodes| && j < |ids| && Before(i, j, k, l) ==> Opens(sh, cfg, Slot(cfg.nodes[i], ids[j]))
  }

  ghost predicate UpTo(sh: Shares, sh': Shares, cfg: Config, ids: seq<string>, k: nat, l: nat) {
    OpenedUpTo(sh, sh', cfg, ids, k, l) && FineUpTo(sh, cfg, ids, k, l)
  }

  /** Decryption stopped at (k, l), whose slot fails. */
  ghost predicate StopsAt(sh: Shares, sh': Shares, cfg: Config, ids: seq<string>, k: nat, l: nat) {
    k < |cfg.nodes| && l < |ids| && UpTo(sh, sh', cfg, ids, k, l) && !Opens(sh, cfg, Slot(cfg.nodes[k], ids[l]))
  }

  lemma ReachedNext(cfg: Config, ids: seq<string>, slot: Slot, k: nat, l: nat)
    requires k < |cfg.nodes| && l < |ids|
    ensures Reached(cfg, ids, slot, k, l + 1) <==> Reached(cfg, ids, slot, k, l) || slot == Slot(cfg.nodes[k], ids[l])
  {
    if Reached(cfg, ids, slot, k, l) {
      var i: nat, j: nat :| i < |cfg.nodes| && j < |ids| && Before(i, j, k, l) && slot == Slot(cfg.nodes[i], ids[j]);
      assert Before(i, j, k, l + 1);
    }
    if slot == Slot(cfg.nodes[k], ids[l]) {
      assert Before(k, l, k, l + 1);
    }
    if Reached(cfg, ids, slot, k, l + 1) {
      var i: nat, j: nat :| i < |cfg.nodes| && j < |ids| && Before(i, j, k, l + 1) && slot == Slot(cfg.nodes[i], ids[j]);
      assert Before(i, j, k, l) || (i == k && j == l);
    }
  }

  lemma ReachedRow(cfg: Config, ids: seq<string>, slot: Slot, k: nat)
    ensures Reached(cfg, ids, slot, k + 1, 0) <==> Reached(cfg, ids, slot, k, |ids|)
  {
    forall i: nat, j: nat | i < |cfg.nodes| && j < |ids| ensures Before(i, j, k + 1, 0) <==> Before(i, j, k, |ids|) {
    }
  }

  lemma SlotUpTo(sh: Shares, sh': Shares, cfg: Config, ids: seq<string>, k: nat, l: nat)
    requires UpTo(sh, sh', cfg, ids, k, l) && k < |cfg.nodes| && l < |ids|
    ensures var slot := Slot(cfg.nodes[k], ids[l]); var r := DecryptSlot(sh', cfg, slot);
      && r.ok == Opens(sh, cfg, slot)
      && (if r.ok then UpTo(sh, r.shares, cfg, ids, k, l + 1) else r.shares == sh')
  {
    var slot := Slot(cfg.nodes[k], ids[l]);
    var r := DecryptSlot(sh', cfg, slot);
    assert slot in sh' <==> slot in sh'.Keys;
    assert slot in sh <==> slot in sh.Keys;
    if r.ok {
      assert r.shares.Keys == sh.Keys;
      forall x | x in sh ensures r.shares[x].cipher == sh[x].cipher
        && (if Reached(cfg, ids, x, k, l + 1) then cfg.decrypt(x.node, sh[x].cipher) == Some(r.shares[x].dec)
            else r.shares[x].dec == sh[x].dec)
      {
        ReachedNext(cfg, ids, x, k, l);
        assert x in sh' <==> x in sh'.Keys;
      }
    }
  }

  /** Row k after its first n slots: all decrypted, or stopped at slot l. */
  ghost predicate RowDone(sh: Shares, r: Progress, cfg: Config, ids: seq<string>, k: nat, n: nat, l: nat) {
    if r.ok then UpTo(sh, r.shares, cfg, ids, k, n) else StopsAt(sh, r.shares, cfg, ids, k, l)
  }

  lemma RowNext(sh: Shares, sh': Shares, cfg: Config, ids: seq<string>, k: nat, l: nat)
    requires UpTo(sh, sh', cfg, ids, k, l) && k < |cfg.nodes| && l < |ids|
    ensures RowDone(sh, DecryptSlot(sh', cfg, Slot(cfg.nodes[k], ids[l])), cfg, ids, k, l + 1, l)
  {
    SlotUpTo(sh, sh', cfg, ids, k, l);
  }

  lemma RowSteps(sh: Shares, before: Shares, cfg: Config, ids: seq<string>, k: nat, n: nat, m: nat) returns (l: nat)
    requires k < |cfg.nodes| && n < |ids| && RowDone(sh, DecryptNode(before, cfg, cfg.nodes[k], ids, n), cfg, ids, k, n, m)
    ensures RowDone(sh, DecryptNode(before, cfg, cfg.nodes[k], ids, n + 1), cfg, ids, k, n + 1, l)
  {
    l := m;
    var r := DecryptNode(before, cfg, cfg.nodes[k], ids, n);
    if r.ok {
      RowNext(sh, r.shares, cfg, ids, k, n);
      l := n;
    }
  }

  /** One node, from the state all nodes before it left. */
  lemma NodeUpTo(sh: Shares, before: Shares, cfg: Config, ids: seq<string>, k: nat, n: nat) returns (l: nat)
    requires k < |cfg.nodes| && n <= |ids| && UpTo(sh, before, cfg, ids, k, 0)
    ensures RowDone(sh, DecryptNode(before, cfg, cfg.nodes[k], ids, n), cfg, ids, k, n, l)
  {
    l := 0;
    for i := 0 to n
      invariant RowDone(sh, DecryptNode(before, cfg, cfg.nodes[k], ids, i), cfg, ids, k, i, l)
    {
      l := RowSteps(sh, before, cfg, ids, k, i, l);
    }
  }

  lemma NextRow(sh: Shares, sh': Shares, cfg: Config, ids: seq<string>, k: nat)
    requires UpTo(sh, sh', cfg, ids, k, |ids|)
    ensures UpTo(sh, sh', cfg, ids, k + 1, 0)
  {
    forall slot ensures Reached(cfg, ids, slot, k + 1, 0) <==> Reached(cfg, ids, slot, k, |ids|) {
      ReachedRow(cfg, ids, slot, k);
    }
    forall i: nat, j: nat | i < |cfg.nodes| && j < |ids| && Before(i, j, k + 1, 0) ensures Opens(sh, cfg, Slot(cfg.nodes[i], ids[j])) {
      assert Before(i, j, k, |ids|);
    }
  }

  /** Decryption goes node by node, intent by intent: either every slot holds what
      it decrypts to, or it stopped at the first slot that fails, with the slots
      before it decrypted and no other changed. */
  lemma {:induction false} DecryptExactly(sh: Shares, cfg: Config, ids: seq<string>, n: nat) returns (k: nat, l: nat)
    requires n <= |cfg.nodes|
    ensures var r := DecryptAll(sh, cfg, ids, n);
      if r.ok then UpTo(sh, r.shares, cfg, ids, n, 0) else StopsAt(sh, r.shares, cfg, ids, k, l)
  {
    if n == 0 {
      k, l := 0, 0;
    } else {
      k, l := DecryptExactly(sh, cfg, ids, n - 1);
      var r := DecryptAll(sh, cfg, ids, n - 1);
      if r.ok {
        k := n - 1;
        l := NodeUpTo(sh, r.shares, cfg, ids, k, |ids|);
        if DecryptAll(sh, cfg, ids, n).ok {
          NextRow(sh, DecryptAll(sh, cfg, ids, n).shares, cfg, ids, k);
        }
      }
    }
  }

  // ----- what a signed batch holds -----

  /** pos are the positions of the values that are there, ascending, and out are
      those values. */
  ghost predicate Positions<T(!new)>(out: seq<T>, xs: seq<Option<T>>, pos: seq<nat>) {
    && |pos| == |out|
    && (forall t :: 0 <= t < |out| ==> pos[t] < |xs| && xs[pos[t]] == Some(out[t]))
    && (forall t, u :: 0 <= t < u < |out| ==> pos[t] < pos[u])
    && (forall i :: 0 <= i < |xs| && xs[i].Some? ==> i in pos)
  }

  /** out lists the values that are there, in order. */
  ghost predicate InOrder<T(!new)>(out: seq<T>, xs: seq<Option<T>>) {
    exists pos :: Positions(out, xs, pos)
  }

  lemma {:induction false} CollectInOrder<T(!new)>(xs: seq<Option<T>>) returns (pos: seq<nat>)
    ensures Positions(Collect(xs), xs, pos)
  {
    if xs == [] {
      pos := [];
    } else {
      var n := |xs| - 1;
      pos := CollectInOrder(xs[..n]);
      assert xs == xs[..n] + [xs[n]];
      var out := Collect(xs[..n]);
      if xs[n].Some? {
        PositionsNext(out, xs[..n], pos, xs[n].value);
        pos := pos + [n];
        assert [xs[n]] == [Some(xs[n].value)];
      } else {
        PositionsSkip(out, xs[..n], pos);
        assert [xs[n]] == [None];
      }
    }
  }

  lemma PositionsNext<T(!new)>(out: seq<T>, xs: seq<Option<T>>, pos: seq<nat>, x: T)
    requires Positions(out, xs, pos)
    ensures Positions(out + [x], xs + [Some(x)], pos + [|xs|])
  {
    var pos', xs' := pos + [|xs|], xs + [Some(x)];
    forall i | 0 <= i < |xs'| && xs'[i].Some? ensures i in pos' {
      if i == |xs| {
        assert pos'[|pos|] == i;
      } else {
        assert xs[i].Some?;
      }
    }
  }

  lemma PositionsSkip<T(!new)>(out: seq<T>, xs: seq<Option<T>>, pos: seq<nat>)
    requires Positions(out, xs, pos)
    ensures Positions(out, xs + [None], pos)
  {
    forall i | 0 <= i < |xs| + 1 && (xs + [None])[i].Some? ensures i in pos {
      assert xs[i].Some?;
    }
  }

  /** After the second await: with two thirds of the answers the session is signed
      and its batch has the given id and matches, the session's name, and exactly
      the signatures that came back, in endpoint order; otherwise it fails. */
  lemma RemoteBatchExactly(s: Session, cfg: Config, sigs: seq<Option<Signature>>, batchId: string, ms: seq<Netting.Match>)
    requires |sigs| == |cfg.nodes|
    ensures var s' := AfterSign(s, cfg, sigs, batchId, ms);
      if 3 * |Signers(sigs)| < 2 * |cfg.nodes| then s' == s.(status := Failed)
      else
        && s'.batch.Some? && s' == s.(status := Signed, batch := s'.batch)
        && var b := s'.batch.value; b.id == batchId && b.session == s.name && b.matches == ms && InOrder(b.sigs, sigs)
  {
    SignersCount(sigs);
    var pos := CollectInOrder(sigs);
  }

  /** Every node's own signature on the batch, in node order. */
  predicate AllOwn(cfg: Config, b: Batch) {
    |b.sigs| == |cfg.nodes|
    && forall i :: 0 <= i < |b.sigs| ==> b.sigs[i].node == cfg.nodes[i] && b.sigs[i].value == cfg.sign(cfg.nodes[i], b.id, b.matches)
  }

  /** The in-process round: what was decided is signed by every node under its own
      key; without matches the session is as decided. */
  lemma LocalBatchExactly(s: Session, cfg: Config, batchId: string)
    requires WellFormed(s) && ValidConfig(cfg) && |s.intents| >= 2
    ensures var d, s' := LocalDecision(s.(status := Matching), cfg), LocalRound(s, cfg, batchId);
      if d.matches.None? then s' == d.session
      else
        && s'.batch.Some? && s' == d.session.(status := Signed, batch := s'.batch)
        && var b := s'.batch.value; b.id == batchId && b.session == s.name && b.matches == d.matches.value && AllOwn(cfg, b)
  {
  }

  /** The in-process decision: failed where decryption stops, and otherwise as the
      shares decide. */
  lemma LocalDecisionExactly(m: Session, cfg: Config) returns (k: nat, l: nat)
    requires WellFormed(m) && ValidConfig(cfg)
    ensures exists sh' ::
      if FineUpTo(m.shares, cfg, m.order, |cfg.nodes|, 0)
      then UpTo(m.shares, sh', cfg, m.order, |cfg.nodes|, 0) && LocalDecision(m, cfg) == Conclude(m, sh', cfg)
      else StopsAt(m.shares, sh', cfg, m.order, k, l)
           && LocalDecision(m, cfg) == Decision(m.(status := Failed, shares := sh'), None, false)
  {
    k, l := DecryptExactly(m.shares, cfg, m.order, |cfg.nodes|);
    var r := DecryptAll(m.shares, cfg, m.order, |cfg.nodes|);
    if !r.ok {
      assert Before(k, l, |cfg.nodes|, 0);
      assert !FineUpTo(m.shares, cfg, m.order, |cfg.nodes|, 0);
    }
  }
}
