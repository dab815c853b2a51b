/** One matching session of the MPC committee, apps/mpc-committee/src/state.ts:
    its intents, the encrypted share slots of each node, its status and signed
    batch; and the matching round as pure functions on a session, cut at the
    awaits of remote-coordinator.ts and in one piece for coordinator.ts.

    Encryption, signing and batch ids are parameters. A decrypted share is the
    text its client encrypted; it is decoded when amounts are reconstructed, and
    what cannot be decoded makes the round throw. */
module Session {
  import opened Wrappers
  import opened Field
  import opened Polynomial
  import opened Encoding
  import Netting

  datatype Status = Open | Matching | Signed | Failed

  datatype EncShare = EncShare(node: string, cipher: string)

  datatype MpcIntent = MpcIntent(id: string, inAsset: string, outAsset: string, encShares: seq<EncShare>)

  /** The slot of one node for one intent. */
  datatype Slot = Slot(node: string, id: string)

  datatype Entry = Entry(cipher: string, dec: Option<Text>)

  type Shares = map<Slot, Entry>

  datatype Signature = Signature(node: string, value: string)

  datatype Batch = Batch(id: string, session: string, matches: seq<Netting.Match>, sigs: seq<Signature>)

  /** `order` lists the intent ids in insertion order. */
  datatype Session = Session(name: string, status: Status, order: seq<string>, intents: map<string, MpcIntent>,
                             shares: Shares, batch: Option<Batch>)

  /** The committee: its nodes in endpoint order, the field, the engine's sort,
      what a node's secret key makes of a ciphertext (a share, null, or an
      error), and a node's signature on a batch. */
  datatype Config = Config(nodes: seq<string>, p: int, sort: Netting.Sorter,
                           decrypt: (string, string) -> Option<Option<Text>>,
                           sign: (string, string, seq<Netting.Match>) -> string)

  ghost predicate ValidConfig(cfg: Config) {
    Prime(cfg.p) && Netting.IsSorter(cfg.sort)
  }

  // ----- submission -----

  function EmptySession(name: string): Session {
    Session(name, Open, [], map[], map[], None)
  }

  /** Each encrypted share goes to its node's slot, not yet decrypted. */
  function PutShares(sh: Shares, id: string, encs: seq<EncShare>): Shares {
    if encs == [] then sh
    else
      var e := encs[|encs| - 1];
      PutShares(sh, id, encs[..|encs| - 1])[Slot(e.node, id) := Entry(e.cipher, None)]
  }

  /** The effect of `addIntent` on the open session. */
  function Submit(s: Session, intent: MpcIntent): Session {
    s.(intents := s.intents[intent.id := intent],
       order := if intent.id in s.intents then s.order else s.order + [intent.id],
       shares := PutShares(s.shares, intent.id, intent.encShares))
  }

  ghost predicate WellFormed(s: Session) {
    && (forall id :: id in s.order <==> id in s.intents)
    && (forall i, j :: 0 <= i < j < |s.order| ==> s.order[i] != s.order[j])
  }

  // ----- decrypted shares -----

  /** A node's answer to a decrypt request: its share per intent, or null. */
  datatype Reply = Reply(node: string, shares: map<string, Option<Text>>)

  function ApplyReply(sh: Shares, r: Reply): (sh': Shares)
    ensures sh'.Keys == sh.Keys
  {
    map slot | slot in sh ::
      if slot.node == r.node && slot.id in r.shares then sh[slot].(dec := r.shares[slot.id]) else sh[slot]
  }

  /** The answers of the first n endpoints that answered, in order. */
  function ApplyReplies(sh: Shares, replies: seq<Option<Reply>>, n: nat): (sh': Shares)
    requires n <= |replies|
    ensures sh'.Keys == sh.Keys
  {
    if n == 0 then sh
    else
      var prev := ApplyReplies(sh, replies, n - 1);
      if replies[n - 1].Some? then ApplyReply(prev, replies[n - 1].value) else prev
  }

  /** The decrypted shares of an intent among the first n nodes. */
  function Decrypted(sh: Shares, nodes: seq<string>, id: string, n: nat): seq<Text>
    requires n <= |nodes|
  {
    if n == 0 then []
    else
      var prev, slot := Decrypted(sh, nodes, id, n - 1), Slot(nodes[n - 1], id);
      if slot in sh && sh[slot].dec.Some? then prev + [sh[slot].dec.value] else prev
  }

  function FirstTwo(xs: seq<Text>): seq<Text> {
    if |xs| > 2 then xs[..2] else xs
  }

  /** The shares the coordinator reconstructs from. */
  function Available(sh: Shares, nodes: seq<string>, id: string): seq<Text> {
    FirstTwo(Decrypted(sh, nodes, id, |nodes|))
  }

  /** How the loop over the intents ends: with all amounts, at an intent with
      fewer than two shares, or in the decoder. */
  datatype End = Done | Short | Thrown

  function Check(sh: Shares, nodes: seq<string>, id: string): End {
    var av := Available(sh, nodes, id);
    if |av| < 2 then Short else if DecodeAll(av).None? then Thrown else Done
  }

  function Checks(sh: Shares, nodes: seq<string>, ids: seq<string>): (ends: seq<End>)
    ensures |ends| == |ids| && forall i {:trigger ends[i]} :: 0 <= i < |ids| ==> ends[i] == Check(sh, nodes, ids[i])
  {
    seq(|ids|, i requires 0 <= i < |ids| => Check(sh, nodes, ids[i]))
  }

  /** The first of n that is not done, if any. */
  function FirstEnd(ends: seq<End>, n: nat): End
    requires n <= |ends|
  {
    if n == 0 then Done
    else
      var prev := FirstEnd(ends, n - 1);
      if prev.Done? then ends[n - 1] else prev
  }

  /** The loop over the first n intents; the first that is not done ends it. */
  function LoopEnd(sh: Shares, nodes: seq<string>, ids: seq<string>, n: nat): End
    requires n <= |ids|
  {
    FirstEnd(Checks(sh, nodes, ids), n)
  }

  function Points(ts: seq<Text>): seq<Point> {
    if DecodeAll(ts).Some? then DecodeAll(ts).value else []
  }

  /** An intent with the amount its available shares interpolate to. */
  ghost function Plain(s: Session, sh: Shares, cfg: Config, id: string): Netting.Intent
    requires Prime(cfg.p) && id in s.intents
  {
    Netting.Intent(id, LagrangeAt(Points(Available(sh, cfg.nodes, id)), 0, cfg.p) % cfg.p,
                   s.intents[id].inAsset, s.intents[id].outAsset)
  }

  /** The plaintext intents of the session in insertion order. */
  ghost function PlainIntents(s: Session, sh: Shares, cfg: Config, n: nat): (rec: seq<Netting.Intent>)
    requires WellFormed(s) && Prime(cfg.p) && n <= |s.order|
    ensures |rec| == n && forall i {:trigger rec[i]} :: 0 <= i < n ==> s.order[i] in s.intents && rec[i] == Plain(s, sh, cfg, s.order[i])
  {
    if n == 0 then []
    else
      assert s.order[n - 1] in s.order;
      PlainIntents(s, sh, cfg, n - 1) + [Plain(s, sh, cfg, s.order[n - 1])]
  }

  function Clear(sh: Shares, nodes: seq<string>): (sh': Shares)
    ensures sh'.Keys == sh.Keys
  {
    map slot | slot in sh :: if slot.node in nodes then sh[slot].(dec := None) else sh[slot]
  }

  // ----- the remote round -----

  /** ceil(2n / 3) */
  function Threshold(n: nat): nat {
    (2 * n + 2) / 3
  }

  function Count<T>(xs: seq<Option<T>>): nat {
    if xs == [] then 0 else Count(xs[..|xs| - 1]) + (if xs[|xs| - 1].Some? then 1 else 0)
  }

  function Collect<T>(xs: seq<Option<T>>): seq<T> {
    if xs == [] then []
    else
      var prev, x := Collect(xs[..|xs| - 1]), xs[|xs| - 1];
      if x.Some? then prev + [x.value] else prev
  }

  /** Up to the first await: the round starts if there are two intents. */
  function Begin(s: Session): Session {
    if |s.intents| < 2 then s else s.(status := Matching)
  }

  /** threw: the round ended in an exception and returned nothing. */
  datatype Decision = Decision(session: Session, matches: Option<seq<Netting.Match>>, threw: bool)

  /** Between the awaits: apply the decrypt answers, reconstruct, clear, match.
      No matches means that the round failed or threw. */
  ghost function AfterDecrypt(s: Session, cfg: Config, replies: seq<Option<Reply>>): Decision
    requires WellFormed(s) && Prime(cfg.p)
  {
    if Count(replies) < Threshold(|cfg.nodes|) then Decision(s.(status := Failed), None, false)
    else Conclude(s, ApplyReplies(s.shares, replies, |replies|), cfg)
  }

  /** Reconstruct from the decrypted shares sh, clear them and match; fail when
      an intent has fewer than two shares. An exception leaves status and shares
      as they are. */
  ghost function Conclude(s: Session, sh: Shares, cfg: Config): Decision
    requires WellFormed(s) && Prime(cfg.p)
  {
    match LoopEnd(sh, cfg.nodes, s.order, |s.order|)
    case Short => Decision(s.(status := Failed, shares := sh), None, false)
    case Thrown => Decision(s.(shares := sh), None, true)
    case Done =>
      var rec := PlainIntents(s, sh, cfg, |s.order|);
      Decision(s.(shares := Clear(sh, cfg.nodes)), Some(Netting.Matches(Netting.Pairs(rec, cfg.sort))), false)
  }

  /** After the second await: the batch is signed if enough nodes signed. */
  function AfterSign(s: Session, cfg: Config, sigs: seq<Option<Signature>>, batchId: string,
                     matches: seq<Netting.Match>): Session
  {
    if Count(sigs) < Threshold(|cfg.nodes|) then s.(status := Failed)
    else s.(batch := Some(Batch(batchId, s.name, matches, Collect(sigs))), status := Signed)
  }

  // ----- the in-process round -----

  /** Decrypting node by node stops at the first failure. */
  datatype Progress = Progress(shares: Shares, ok: bool)

  function DecryptSlot(sh: Shares, cfg: Config, slot: Slot): Progress {
    if slot !in sh then Progress(sh, true)
    else
      var d := cfg.decrypt(slot.node, sh[slot].cipher);
      if d.None? then Progress(sh, false) else Progress(sh[slot := sh[slot].(dec := d.value)], true)
  }

  /** One node's slots, over the first n intents. */
  function DecryptNode(sh: Shares, cfg: Config, node: string, ids: seq<string>, n: nat): Progress
    requires n <= |ids|
  {
    if n == 0 then Progress(sh, true)
    else
      var prev := DecryptNode(sh, cfg, node, ids, n - 1);
      if prev.ok then DecryptSlot(prev.shares, cfg, Slot(node, ids[n - 1])) else prev
  }

  /** The first n nodes. */
  function DecryptAll(sh: Shares, cfg: Config, ids: seq<string>, n: nat): Progress
    requires n <= |cfg.nodes|
  {
    if n == 0 then Progress(sh, true)
    else
      var prev := DecryptAll(sh, cfg, ids, n - 1);
      if prev.ok then DecryptNode(prev.shares, cfg, cfg.nodes[n - 1], ids, |ids|) else prev
  }

  function NodeSignatures(cfg: Config, batchId: string, matches: seq<Netting.Match>): (sigs: seq<Signature>)
    ensures |sigs| == |cfg.nodes|
  {
    seq(|cfg.nodes|, i requires 0 <= i < |cfg.nodes| => Signature(cfg.nodes[i], cfg.sign(cfg.nodes[i], batchId, matches)))
  }

  /** All nodes sign what was decided. */
  function Seal(d: Decision, cfg: Config, batchId: string): Session {
    if d.matches.None? then d.session
    else
      d.session.(status := Signed,
                 batch := Some(Batch(batchId, d.session.name, d.matches.value, NodeSignatures(cfg, batchId, d.matches.value))))
  }

  /** `runMatchingRound` up to the signatures, on a session that is matching. */
  ghost function LocalDecision(m: Session, cfg: Config): Decision
    requires WellFormed(m) && Prime(cfg.p)
  {
    var dec := DecryptAll(m.shares, cfg, m.order, |cfg.nodes|);
    if !dec.ok then Decision(m.(status := Failed, shares := dec.shares), None, false)
    else Conclude(m, dec.shares, cfg)
  }

  /** `runMatchingRound`: no await inside, so one step. */
  ghost function LocalRound(s: Session, cfg: Config, batchId: string): Session
    requires WellFormed(s) && Prime(cfg.p)
  {
    if |s.intents| < 2 then s else Seal(LocalDecision(s.(status := Matching), cfg), cfg, batchId)
  }
}
