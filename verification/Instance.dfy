/** The parameters of the model exist: an insertion sort serves as the engine's
    sort, and with it a committee of three nodes over a small prime field, which in an honest
    run signs a batch. */
module Instance {
  import opened Wrappers
  import opened Field
  import opened Netting
  import opened Encoding
  import opened Session
  import Shamir
  import Rounds
  import Protocol
  import Hygiene
  import Batches

  function Insert(x: Intent, s: seq<Intent>): seq<Intent> {
    if s == [] || x.amount <= s[0].amount then [x] + s else [s[0]] + Insert(x, s[1..])
  }

  function InsertionSort(s: seq<Intent>): seq<Intent> {
    if s == [] then [] else Insert(s[0], InsertionSort(s[1..]))
  }

  lemma {:induction false} InsertKeeps(x: Intent, s: seq<Intent>)
    requires Sorted(s)
    ensures Sorted(Insert(x, s)) && multiset(Insert(x, s)) == multiset(s) + multiset{x}
  {
    if s != [] && x.amount > s[0].amount {
      var head, rest := s[0], s[1..];
      assert s == [head] + rest;
      assert Sorted(rest);
      InsertKeeps(x, rest);
      var t := Insert(x, rest);
      forall y | y in t ensures head.amount <= y.amount {
        Inserted(x, rest, t, y);
      }
      SortedCons(head, t);
    } else {
      forall y | y in s ensures x.amount <= y.amount {
      }
      SortedCons(x, s);
    }
  }

  lemma Inserted(x: Intent, s: seq<Intent>, t: seq<Intent>, y: Intent)
    requires multiset(t) == multiset(s) + multiset{x} && y in t
    ensures y == x || y in s
  {
    assert y in multiset(t);
    assert y == x || y in multiset(s);
  }

  lemma SortedCons(x: Intent, s: seq<Intent>)
    requires Sorted(s) && forall y :: y in s ==> x.amount <= y.amount
    ensures Sorted([x] + s)
  {
  }

  lemma {:induction false} SortsAll(s: seq<Intent>)
    ensures Sorted(InsertionSort(s)) && multiset(InsertionSort(s)) == multiset(s)
  {
    if s != [] {
      var x, rest := s[0], s[1..];
      SortsAll(rest);
      InsertKeeps(x, InsertionSort(rest));
      assert multiset(s) == multiset(rest) + multiset{x} by {
        assert s == [x] + rest;
      }
    }
  }

  lemma SevenIsPrime()
    ensures Prime(7)
  {
  }

  /** Both clients deal the amount 5 with slope 1. */
  const DEALT := Rounds.Secret(5, 1)
  const SECRETS: Rounds.Secrets := map["a" := DEALT, "b" := DEALT]

  function DealtText(i: nat): Text
    requires i < 3
  {
    EncodeShare(Shamir.SharesOf(Shamir.Coefficients(5, [1], 7), 3, 7)[i])
  }

  /** Every node finds its share, whatever the ciphertext. */
  function Decrypt(node: string, cipher: string): Option<Option<Text>> {
    if node == "n0" then Some(Some(DealtText(0)))
    else if node == "n1" then Some(Some(DealtText(1)))
    else if node == "n2" then Some(Some(DealtText(2)))
    else None
  }

  const COMMITTEE := Config(["n0", "n1", "n2"], 7, InsertionSort, Decrypt, (_, _, _) => "")

  /** A committee that the theorems about rounds and runs are about. */
  lemma CommitteeExists()
    ensures Batches.HonestParams(COMMITTEE)
  {
    SevenIsPrime();
    forall s ensures Sorted(InsertionSort(s)) && multiset(InsertionSort(s)) == multiset(s) {
      SortsAll(s);
    }
  }

  lemma DealtShare(i: nat)
    requires i < 3
    ensures EncodeShare(Rounds.ShareOf(DEALT, i, COMMITTEE)) == DealtText(i)
    ensures COMMITTEE.decrypt(COMMITTEE.nodes[i], "") == Some(Some(DealtText(i)))
  {
  }

  /** A and B come with honest ciphertexts. */
  lemma CiphersHonest(node: string, id: string)
    requires id in SECRETS
    ensures Batches.HonestEntry(COMMITTEE, SECRETS, node, id, "")
  {
    forall i: nat | i < 3 && COMMITTEE.nodes[i] == node
      ensures Batches.HonestText(COMMITTEE, SECRETS[id], i, COMMITTEE.decrypt(node, ""))
    {
      DealtShare(i);
    }
  }

  const DEAL := [Protocol.SubmitIntent(Rounds.A, "0"), Protocol.SubmitIntent(Rounds.B, "0"),
                 Protocol.Manual("session-0", true, "batch")]

  lemma DealIsHonest()
    ensures forall i :: 0 <= i < 3 ==> Batches.HonestStep(COMMITTEE, SECRETS, DEAL[i])
  {
    CommitteeExists();
    forall k, id | 0 <= k < 3 && id in SECRETS
      ensures Batches.HonestEntry(COMMITTEE, SECRETS, Rounds.CIPHERS[k].node, id, Rounds.CIPHERS[k].cipher)
    {
      CiphersHonest(Rounds.CIPHERS[k].node, id);
    }
  }

  lemma DealDecryptable()
    ensures Rounds.Decryptable(Rounds.TwoIntents().(status := Open), COMMITTEE)
  {
    var s := Rounds.TwoIntents().(status := Open);
    forall j | 0 <= j < 2 ensures Rounds.TwoYield(s.shares, COMMITTEE, s.order[j]) {
      DealYields(0, s.order[j]);
      DealYields(1, s.order[j]);
    }
    forall i: nat | i < 3 ensures Rounds.NodeOpensAll(s.shares, COMMITTEE, s.order, i) {
      DealOpens(i);
    }
  }

  lemma DealOpens(i: nat)
    requires i < 3
    ensures Rounds.NodeOpensAll(Rounds.TwoIntents().shares, COMMITTEE, ["a", "b"], i)
  {
  }

  lemma DealYields(i: nat, id: string)
    requires i < 2 && id in SECRETS
    ensures Rounds.Yields(Rounds.TwoIntents().shares, COMMITTEE, id, i)
  {
    DealtShare(i);
  }

  lemma DealCiphers()
    ensures var s := Rounds.TwoIntents().(status := Open);
      Rounds.Dealt(s, SECRETS) && Rounds.HonestCiphers(s, COMMITTEE, SECRETS)
  {
    CommitteeExists();
    var s := Rounds.TwoIntents().(status := Open);
    forall slot | slot in s.shares ensures Batches.HonestEntry(COMMITTEE, SECRETS, slot.node, slot.id, s.shares[slot].cipher) {
      CiphersHonest(slot.node, slot.id);
    }
    Batches.StoreCiphers(s, COMMITTEE, SECRETS);
  }

  /** The round on A and B is signed. */
  lemma DealSigned()
    ensures WellFormed(Rounds.TwoIntents()) && ValidConfig(COMMITTEE)
    ensures LocalRound(Rounds.TwoIntents().(status := Open), COMMITTEE, "batch").status == Signed
  {
    CommitteeExists();
    Hygiene.TwoSubmitted();
    DealDecryptable();
    DealCiphers();
    Rounds.LocalMatches(Rounds.TwoIntents().(status := Open), COMMITTEE, "batch", SECRETS);
  }

  /** An honest run with a signed batch. */
  lemma HonestRunExists()
    ensures Batches.HonestParams(COMMITTEE) && forall i :: 0 <= i < 3 ==> Batches.HonestStep(COMMITTEE, SECRETS, DEAL[i])
    ensures var s := Protocol.Run(Protocol.INIT, COMMITTEE, DEAL); 0 in s.heap && s.heap[0].status == Signed
  {
    CommitteeExists();
    DealIsHonest();
    Hygiene.FirstSubmit();
    Hygiene.SecondSubmit(Submit(EmptySession("session-0"), Rounds.A));
    Hygiene.TwoSubmitted();
    Hygiene.RunThree(COMMITTEE, DEAL[0], DEAL[1], DEAL[2]);
    assert DEAL == [DEAL[0], DEAL[1], DEAL[2]];
    DealRound();
  }

  lemma DealRound()
    requires ValidConfig(COMMITTEE)
    ensures var s := Protocol.Do(Hygiene.With(Rounds.TwoIntents().(status := Open), {"a", "b"}), COMMITTEE, DEAL[2]);
      0 in s.heap && s.heap[0].status == Signed
  {
    DealSigned();
    Hygiene.TwoSubmitted();
    var s := Hygiene.With(Rounds.TwoIntents().(status := Open), {"a", "b"});
    Hygiene.ManualStarts(s, COMMITTEE, "session-0", true, "batch");
    StartedLocally(s, COMMITTEE, 0, "batch");
  }

  lemma StartedLocally(s: Protocol.Sys, cfg: Config, h: nat, batchId: string)
    requires ValidConfig(cfg) && h in s.heap && WellFormed(s.heap[h]) && |s.heap[h].intents| >= 2
    ensures Protocol.Start(s, cfg, h, true, batchId).heap == s.heap[h := LocalRound(s.heap[h], cfg, batchId)]
  {
  }
}
