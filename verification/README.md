# Verification of the MPC committee matching pipeline

A Dafny model of the private matching pipeline and proofs of what it promises,
from the field arithmetic under the secret shares to the rows and jobs that
settlement leaves behind. It covers four layers and how they compose.

1. **Secret sharing** (`Field`, `Polynomial`, `Shamir`, `Hiding`, `Sampling`,
   `Encoding`).
   `modinv`, `shamirSplit`, `shamirReconstruct` and the rejection sampler are
   methods with the source's loops. They are proved against polynomials and
   Lagrange interpolation over a prime field: any threshold of shares in any
   order gives the secret back, and fewer say nothing about it.
2. **Matchers** (`Netting`, `NettingOptimal`, `NettingGap`,
   `NettingOrder`, `Priced`).
   `matchIntents` with its two-pointer loop and its shared `used` set is proved
   equal to a closed description (zip the two sorted groups, or pair neighbours
   of a same-asset group), and that description is proved a maximum-cardinality,
   maximum-amount matching whose amounts do not depend on the input order. The
   priced matcher is proved against a recursive first-fit specification, which is
   maximal and conserves every asset.
3. **Sessions and rounds** (`Session`, `CommitteeState`, `Rounds`,
   `RoundsExact`, `Protocol`, `ProtocolProgress`, `Hygiene`, `Batches`).
   The session objects and `CommitteeState` are classes; the two kinds of round
   are methods on them, tied to functions on session values. `Protocol` is the
   step system whose atomic steps are the stretches of code between awaits, and
   its theorems hold for every interleaving of submissions, manual triggers,
   timer ticks and node answers. `Hygiene` says where decrypted shares stay
   behind, `Batches` what every signed batch of a run carries, `RoundsExact` and
   `ProtocolProgress` what each piece of a round and each trigger does.
4. **Settlement** (`Settlement`, `SettlementSafety`, `SettlementExact`,
   `SettlementRaces`, `SettlementStore`, `SettlementProgress`, `Handoff`). Every database statement is a step, every
   process may stop for good between two statements, and the theorems hold over
   all runs. Where a promise fails, `SettlementRaces` has the run and
   `SettlementExact` says when exactly.
   `Handoff` runs the committee and the database together and carries results
   from table rows back to committee sessions.

`Wrappers` and `Finite` hold stock definitions and counting facts; `Instance`
shows that the model's parameters exist, and an honest run with a signed batch.

## Assumptions

- The modulus is any prime `p`; that the BN254 constant is prime is not proved.
  BigInt `/` and `%` truncate toward zero (sections 6.1.6.2.5 and 6.1.6.2.6 of
  ECMA-262), which `TruncDiv` and `TruncRem` spell out.
- `Array.prototype.sort` gets a comparator that never reports a tie
  (apps/mpc-committee/src/coordinator.ts:37), so the order of equal amounts is
  the engine's choice (section 23.1.3.30 of ECMA-262). The sort is a parameter:
  any function that returns an amount-sorted permutation of its input.
- Asset names contain no `|`, so that the joined group key determines both names.
- Decryption and signing are arbitrary functions: a client may encrypt any text.
  `reconstructAmount` decodes its shares and then runs `shamirReconstruct`; an
  honest client deals its shares by `shamirSplit(amount, 2, n)` to the nodes in
  endpoint order.
- An exception that a round does not catch leaves the session as it is. In a
  timer it is an unhandled rejection, on which Node ends the process by default;
  the model then goes on with a session that nobody works on.
- Intent ids within a list to be matched are distinct (they are Map keys);
  batch ids (UUIDs) are never drawn twice, where a theorem says so.
- Timer ticks may resume at any moment, which includes every moment at which the
  program resumes them. Session objects are told apart by identity, so clock
  readings that collide need no assumption.
- `enqueue` is one step; a losing race on its unique key raises an error in the
  source, which is a step without effect followed by a crash in the model.

## What turned out different from the documentation

- **Fewer shares than the threshold.** packages/mpc-crypto/src/mpc-crypto-test.ts:39
  expects `t - 1` shares never to give the secret. They give it exactly when the
  top random coefficient is 0 mod p (`Shamir.SubThreshold`), as in
  `Shamir.SubThresholdWitness`.
- **Undecodable shares.** A node decrypts a share to text; the text is decoded
  when amounts are reconstructed, outside any `try`
  (packages/mpc-crypto/src/committee.ts:102-104,
  apps/mpc-committee/src/coordinator.ts:226). One client's `{x:"1", y:"oops"}`
  makes the round throw although a quorum served and would sign, and leaves the
  session matching with decrypted shares (`Rounds.UndecodableWitness`,
  `Hygiene.StallWitness`). This happens exactly when an intent, before the first
  one with fewer than two shares, has such a share among its first two
  (`Rounds.RemoteThrowsIff`, `Rounds.LocalThrowsIff`).
- **Clearing decrypted shares.** The remote round writes answers under the node
  id inside the answer, but clears under the endpoint ids
  (apps/mpc-committee/src/remote-coordinator.ts:75 and 101). A share stays
  behind exactly when an answer is stray (`Rounds.ClearedIffNoStray`,
  `Hygiene.StrayWitness`).
- **The MPC gate.** Settlement asks for a match only if the intent row already
  carries its session (apps/api/src/routes.ts:674-681), which is written last
  (apps/api/src/routes.ts:552-556). A settlement that reads the row in between
  goes through without a match (`SettlementRaces.GateRace`). At the moment of
  the read the settlement is safe, whatever follows, exactly if the intent is
  linked or already matched (`SettlementExact.GateExact`).
- **Exclusion of the two settlement paths** needs the RFQ row to come before the
  submission to the committee. The insert in `POST /v1/intents` is
  `on conflict do nothing`, so a clash on the idempotency key sends the intent
  on without a row; `SettlementRaces.LateRowRace` is the run that follows. When
  the row comes, double settlement is still possible exactly if the intent has a
  job or a settler has read its side as direct (`SettlementExact.ExclusionExact`).
- **Matched rows.** The API writes the `mpc_intents` row after the committee has
  accepted the intent, so a batch can be persisted before the row exists and the
  row then stays unmatched (`SettlementRaces.MissedRowRace`), and this is the
  only way (`SettlementExact.MatchedExactly`).

## Model

| member | source | states |
|---|---|---|
| Field.Modp | packages/mpc-crypto/src/shamir.ts:7-9 | the double remainder repairs the sign of a truncating remainder: the result is the residue in [0, p) |
| Field.ModInv | packages/mpc-crypto/src/shamir.ts:12-21 | the extended-GCD loop terminates and returns the one inverse in [0, p) of a mod p when p does not divide a, and 0 otherwise |
| Field.Inv | packages/mpc-crypto/src/shamir.ts:12-21 | what that inverse is: in [0, p), times a congruent to 1, and 0 when there is none |
| Field.InverseExists | packages/mpc-crypto/src/shamir.ts:12-21 | over a prime every nonzero residue has an inverse, by Bezout |
| Field.InverseUnique | packages/mpc-crypto/src/shamir.ts:12-21 | and only one |
| Field.EuclidStep | packages/mpc-crypto/src/shamir.ts:16-18 | one simultaneous assignment keeps the signed cofactor congruence |
| Polynomial.FactorTheorem | packages/mpc-crypto/src/shamir.ts:50-57 | f(x) = f(r) + (x - r) q(x) for the quotient by synthetic division |
| Polynomial.RootCount | packages/mpc-crypto/src/shamir.ts:50-57 | a polynomial with as many distinct roots mod p as coefficients is zero mod p |
| Polynomial.InterpolantThrough | packages/mpc-crypto/src/shamir.ts:60-76 | the Lagrange polynomial passes through its points |
| Polynomial.InterpolationUnique | packages/mpc-crypto/src/shamir.ts:60-76 | no other polynomial of that length does, mod p |
| Polynomial.LagrangeExact | packages/mpc-crypto/src/shamir.ts:60-76 | interpolation at any x gives the value of every short enough polynomial through the points |
| Shamir.ShamirSplit | packages/mpc-crypto/src/shamir.ts:44-58 | fails exactly on an invalid threshold; else share i is at i + 1 with the residue of secret + rand[0] (i+1) + rand[1] (i+1)^2 + ... |
| Shamir.ShareIs | packages/mpc-crypto/src/shamir.ts:50-57 | that power sum is what the Horner form computes |
| Shamir.ShamirReconstruct | packages/mpc-crypto/src/shamir.ts:63-76 | the nested loops compute Lagrange interpolation at 0, for any list of shares |
| Shamir.LagrangeIsSum | packages/mpc-crypto/src/shamir.ts:63-76 | which is the residue of a sum with one term per share: its y times the product of the other -x_j, divided by the product of the differences, and 0 where that product is 0 |
| Shamir.PickedPoints | packages/mpc-crypto/src/shamir.ts:50-57 | distinct shares have distinct abscissae mod p and lie on the polynomial |
| Shamir.SplitReconstruct | packages/mpc-crypto/src/shamir.ts:40-76 | round trip: any threshold or more of distinct shares, in any order, give back secret mod p |
| Shamir.SubThreshold | packages/mpc-crypto/src/mpc-crypto-test.ts:39-45 | one share too few reconstructs the secret if and only if the top coefficient is 0 mod p |
| Shamir.SubThresholdWitness | packages/mpc-crypto/src/mpc-crypto-test.ts:39-45 | the secret of that test, with top coefficient 0, comes back from two shares of a 3-of-5 sharing |
| Hiding.PerfectHiding | packages/mpc-crypto/src/shamir.ts:40-58 | fewer shares than the threshold are consistent with equally many sharings of any two secrets |
| Hiding.UniqueCompletion | packages/mpc-crypto/src/shamir.ts:40-58 | one share less than the threshold and a candidate secret leave exactly one choice of coefficients |
| Sampling.RandomFieldElement | packages/mpc-crypto/src/shamir.ts:31-38 | returns the residue of the first accepted draw and rejects all before it |
| Sampling.BlockCount | packages/mpc-crypto/src/shamir.ts:29-38 | below q * p every residue has exactly q preimages |
| Sampling.ExactlyUniform | packages/mpc-crypto/src/shamir.ts:23-38 | among accepted draws every residue has exactly floor(range / p) preimages; the limit is the largest multiple of p within the range |
| Sampling.FieldElementUniform | packages/mpc-crypto/src/shamir.ts:23-38 | the same for the program's 2^256 draws |
| Encoding.ReadShow | packages/mpc-crypto/src/shamir.ts:79-86 | reading the decimal digits of any integer gives the integer |
| Encoding.ShowRead | packages/mpc-crypto/src/shamir.ts:79-86 | text as printed can always be read, and printing what was read gives the text back |
| Encoding.DecodeEncode | packages/mpc-crypto/src/shamir.ts:79-86 | a share survives its transport form |
| Encoding.DigitsAre | packages/mpc-crypto/src/shamir.ts:83-86 | the value of every digit character |
| Encoding.PlaceValue | packages/mpc-crypto/src/shamir.ts:83-86 | a digit counts its base to the power of the digits after it |
| Encoding.ReadTrims | packages/mpc-crypto/src/shamir.ts:83-86 | white space around a number does not matter |
| Encoding.ReadForms | packages/mpc-crypto/src/shamir.ts:83-86 | base prefixes, signs and the empty text |
| Encoding.SpacesAre | packages/mpc-crypto/src/shamir.ts:83-86 | the white space `BigInt` trims is the white space and line terminators of the ECMAScript grammar, listed |
| Netting.GroupByKey | apps/mpc-committee/src/coordinator.ts:20-25 | the map of groups, each with its members in input order |
| Netting.PairUp | apps/mpc-committee/src/coordinator.ts:40-66 | the two-pointer loop with its skips performs the recursive walk and keeps `used` equal to the ids matched |
| Netting.VisitGroups | apps/mpc-committee/src/coordinator.ts:30-67 | the loop over groups is the sequence of visits, each seeing the ids its predecessors used |
| Netting.MatchIntents | apps/mpc-committee/src/coordinator.ts:13-70 | the matches of each asset pair in the order in which pairs first appear in the input: A is the side of the first intent of the pair, sides are paired by rank, and neighbours by rank when both assets are the same |
| Netting.WalkFresh | apps/mpc-committee/src/coordinator.ts:42-66 | on two groups nobody used yet the walk is a zip |
| Netting.WalkSelf | apps/mpc-committee/src/coordinator.ts:47-52 | on a group against itself the walk pairs neighbours and never an intent with itself |
| Netting.WalkExhausted | apps/mpc-committee/src/coordinator.ts:51-52 | when a side is used up the walk adds nothing |
| Netting.VisitsAreSimple | apps/mpc-committee/src/coordinator.ts:30-67 | the second visit of an asset pair is empty, so all visits together are the closed form |
| Netting.PairsAreBlocks | apps/mpc-committee/src/coordinator.ts:20-67 | the closed form read off input positions alone |
| Netting.Oriented | apps/mpc-committee/src/coordinator.ts:30-62 | a match has the direction of some input position, and up to there nobody has the opposite one |
| Netting.InInputOrder | apps/mpc-committee/src/coordinator.ts:20-67 | earlier matches belong to asset pairs that appear earlier |
| NettingOptimal.PairsAreMatching | apps/mpc-committee/src/coordinator.ts:13-70 | the result pairs complementary input intents, nobody twice and nobody with himself |
| NettingOptimal.MaximumCardinality | apps/mpc-committee/src/coordinator.ts:13-70 | no disjoint complementary pairing of the input is larger |
| NettingOptimal.ExactCounts | apps/mpc-committee/src/coordinator.ts:30-66 | min of the two group sizes over both visits of a pair; half of a same-asset group |
| NettingOptimal.LayerCake | apps/mpc-committee/src/coordinator.ts:54-60 | what pairs net above a floor is the sum over levels of how many pairs reach the level |
| NettingOptimal.LevelBound | apps/mpc-committee/src/coordinator.ts:36-66 | at every level, no other pairing of the same participants has more pairs reaching it |
| NettingOptimal.SurplusBound | apps/mpc-committee/src/coordinator.ts:36-66 | so no pairing among the same participants, complete or not, nets a larger surplus over any floor of the amounts |
| NettingGap.MaximumNetted | apps/mpc-committee/src/coordinator.ts:36-66 | no other pairing of the same participants nets a larger total amount, whatever the signs of the amounts |
| NettingGap.MinimumGap | apps/mpc-committee/src/coordinator.ts:36-66 | and none leaves a smaller total gap between the two amounts of its pairs |
| NettingOrder.MatchedAmountsClosed | apps/mpc-committee/src/coordinator.ts:36-66 | the matched amounts of an asset pair are a function of its sorted amounts alone |
| NettingOrder.OrderIndependent | apps/mpc-committee/src/coordinator.ts:19-67 | permuting the input, or sorting ties otherwise, changes no matched amount of any asset pair |
| Priced.PairMatchesIffCrosses | apps/mpc-committee/src/coordinator.ts:109-140 | for positive amounts a pair matches if and only if B spends the floor of A's price, both minima hold and B's limit holds exactly, so that A falls short of its limit by less than one base unit; the match carries both full amounts |
| Priced.PairExactly | apps/mpc-committee/src/coordinator.ts:109-140 | for all integers: when there is no match, a division by zero or a match, with quotients rounded toward zero, and what the match carries |
| Priced.PairThrowsIff | apps/mpc-committee/src/coordinator.ts:117-127 | exactly when the division by b.amount is by zero |
| Priced.LimitsCross | apps/mpc-committee/src/coordinator.ts:115-127 | a match implies that the limits cross up to rounding |
| Priced.MatchPricedIntents | apps/mpc-committee/src/coordinator.ts:144-161 | the nested loops return the picks of the recursion, or stop where a pair throws, on any list |
| Priced.GreedyExactly | apps/mpc-committee/src/coordinator.ts:147-159 | these picks are the one list in input order in which each intent takes the first free partner that answers, and nobody is passed over |
| Priced.GreedyStops | apps/mpc-committee/src/coordinator.ts:147-159 | and the loop throws at a free intent whose first free partner that answers divides by zero |
| Priced.PricedExactly | apps/mpc-committee/src/coordinator.ts:144-161 | both for a whole list |
| Priced.FirstFitCrosses | apps/mpc-committee/src/coordinator.ts:149-158 | a found partner crosses and is unused, and a scan that finds none means that none crosses |
| Priced.GreedyPicks | apps/mpc-committee/src/coordinator.ts:144-161 | every pick crosses and no intent is picked twice |
| Priced.GreedyMaximal | apps/mpc-committee/src/coordinator.ts:144-161 | at the end no two unused intents match in either orientation |
| Priced.BatchConserves | apps/mpc-committee/src/coordinator.ts:144-161 | over a whole batch, of every asset as much is delivered as the matched intents spend |
| Priced.BatchCrosses | apps/mpc-committee/src/coordinator.ts:109-161 | with positive amounts the batch never throws and every match of it keeps both minimum outputs, B's limit exactly and A's up to less than one unit |
| CommitteeState.SessionState.Store | apps/mpc-committee/src/state.ts:51-65 | the session after an intent and its encrypted shares were stored |
| RoundsExact.SubmitExactly | apps/mpc-committee/src/state.ts:49-52 | the intent enters the map, at the end of the order if new and at its place otherwise |
| RoundsExact.PutExactly | apps/mpc-committee/src/state.ts:54-65 | a node's last share of the intent fills its slot, undecrypted, and no other slot changes |
| CommitteeState.CommitteeState.CreateSession | apps/mpc-committee/src/state.ts:28-39 | a new empty open session under its name |
| CommitteeState.CommitteeState.GetOrCreateOpenSession | apps/mpc-committee/src/state.ts:41-47 | an open session if there is one, and otherwise a new one named by the clock |
| CommitteeState.CommitteeState.AddIntent | apps/mpc-committee/src/state.ts:49-68 | the intent enters the open session, or a new one, and no other session changes |
| CommitteeState.CommitteeState.GetOpenSessions | apps/mpc-committee/src/state.ts:79-81 | exactly the open sessions |
| CommitteeState.CeilTwoThirds | apps/mpc-committee/src/remote-coordinator.ts:43-45 | the least number of nodes that is at least two thirds |
| CommitteeState.CollectShares | apps/mpc-committee/src/coordinator.ts:216-221 | the first two decrypted shares in node order |
| RoundsExact.FirstTwoUsed | apps/mpc-committee/src/coordinator.ts:216-221 | these are the shares of the first two endpoints that hold one |
| RoundsExact.FewerUsed | apps/mpc-committee/src/coordinator.ts:216-225 | and with fewer holders there are no others |
| CommitteeState.ReconstructAmount | packages/mpc-crypto/src/committee.ts:102-104 | throws if and only if one of the texts cannot be decoded; else the interpolated amount |
| CommitteeState.ReconstructAll | apps/mpc-committee/src/coordinator.ts:213-228 | all amounts, or how the first intent that has none ends the loop: too few shares, or an exception |
| CommitteeState.FinishMatching | apps/mpc-committee/src/coordinator.ts:213-240 | reconstruct, clear and match; failed when shares are missing, and untouched, uncleared, when decoding throws |
| CommitteeState.RunMatchingRound | apps/mpc-committee/src/coordinator.ts:186-259 | the in-process round as one step on the session: signed, failed, or left matching by an exception |
| RoundsExact.LocalDecisionExactly | apps/mpc-committee/src/coordinator.ts:194-240 | it fails where decryption stops and otherwise decides by the shares |
| RoundsExact.LocalBatchExactly | apps/mpc-committee/src/coordinator.ts:242-256 | the batch has the drawn id, the session's name, the decided matches and every node's own signature on them |
| CommitteeState.DecryptShares | apps/mpc-committee/src/coordinator.ts:196-211 | node by node, up to the first share that fails to decrypt; texts are not decoded here |
| RoundsExact.DecryptExactly | apps/mpc-committee/src/coordinator.ts:196-211 | every slot holds what it decrypts to, or decryption stopped at the first slot that fails, with exactly the slots before it decrypted |
| CommitteeState.OnDecryptReplies | apps/mpc-committee/src/remote-coordinator.ts:69-108 | the step between the two awaits, with its three ends |
| RoundsExact.QuorumDecides | apps/mpc-committee/src/remote-coordinator.ts:69-73 | fewer than two thirds of answers fail the session and change nothing else |
| RoundsExact.AnswersExactly | apps/mpc-committee/src/remote-coordinator.ts:74-81 | the last answer that names a slot decides it, and no ciphertext changes |
| RoundsExact.ConcludeExactly | apps/mpc-committee/src/remote-coordinator.ts:83-108 | an exception, a failure for want of two holders, or cleared endpoint shares and the matches of the reconstructed intents |
| RoundsExact.PlainExactly | apps/mpc-committee/src/coordinator.ts:214-227 | where the round goes on each intent is what its two texts decode and sum to |
| RoundsExact.ClearExactly | apps/mpc-committee/src/remote-coordinator.ts:100-105 | endpoints' decrypted shares go and everything else stays |
| CommitteeState.OnSignReplies | apps/mpc-committee/src/remote-coordinator.ts:116-125 | the step after the second await |
| RoundsExact.RemoteBatchExactly | apps/mpc-committee/src/remote-coordinator.ts:116-125 | with two thirds of the signatures the batch has the given id and matches, the session's name and exactly the signatures that came back, in endpoint order |
| RoundsExact.TooFewIntents | apps/mpc-committee/src/coordinator.ts:190-192 | with fewer than two intents neither round changes anything |
| RoundsExact.BeginExactly | apps/mpc-committee/src/remote-coordinator.ts:52-58 | otherwise a remote round begins by marking the session and nothing else |
| RoundsExact.EmptyExactly | apps/mpc-committee/src/state.ts:28-39 | a created session is open and has neither intents, shares nor a batch |
| Rounds.QuorumsIntersect | apps/mpc-committee/src/remote-coordinator.ts:43-45 | any two quorums of n nodes share at least n/3 of them |
| Rounds.SignedByQuorum | apps/mpc-committee/src/remote-coordinator.ts:113-125 | a remote round ends signed if and only if a quorum signed, with that many signatures on the batch |
| Rounds.SignersAreQuorum | apps/mpc-committee/src/remote-coordinator.ts:113-125 | asking every endpoint, a round ends signed if and only if the endpoints that signed are a quorum |
| Rounds.SignedBatchesOverlap | apps/mpc-committee/src/remote-coordinator.ts:113-125 | any two signed batches have at least a third of the endpoints as common signers |
| Rounds.ThrowsIff | apps/mpc-committee/src/coordinator.ts:215-228 | the loop over intents throws if and only if some intent, before the first with fewer than two shares, has an undecodable share among its first two |
| Rounds.RemoteThrowsIff | apps/mpc-committee/src/remote-coordinator.ts:69-98 | that condition on the answers, for a remote round past its quorum check |
| Rounds.LocalThrowsIff | apps/mpc-committee/src/coordinator.ts:196-228 | and on the ciphertexts, for an in-process round |
| Rounds.ThrownHoldsShares | apps/mpc-committee/src/remote-coordinator.ts:85-105 | a round that threw is as it was, and holds decrypted shares |
| Rounds.ClearedIffNoStray | apps/mpc-committee/src/remote-coordinator.ts:74-105 | clearing leaves a decrypted share behind if and only if the last word on some slot came under a node id that is no endpoint |
| Rounds.ProperMeansNoStray | apps/mpc-committee/src/remote-coordinator.ts:74-105 | nodes answering under their own endpoint ids are never stray and leave nothing behind |
| Rounds.FaultTolerance | apps/mpc-committee/src/remote-coordinator.ts:60-125 | with at least two nodes, when a quorum serves its shares and a quorum signs the round ends signed, unless one of the shares it would use cannot be decoded, and then it throws |
| Rounds.FirstBadThrows | apps/mpc-committee/src/remote-coordinator.ts:85-98 | an undecodable share of the first endpoint stalls every such round |
| Rounds.UndecodableWitness | apps/mpc-committee/src/remote-coordinator.ts:60-98 | three nodes, two of them a quorum with good shares, and the round throws and keeps its shares |
| Rounds.LocalUndecodableWitness | apps/mpc-committee/src/coordinator.ts:196-228 | the in-process round throws in the same way |
| Rounds.TwoNodesNeeded | apps/mpc-committee/src/remote-coordinator.ts:93-96 | with fewer than two nodes a round always fails |
| Rounds.HonestAmount | apps/mpc-committee/src/coordinator.ts:214-227 | honest shares can be decoded, and any two of them give the dealt amount |
| Rounds.RemoteMatches | apps/mpc-committee/src/remote-coordinator.ts:60-108 | whichever quorum answered honestly, the round does not throw and the match list is the one on the dealt amounts |
| Rounds.LocalSignedIff | apps/mpc-committee/src/coordinator.ts:186-259 | an honest in-process round ends signed if and only if no ciphertext fails to decrypt and two endpoints have a share of every intent |
| Rounds.LocalMatches | apps/mpc-committee/src/coordinator.ts:186-259 | then it carries that same match list, and otherwise it fails |
| Rounds.LocalCleanIff | apps/mpc-committee/src/coordinator.ts:196-237 | an in-process round that has not failed leaves no decrypted share if and only if it did not throw |
| Rounds.RemoteCleanIff | apps/mpc-committee/src/remote-coordinator.ts:69-105 | a remote round that has not failed leaves no decrypted share if and only if it neither threw nor had a stray answer |
| Instance.SortsAll | apps/mpc-committee/src/coordinator.ts:36-38 | an insertion sort is one of the sorts the engine may use |
| Instance.CommitteeExists | apps/mpc-committee/src/coordinator.ts:186-189 | there are committees as the theorems about rounds and runs assume them |
| Instance.HonestRunExists | apps/mpc-committee/src/coordinator.ts:186-259 | and an honest run of one in which a batch is signed |
| Protocol.ConcludeSound | apps/mpc-committee/src/coordinator.ts:213-240 | a round's matches pair distinct intents of its session, each at most once |
| Protocol.StepKeeps | apps/mpc-committee/src/coordinator-server.ts:98-136 | every step keeps the protocol invariant and moves every session only forward |
| Protocol.Reachable | apps/mpc-committee/src/server.ts:140-207 | the invariant holds in every state of every interleaving |
| Protocol.RunForward | apps/mpc-committee/src/state.ts:14-22 | over any stretch of a run status moves only from open to matching to signed or failed |
| Protocol.AtMostOneRound | apps/mpc-committee/src/coordinator-server.ts:98-136 | at most one session is open; each session starts at most one full round and signs at most one batch, although the timer never rechecks its snapshot |
| Protocol.FrozenFromStart | apps/mpc-committee/src/remote-coordinator.ts:56-125 | from the start of its round a session's intents are frozen, and its batch matches only those |
| ProtocolProgress.SubmitLands | apps/mpc-committee/src/state.ts:49-68 | a submission enters the open session |
| ProtocolProgress.SubmitOpens | apps/mpc-committee/src/state.ts:41-68 | or a new one that the directory then has |
| ProtocolProgress.ManualRuns | apps/mpc-committee/src/coordinator-server.ts:98-105 | the manual trigger starts a round on the open session it names |
| ProtocolProgress.ManualIdle | apps/mpc-committee/src/coordinator-server.ts:98-105 | and does nothing on any other |
| ProtocolProgress.TickRuns | apps/mpc-committee/src/coordinator-server.ts:124-136 | a timer tick starts a round on the open session, when it has two intents |
| ProtocolProgress.TickIdle | apps/mpc-committee/src/coordinator-server.ts:124-136 | and does nothing otherwise |
| ProtocolProgress.AnswersDecide | apps/mpc-committee/src/remote-coordinator.ts:69-115 | after the first await the session is as decided, and the round waits for signatures on exactly the decided matches or is over |
| ProtocolProgress.SignaturesEnd | apps/mpc-committee/src/remote-coordinator.ts:116-125 | after the second the round is over and a signed batch is logged |
| ProtocolProgress.RoundCompletes | apps/mpc-committee/src/remote-coordinator.ts:47-126 | a triggered round that a quorum serves and signs ends signed and logged, with exactly the signatures that came back |
| Hygiene.HygieneExact | apps/mpc-committee/src/remote-coordinator.ts:69-105 | in every state of every run, whatever nodes answer, a session that has not failed holds decrypted shares if and only if its round threw or had a stray answer; after a throw nobody works on it any more |
| Hygiene.ProperHygiene | apps/mpc-committee/src/remote-coordinator.ts:69-105 | when nodes answer under their own ids no run has a stray answer, so only a throw leaves shares |
| Hygiene.StrayWitness | apps/mpc-committee/src/remote-coordinator.ts:74-108 | a round that goes on to signing while a share under a foreign node id outlives the clearing |
| Hygiene.HygieneOverRuns | apps/mpc-committee/src/remote-coordinator.ts:100-105 | when all texts can be decoded no round ever throws and only failed sessions hold decrypted shares |
| Hygiene.StallWitness | apps/mpc-committee/src/remote-coordinator.ts:85-105 | a run of two submissions, one trigger and one bad answer that ends with a matching session, its shares and nobody to clear them |
| Batches.SignedByQuorums | apps/mpc-committee/src/remote-coordinator.ts:113-125 | every batch of every run is signed by at least two thirds of the endpoints |
| Batches.BatchesOverlap | apps/mpc-committee/src/remote-coordinator.ts:113-125 | any two batches of a run have at least a third of the endpoints as common signers |
| Batches.HonestRuns | apps/mpc-committee/src/remote-coordinator.ts:60-108 | over honest runs every round decides the matches of the intents as dealt |
| Batches.SignedAsDealt | apps/mpc-committee/src/coordinator.ts:213-256 | every signed batch of an honest run, in process or remote, whichever quorum answered, is the matching of its session's intents as dealt, and each match nets two dealt amounts of opposite assets |
| Settlement.StepKeeps | apps/mpc-committee/src/persist.ts:9-49 | every statement of every process, and every crash, keeps the database invariant and only adds to what it says |
| Settlement.Reachable | apps/mpc-committee/src/settler.ts:51-146 | the invariant holds in every state of every run |
| SettlementSafety.RunIntake | apps/api/src/routes.ts:466-562 | which rows and submissions exist, read off the run |
| SettlementSafety.LateIff | apps/api/src/routes.ts:466-510 | an intent counts as late exactly when its RFQ row was first inserted after its submission |
| SettlementSafety.Exclusion | apps/mpc-committee/src/settler.ts:51-86 | no intent has both a relayer job and an RFQ settlement, unless its RFQ row came after its submission |
| SettlementSafety.ExactlyOnce | apps/mpc-committee/src/settler.ts:61-131 | of a batch that left `pending`, each match has exactly one job when neither side has an RFQ row and none otherwise, over all crashes and re-polls |
| SettlementSafety.AtMostOnce | packages/queue/src/index.ts:42-56 | no key has two jobs, and each job is for the match its key names |
| SettlementSafety.GatedSettlement | apps/api/src/routes.ts:672-688 | a settlement that passed the MPC gate is of an intent that a persisted signed batch matches |
| SettlementProgress.RoutedExactly | apps/api/src/routes.ts:675-685 | a routed settlement of a matched intent is recorded as gated, and one of an intent that is not matched ends without a record |
| SettlementProgress.SettleExactly | apps/api/src/routes.ts:651-690 | a settlement left alone: recorded past the gate when linked and matched, refused when linked and not matched, recorded without it when not linked |
| SettlementSafety.GatedUnlessEarly | apps/api/src/routes.ts:672-681 | a settlement skips the gate only by reading the row before the link was written |
| SettlementSafety.SettledImpliesMatched | apps/api/src/routes.ts:651-690 | a settlement of an intent with no such early read implies a persisted signed match, crashes or not |
| SettlementRaces.GateRace | apps/api/src/routes.ts:525-556 | a run in which a settlement reads the row after the committee accepted the intent and before the link, and settles without a match |
| SettlementRaces.LateRowRace | apps/api/src/routes.ts:471-510 | a run in which a late RFQ row gives one intent both a job and a settlement |
| SettlementRaces.MissedRowRace | apps/api/src/routes.ts:525-543 | a run in which persistence completes before the row exists, and the row stays unmatched |
| SettlementSafety.PartnerUnique | apps/mpc-committee/src/persist.ts:39-48 | with every intent signed once, whom an intent is matched with is one other intent |
| SettlementSafety.MatchedRows | apps/mpc-committee/src/persist.ts:39-48 | at any moment of any run `matched_with` has no fixed point, and two matched rows name each other |
| SettlementSafety.NothingMissed | apps/mpc-committee/src/persist.ts:39-48 | with rows in place before a batch is signed no update misses its row |
| SettlementExact.GateExact | apps/api/src/routes.ts:672-681 | a settlement about to read the row settles only a matched intent in every continuation if and only if the intent is linked or matched |
| SettlementExact.ExclusionExact | apps/mpc-committee/src/settler.ts:73-118 | when an intent gets its RFQ row, some continuation settles it on both paths if and only if it has a job or a settler read its side as direct and may still queue it |
| SettlementExact.MissedIff | apps/mpc-committee/src/persist.ts:39-48 | an intent counts as missed exactly when its update ran before its row existed |
| SettlementExact.MissedStaysUnmatched | apps/mpc-committee/src/persist.ts:39-48 | with every intent signed once, a missed row is never matched afterwards |
| SettlementExact.MatchedExactly | apps/mpc-committee/src/persist.ts:39-48 | of a batch persisted to its end an intent is matched if and only if its row existed when its update ran |
| SettlementExact.MatchedInvolution | apps/mpc-committee/src/persist.ts:9-49 | once all persistence ran to its end the matched rows are exactly the batches' intents that were not missed, `matched_with` has no fixed point, and partners name each other unless one was missed |
| SettlementExact.RowsFirstSuffice | apps/api/src/routes.ts:525-543 | rows in place before their batch is signed are never missed |
| SettlementStore.Store.PersistSignedBatch | apps/mpc-committee/src/persist.ts:9-49 | the batch row and then both updates of every match in order, up to the first that fails; none fails when all rows exist |
| SettlementStore.MarkedMatch | apps/mpc-committee/src/persist.ts:39-48 | both updates of one match, or the failure that ends the rest |
| SettlementStore.PersistedRows | apps/mpc-committee/src/persist.ts:39-48 | persisting a sound batch matches both sides of each match with one another and changes no other row |
| SettlementStore.PersistExactly | apps/mpc-committee/src/persist.ts:39-48 | a sound batch goes through if and only if every match has both rows or none, and otherwise stops at the first that has one, with just the matches before it marked |
| SettlementStore.InsertExactly | apps/mpc-committee/src/persist.ts:14-18 | a batch row that is there stays as it is |
| SettlementStore.Store.Enqueue | packages/queue/src/index.ts:42-56 | appends the job unless its key is taken |
| SettlementStore.Store.QueueSettlementJobs | apps/mpc-committee/src/settler.ts:61-131 | the jobs of the matches without an RFQ side, and `queued` if and only if there is one |
| SettlementStore.Store.SettleOnce | apps/mpc-committee/src/settler.ts:134-146 | every polled batch leaves `pending`, and the keys with jobs are the old ones and those of their direct matches |
| SettlementStore.QueuedExactly | apps/mpc-committee/src/settler.ts:73-118 | which keys have a job after a pass |
| SettlementStore.QueuedShape | apps/mpc-committee/src/settler.ts:73-118 | old jobs stay, new ones come in order of their matches and are for them |
| SettlementStore.RestartIdempotent | apps/mpc-committee/src/settler.ts:73-118 | a settler that starts over after a stop at any match ends with the jobs of one pass |
| SettlementStore.PersistUninterrupted | apps/mpc-committee/src/persist.ts:9-49 | a run of a persistence process's steps with nothing in between does what the method does |
| SettlementStore.SettleUninterrupted | apps/mpc-committee/src/settler.ts:73-118 | the same for a run of a settler's reads and decisions |
| SettlementStore.MarkUninterrupted | apps/mpc-committee/src/settler.ts:61-131 | and for the whole pass with the status it leaves |
| SettlementProgress.BatchSettles | apps/mpc-committee/src/settler.ts:61-146 | a sound batch whose rows exist, left alone from its signature on, is persisted to the end, polled, and has exactly the jobs of its direct matches |
| SettlementProgress.CrashExactly | apps/mpc-committee/src/persist.ts:9-49 | a process that stops part way leaves every row it has written |
| SettlementProgress.IntakeExactly | apps/api/src/routes.ts:471-556 | the rows that the intent handler's statements write, and what they leave alone |
| Handoff.StepRound | apps/mpc-committee/src/coordinator-server.ts:98-136 | a step that is no submission signs at most one batch, of a session that holds it, and leaves all intents alone |
| Handoff.BatchOrigin | apps/mpc-committee/src/coordinator-server.ts:98-136 | every batch in the log of a run was signed by one of its steps: in process with that step's id and every node's own signature, or after a remote round with the id and matches sent out and exactly the signatures that came back |
| Handoff.OneSessionEach | apps/mpc-committee/src/state.ts:49-68 | with every id submitted once no intent is ever in two sessions |
| Handoff.SoundBatch | apps/mpc-committee/src/persist.ts:9-13 | the committee's matches are sound for the database side |
| Handoff.HandoffFaithful | apps/mpc-committee/src/coordinator-server.ts:98-136 | in every joint run the database works on exactly the batches the committee signed, over the same submissions |
| Handoff.SignedOnceFollows | apps/mpc-committee/src/state.ts:49-68 | with every id submitted once no intent is in two signed batches |
| Handoff.SettlementBacked | apps/api/src/routes.ts:651-690 | behind a recorded RFQ settlement without an early read stands a signed session that holds the intent and matched it |
| Handoff.JobBacked | apps/mpc-committee/src/settler.ts:94-114 | behind a relayer job stands a signed session that holds both intents and whose batch has that match at that index |
| Handoff.JobNetsDealt | apps/mpc-committee/src/settler.ts:94-114 | in an honest joint run a relayer job nets the amounts its two intents were dealt with, at opposite assets |
| Handoff.JobSignedByQuorum | apps/mpc-committee/src/settler.ts:94-114 | and stands in a batch signed by two thirds of the endpoints |
| Handoff.EveryoneHasPartner | apps/mpc-committee/src/persist.ts:9-49 | in a joint run with ids submitted once and persistence complete, the matched rows are exactly those of the committee's batches that were not missed, and partners name each other |

## Left out

- `frontend/` and `apps/web/`: user interface and wallet code.
- HTTP, authentication, timeouts and SQL: only the table reads and writes and their order are modelled.
- NaCl, Ed25519, AES-GCM, SHA-256, Poseidon and Groth16: decryption and signing are arbitrary functions, and `computeBatchHash` is not part of this model.
- Answers of a node that are not of the form its server sends, an object with a node id and a share or null per intent.
- An exception inside signing or matching: the model's signatures and match lists always come back.
- JSON values other than an object with two texts: what a share decrypts to is null, an error or two texts, and a value that BigInt treats like a text is that text.
- Group keys are pairs of names, not strings joined with `|`: an asset name that contains `|` is not modelled.
- `POST /shares` on a node, which may overwrite the ciphertext of a share: the model has the shares a submission brings.
- The order of a node's entries within a failing in-process round: the model tries them in order of submission.
- `mpc_sessions` and signature rows, whose statements only matter as places to stop; a violated foreign key there is a crash.
- `ORDER BY` and `LIMIT 50` of the settler's poll: any pending batch may be picked up.
- Quotes, acceptances, locks, fills and proof jobs of the RFQ lifecycle: a settlement may reach the MPC gate whenever its intent row exists.
- Note data, nullifiers and commitments carried by jobs: a job is its key and its match.
- Relayer, prover, solver, bridge, auditor, contracts and circuits: other programs.
- Field.ModInv: stated for a prime modulus, the only kind the program uses.
