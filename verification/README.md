# Sapphire coordination protocol: a Dafny model

Sapphire is a coordination layer for threshold signing. Validators exchange
transactions through a replicated state machine; each validator reacts to the
state it sees; when a quorum has committed and shared, the machine aggregates a
FROST signature. Key generation runs through the same machine. This project
models four parts of the system and proves what holds over all of their runs.

* **The replicated state machine** (`Chain`, `Ledgers`, `Acceptance`, `Runs`,
  `Ranks`, `Convergence`, `Delivery`, `OnePass`, `Disputes`, `Refusals`,
  `PanicFreedom`, `Ceremonies`, `ZeroThreshold`, `History`, `Accounting`): `apply_tx`
  with its eight transaction kinds. Every transaction fills one slot. `Ledgers.Admissible`
  says which sets of transactions make sense and `Ledgers.View` reads the chain
  state off such a set without reference to order. `Acceptance.AcceptIff` proves
  that `apply_tx` accepts exactly the extensions of an admissible ledger and moves
  to its view; the run-level theorems rest on that. Transactions have seven ranks
  (setup, the three ceremony rounds, request, commitment, share), and each depends
  only on lower ones.
* **The reactive participants** (`Nodes`, `Reactions`, `NonceSafety`, `SigningWorld`,
  `NonceCustody`, `Participants`, `DkgReactions`, `DkgWorld`, `DkgAdversary`): signing
  nodes and key generation participants as classes proved against value-level
  specifications; an exact account of one reaction, request by request and phase by
  phase, with every error (`Reactions`, `DkgReactions`); then worlds in which they react to current or stale states while transactions
  arrive in any order, alone or beside parties that inject what they like.
* **The drivers** (`Sim`, `Sessions`, `SessionTrace`, `SessionOutcome`, `InProcessDkg`,
  `Transcript`, `TransportEquivalence`): the block simulator, the signing session
  driver and the in-process key generation, with its equivalence to the ceremony
  over the chain.
* **The escrow predicate** (`Escrow`) that the signing policy runs.

FROST is foreign code. Its operations are function-valued fields of the record
`FrostSuite.Frost`, a parameter of everything; what is assumed of them is written
as a predicate where it is used:

* `FrostSuite.AggregateSound`: a signature that `aggregate` returns verifies under
  the rerandomized key.
* `NonceCustody.SignsOwnCommitment`: signing succeeds on a package that carries the
  commitment to the nonces and at least as many commitments as the key requires
  signers. That packages have that size is proved, for nodes whose keys are for the
  group's threshold or a lower one.
* `SessionOutcome.AggregatesHonestShares`: aggregation succeeds on a quorum of
  shares signed with the nodes' own keys over the committed package.
* `Transcript.Follows`: on the honest inputs at hand the three DKG parts succeed and
  `part2` addresses exactly the others. `InProcessDkg.RoutesToOthers` says the latter
  for all inputs. That the derived packages agree (`Transcript.Script.Agrees`) is a
  hypothesis only where a result needs it; `TransportEquivalence.PkpFromRound1`, that
  they are a function of the round-1 packages, implies it.
* `Transcript.EnvelopesOpen`: opening a sealed package with the right key, and
  decoding an encoded one, return it.

`Consistency.LawsHoldTogether` exhibits a toy suite that satisfies all of these at
once, for every cast of participants and every session.

`Runs.SoundRun` is assumed in the run-level theorems: the setup transaction that the
run accepted has a threshold of at least 1 and, for a ceremony, at least two
participants, because `MpcParams` can be built without its checked constructor and
`apply_tx` does not look at it again. Setup transactions that are delivered and
refused may be anything. `Ceremonies`, `ZeroThreshold` and `DkgAdversary` do without
it, and so does `PanicFreedom`, which says exactly when the machine aborts.

## Where the code and its documentation differ

* `sapphire-chain/src/lib.rs:9-11` calls `apply_tx` monotonic and commutative across
  non-conflicting inputs, and concludes that eventual delivery suffices. The first
  part holds, with conflict made precise: two acceptable transactions commute if and
  only if they do not conflict (`Convergence.CommuteIff`), and a set settles the same
  way in every order if and only if no delivery drawn from it brings about a conflict
  (`Disputes.DeterminedIff`), which any one settled outcome decides
  (`Disputes.DeterminedIffNothingLeftOut`); two commitments for the last seat are one
  (`Convergence.CommitmentRace`). The conclusion needs re-delivery: one delivery in a
  bad order is not enough (`OnePass.SingleDeliveryDiverges`), seven complete rounds
  always are and six are not (`Delivery.SevenRounds`), and a single delivery is enough
  exactly when everything comes after what it needs (`OnePass.OneDeliveryIff`), for
  example rank by rank (`OnePass.RisingDeliveryQuiesces`).
* `sapphire-chain/src/state.rs:378-380` says the first `threshold` commitments in
  identifier order are selected. The map never holds more than `threshold` entries
  when that happens, so the selection is by arrival
  (`History.FirstCommittersParticipate`).
* The finalize branch checks only round 2 (`sapphire-chain/src/state.rs:295-299`).
  Promotion implies a full round 1 exactly when the ceremony is not for one
  participant (`Ceremonies.Round1ImpliedIff`, `Ceremonies.LoneCeremonySkipsRound1`).
* The parameters of a group are not checked again when it is set up. With threshold
  zero a request takes one commitment, is then said to be signing with an empty
  package, and accepts no share, so it is never decided (`ZeroThreshold.NeverDecided`).
* `sapphire-keygen/src/dkg.rs:7-9` says that only the transport differs. The agreement
  comparisons differ too: the in-process protocol compares verifying keys
  (`sapphire-keygen/src/dkg.rs:109`), the chain verifying shares too
  (`sapphire-chain/src/state.rs:309-310`). Each succeeds exactly when its own comparison
  does (`TransportEquivalence.EachSucceedsIff`). An invented suite shows that the
  comparisons can come apart (`Consistency.OnlyOneTransportSucceeds`); they cannot for a
  library whose packages depend on the round-1 map alone
  (`TransportEquivalence.BothSucceed`).
* The underflow of `total - 1` aborts only in builds with overflow checks. Without
  them it wraps, and the finalization is refused with an unknown validator, since the
  ceremony has none; nothing else changes (`PanicFreedom.WrappingIsHarmless`).

## Model

| member | source | states |
|---|---|---|
| `Core.NewParams` | sapphire-core/src/params.rs:13-18 | succeeds exactly for 1 <= threshold <= total; both numbers come back in their places, in the result and in the error |
| `Ledgers.Barriers` | sapphire-chain/src/state.rs:95-107 | in every admissible ceremony the three length comparisons hold iff every member, every ordered pair of distinct members, and every member has filled its slot |
| `Acceptance.AcceptIff` | sapphire-chain/src/state.rs:214-460 | on the view of an admissible ledger a transaction is accepted iff its slot is free and the larger ledger is admissible; the new state is that ledger's view; nothing aborts. Only what the empty chain accepts is assumed sound |
| `Acceptance.PromotedIsFull` | sapphire-chain/src/state.rs:271-299 | with two or more members a full finalize round implies a full round 2, and that a full round 1 |
| `Acceptance.WholeQuorumIsTaken` | sapphire-chain/src/state.rs:381-394 | up to the threshold the narrowing cast is exact and `take` keeps the whole map |
| `Refusals.RefusedIff` | sapphire-chain/src/state.rs:214-460 | on every run a transaction is refused with error `e` iff `e` is the first objection that the set of accepted transactions raises, said by which slots are filled and whether the quorum of a request is full |
| `Runs.RunIsView` | sapphire-chain/src/state.rs:214-460 | every state of every run is the view of the admissible ledger of what the run accepted |
| `Runs.Confluence` | sapphire-chain/src/state.rs:214-460 | two fully accepted runs that are permutations of each other end in the same state |
| `Runs.StateIsAFunctionOfTheAcceptedSet` | sapphire-chain/src/state.rs:214-460 | runs that accepted the same transactions are in the same state, whatever else they were delivered |
| `Runs.AtMostOnce` | sapphire-chain/src/state.rs:214-460 | once a slot is filled every later transaction for it is rejected |
| `Runs.RedeliveryIsInert` | sapphire-chain/src/sim.rs:58-70 | inserting any re-deliveries of accepted transactions changes neither the state nor what is accepted |
| `Convergence.CommuteIff` | sapphire-chain/src/lib.rs:9-11 | on every reachable state two acceptable transactions commute if and only if they do not conflict |
| `Disputes.DeterminedIff` | sapphire-chain/src/lib.rs:9-11 | all settled deliveries of a set accept the same transactions iff no delivery drawn from it makes two of its transactions acceptable that conflict |
| `Disputes.DeterminedIffNothingLeftOut` | sapphire-chain/src/lib.rs:9-11 | given any one settled outcome of a set, all settled deliveries agree iff nothing the outcome leaves out was enabled by what the outcome holds below its rank; a condition on the set and the outcome with no deliveries in it |
| `Convergence.EnabledStaysEnabled` | sapphire-chain/src/state.rs:214-460 | within a conflict-free set a transaction once acceptable stays so until its slot is filled |
| `Convergence.QuiescentIsMaximal` | sapphire-chain/src/lib.rs:9-13 | a delivery after which nothing is acceptable has accepted everything any delivery of the set accepts |
| `Convergence.Converge` | sapphire-chain/src/lib.rs:9-13 | any two quiescent deliveries of a conflict-free set, in any orders with any repeats, end in the same state |
| `Ranks.EnabledBelow` | sapphire-chain/src/state.rs:214-460 | every accepted transaction was already acceptable before anything of its own or a higher rank was accepted |
| `Delivery.RoundsQuiesce` | sapphire-chain/src/lib.rs:9-13 | any seven complete rounds of a conflict-free set, each in any order, reach quiescence |
| `Delivery.SixRoundsFallShort` | sapphire-chain/src/lib.rs:9-13 | for every admissible set with a ceremony and a share, six or fewer rounds in falling rank order leave something acceptable |
| `Delivery.SevenRounds` | sapphire-chain/src/lib.rs:9-13 | n complete rounds always reach quiescence iff n >= 7 |
| `OnePass.RisingDeliveryQuiesces` | sapphire-chain/src/lib.rs:9-13 | one delivery reaches quiescence when the ranks arrive in order |
| `OnePass.FinalExists` | sapphire-chain/src/lib.rs:9-13 | every conflict-free set has a final ledger: an admissible part of it that nothing in the set extends |
| `OnePass.OneDeliveryIff` | sapphire-chain/src/lib.rs:9-13 | one delivery without repeats reaches quiescence iff everything that is to be accepted comes after what it needs |
| `Convergence.CommitmentRace` | sapphire-chain/src/state.rs:371-397 | two acceptable commitments whose delivery order changes the state |
| `OnePass.SingleDeliveryDiverges` | sapphire-chain/src/lib.rs:9-13 | a conflict-free set whose single complete delivery in two orders ends in different states |
| `Ceremonies.LoneCeremonySkipsRound1` | sapphire-chain/src/state.rs:99-103 | a one-participant ceremony, of any threshold, is promoted without any round-1 package |
| `Ceremonies.Round1ImpliedIff` | sapphire-chain/src/state.rs:271-333 | every promoted run of a ceremony for `total` participants has a full round 1 iff `total` is not 1 |
| `PanicFreedom.PanicIff` | sapphire-chain/src/state.rs:99-103 | with overflow checks on, a step aborts iff it is a finalization and a ceremony for zero participants was accepted before |
| `PanicFreedom.WrappingIsHarmless` | sapphire-chain/src/state.rs:99-103 | on every run, the finalize branch with wrapping arithmetic does what it does with overflow checks, except that where that aborts it refuses with an unknown validator |
| `PanicFreedom.NeverPanics` | sapphire-core/src/params.rs:13-18 | with checked parameters no reachable step aborts, `total - 1` does not underflow and the barrier product is below 2^32 |
| `History.Lifecycle` | sapphire-chain/src/state.rs:217-457 | ceremony and group exclude each other, requests need a group, the group and each request's id, message and randomizer never change, statuses only move forward, shares in `Signing` are a strict subset of the participants |
| `Ceremonies.CountsMeanCoverage` | sapphire-chain/src/state.rs:95-107 | in every reachable ceremony, of any threshold, the three length comparisons hold iff every validator has a round-1 package, every ordered pair of distinct validators an envelope (for one or more participants; the product is then below 2^32), and every validator a finalization |
| `Ceremonies.RoundsIff` | sapphire-chain/src/state.rs:260-293 | on every run, rounds 1 and 2 accept exactly one package from each member and, once round 1 is covered, one envelope for each ordered pair of distinct members, and record exactly that |
| `Ceremonies.FinalizeIff` | sapphire-chain/src/state.rs:295-316 | on every run, a finalization is accepted iff round 2 is covered, the sender is a validator with a free slot, and every package finalized so far has an equal verifying key and equal verifying shares; it is refused as a mismatch iff only the last condition fails |
| `Ceremonies.PromotionIsUnanimous` | sapphire-chain/src/state.rs:271-333 | a promoted ceremony, whatever its parameters, accepted all of round 2, agreeing finalizations from everyone and, unless it was for one participant, all of round 1; it took the smallest identifier's package |
| `History.FirstCommittersParticipate` | sapphire-chain/src/state.rs:371-397 | the participants are exactly the validators of the first `threshold` accepted commitments, and no more are ever accepted |
| `History.SignatureProvenance` | sapphire-chain/src/state.rs:431-456 | a completed signature aggregates exactly `threshold` accepted shares over the accepted commitments, the original message, randomizer and group key, hence verifies under the rerandomized key |
| `ZeroThreshold.NeverDecided` | sapphire-chain/src/state.rs:357-457 | in a group of threshold zero a request accepts one commitment, which moves it to signing with an empty package, and never a share |
| `Accounting.LogLength` | sapphire-chain/src/state.rs:241-457 | the number of accepted transactions equals a measure of the state and of how the group was set up |
| `Accounting.LogBound` | sapphire-chain/src/state.rs:241-457 | an open ceremony has at most n^2 + n accepted transactions; a group has at most 1 + 2t per request, and for its setup 1 if it was given and n^2 + n + 1 if a ceremony generated it |
| `Ranks.Linearize` | sapphire-chain/src/state.rs:214-460 | every admissible ledger is reached by a fully accepted run, so reachable states are exactly the views of admissible ledgers |
| `Sim.ChainSim.constructor` | sapphire-chain/src/sim.rs:28-37 | a new simulator is at genesis with an empty mempool |
| `Sim.ChainSim.Submit` | sapphire-chain/src/sim.rs:45-47 | appends to the mempool and touches nothing else |
| `Sim.ChainSim.CommitBlock` | sapphire-chain/src/sim.rs:54-75 | drains the mempool into the left fold of the transition function that skips failures, records the accepted transactions and reports each outcome |
| `Sim.ReportedAsDelivered` | sapphire-chain/src/sim.rs:54-75 | a block reports every transaction in order: applied iff the machine accepts it where it stands, dropped with the very error the machine gives otherwise |
| `Sim.ReplayLastBlock` | sapphire-chain/src/sim.rs:54-75 | replaying a block's accepted transactions from the old state accepts all of them and gives the new state |
| `Sim.BlockCutsDoNotMatter` | sapphire-chain/src/sim.rs:54-75 | two ways of cutting the same stream into blocks give the same final state |
| `Escrow.ValidateSettlement` | sapphire-escrow/src/lib.rs:157-175 | succeeds iff the payment is exactly the terms' amount to the terms' payee and the verifier accepts the witness; each error means that its check fails and the ones before it do not |
| `Escrow.Policy.WithEscrow` | sapphire-node/src/policy.rs:62-65 | registers the terms under their own id, keeping every registered escrow filed under its id |
| `Escrow.ApproveIff` | sapphire-node/src/policy.rs:33-81 | the default policy approves every message; an escrow policy exactly those that parse to a release that honours this node's own terms for the named escrow |
| `Escrow.RefusalReason` | sapphire-node/src/policy.rs:73-81 | the error of a refusal: no proposal, an escrow that is not registered, or the first term that the release fails; the default policy has none |
| `Nodes.Node.constructor` | sapphire-node/src/lib.rs:58-75 | a new node remembers nothing, takes its identifier from the key package and carries the policy it is given |
| `Nodes.Node.Commit` | sapphire-node/src/lib.rs:89-102 | fails exactly if nonces are already pending for the session, otherwise caches fresh nonces and returns their commitment |
| `Nodes.Node.SignShareRerandomized` | sapphire-node/src/lib.rs:109-128 | consumes the cached nonces whether or not signing succeeds |
| `Nodes.Node.ReactTo` | sapphire-node/src/lib.rs:133-224 | the loop over requests computes the specified reaction: emitted transactions, new memory, and the first error |
| `Reactions.ReactionAccount` | sapphire-node/src/lib.rs:133-224 | the exact account of a reaction, without the loop: one reply to each request that is owed one, in key order, with which nonces and draws, what is remembered and signed; up to the first request that fails, if any |
| `Reactions.RepliesIff` | sapphire-node/src/lib.rs:147-222 | without an error, a commitment (a share) for request `id` is sent iff the node is in the group and owes one for it, and nothing else is sent |
| `Reactions.FailsIff` | sapphire-node/src/lib.rs:147-222 | a reaction fails iff some request does, with the error of the first: nonces already pending, or signing failed |
| `NonceSafety.AlwaysDisciplined` | sapphire-node/src/lib.rs:147-222 | over any sequence of reactions to arbitrary states, pending nonces stay within the committed requests and are distinct from every nonce already used |
| `NonceSafety.NonceSingleUse` | sapphire-node/src/lib.rs:89-222 | each nonce enters at most one signing call, each request gets at most one commitment and one share, and the session-in-use error is unreachable |
| `SigningWorld.AlwaysGated` | sapphire-node/src/lib.rs:149-178 | in every run with other parties injecting anything but honest nodes' commitments, every commitment in an honest node's name is for a request its policy approves |
| `SigningWorld.QuorumOnRecord` | sapphire-chain/src/state.rs:357-457 | behind every request past `AwaitingCommitments` are exactly `threshold` delivered commitments of distinct validators, who are its participants |
| `SigningWorld.QuorumGate` | sapphire-node/src/lib.rs:149-178 | a request past `AwaitingCommitments` was approved by at least `threshold` minus the number of non-honest validators honest nodes |
| `SigningWorld.NoSignatureWithoutHonouredTerms` | sapphire-node/src/policy.rs:73-81 | with fewer faulty validators than the threshold, some honest node's own terms are paid exactly, to their payee, with a witness it accepted |
| `NonceCustody.AlwaysHolding` | sapphire-node/src/lib.rs:184-212 | in every closed run each honest node still holds the nonces behind each of its commitments until it has shared |
| `NonceCustody.SelectedNodesHoldTheirNonces` | sapphire-node/src/lib.rs:184-212 | a selected participant that has not shared holds exactly the nonces committed in the signing package, so the session-not-found branch is not taken |
| `Participants.SealAll` | sapphire-node/src/dkg.rs:166-179 | one sealed envelope per recipient in identifier order, or the missing-key error iff some recipient has no key |
| `Participants.OpenAll` | sapphire-node/src/dkg.rs:197-206 | collects exactly the envelopes addressed to the participant, and fails iff one of them does not open |
| `Participants.DkgParticipant.constructor` | sapphire-node/src/dkg.rs:82-97 | a new participant has submitted and derived nothing |
| `Participants.DkgParticipant.React` | sapphire-node/src/dkg.rs:101-233 | one step of the three-phase participant, with its flags and the secrets it takes, on every error path |
| `DkgReactions.FailsIff` | sapphire-node/src/dkg.rs:101-233 | a step fails with a given error iff the phase that is due has that cause to: a FROST part fails, an envelope does not open or parse, a recipient has no key, a secret is missing, or the barrier underflows |
| `DkgReactions.FailureLeaves` | sapphire-node/src/dkg.rs:101-233 | a failed step leaves the flag of its phase and the packages as they were, and has taken exactly the secret it got as far as using |
| `DkgReactions.FailureIsFinal` | sapphire-node/src/dkg.rs:146-222 | after a failure in round 2, or in the last phase with all envelopes open, no later step sends anything or obtains a package, whatever states are shown; any other failure leaves the memory for a retry |
| `DkgReactions.Round2Succeeds` | sapphire-node/src/dkg.rs:146-185 | sends exactly one envelope to each recipient of `part2`, sealed to its key, in identifier order |
| `DkgReactions.FinalizeSucceeds` | sapphire-node/src/dkg.rs:187-227 | keeps both packages that `part3` derives from the others' round-1 packages and the opened envelopes, and publishes the public one |
| `DkgReactions.BystandersRest` | sapphire-node/src/dkg.rs:108-123 | a participant outside the ceremony, or with a group on the chain, sends nothing and keeps its memory |
| `Participants.DkgParticipant.IntoNode` | sapphire-node/src/dkg.rs:245-256 | yields a fresh node with the derived key package iff both packages are there, and otherwise names the first that is missing |
| `DkgWorld.AlwaysFaithful` | sapphire-node/src/dkg.rs:101-233 | invariant of every interleaving of reactions to current or earlier states with deliveries in any order, whether or not the derived packages agree |
| `DkgWorld.AlwaysHonest` | sapphire-node/src/dkg.rs:101-233 | the stronger invariant when they agree: the pool is exactly what was submitted and not yet accepted |
| `DkgWorld.NothingIsRejected` | sapphire-chain/src/state.rs:260-333 | no emitted transaction is ever rejected and no reaction to a state the participant may be shown fails |
| `DkgWorld.NoDeadlock` | sapphire-node/src/dkg.rs:101-233 | a world that no event changes has promoted its ceremony |
| `DkgWorld.PromotionAgrees` | sapphire-chain/src/state.rs:317-332 | on promotion everyone is locally complete, every local public key package equals the group's in verifying key and shares, and the group's is the smallest identifier's |
| `DkgWorld.CeremonyTerminates` | sapphire-node/src/dkg.rs:101-233 | at most n^2 + 4n events of a run have any effect, and a promoted log has exactly n^2 + n + 1 transactions |
| `DkgWorld.StaysPromotable` | sapphire-node/src/dkg.rs:101-233 | every run of an agreeing cast can be continued to promotion |
| `DkgWorld.PromotableIff` | sapphire-chain/src/state.rs:295-333 | some schedule promotes the ceremony iff all derived packages agree in verifying key and shares |
| `DkgAdversary.AlwaysTruthful` | sapphire-node/src/dkg.rs:101-233 | with honest participants shown any states and others injecting anything but ceremony transactions in honest names, every finalization pending or delivered in an honest name carries that participant's own package, and it has completed |
| `DkgAdversary.HonestPackagesStand` | sapphire-chain/src/state.rs:295-333 | in such a world, with nothing assumed of FROST, on promotion every honest validator has completed and its own package agrees with the group's in verifying key and shares |
| `InProcessDkg.Distribute` | sapphire-keygen/src/dkg.rs:79-86 | afterwards every inbox holds exactly what has been sent to its owner so far |
| `InProcessDkg.GenerateWithDkg` | sapphire-keygen/src/dkg.rs:37-119 | returns keys iff all three rounds succeed for everyone and the group verifying keys agree, and then participant 1's public key package |
| `InProcessDkg.GeneratedUnique` | sapphire-keygen/src/dkg.rs:37-119 | the outcome is determined by the parameters and the randomness |
| `TransportEquivalence.SameInbox` | sapphire-keygen/src/dkg.rs:79-99 | the in-process inbox of a participant is what the ceremony's envelopes deliver to it |
| `TransportEquivalence.SameKeys` | sapphire-keygen/src/dkg.rs:7-9 | once the ceremony over the chain is promoted, under any interleaving, the in-process protocol with the same randomness generates exactly its key packages and group package |
| `TransportEquivalence.InProcessForetellsChain` | sapphire-keygen/src/dkg.rs:7-9 | conversely, if the in-process protocol completes, a promoted ceremony with the same randomness holds the same keys, with no assumption that packages agree |
| `TransportEquivalence.EachSucceedsIff` | sapphire-keygen/src/dkg.rs:105-117 | the in-process protocol succeeds iff the derived verifying keys agree, the ceremony can be promoted iff verifying keys and shares do |
| `TransportEquivalence.BothSucceed` | sapphire-keygen/src/dkg.rs:7-9 | if the derived packages are a function of the round-1 map, the packages agree, the in-process protocol succeeds and the ceremony can be promoted |
| `Consistency.OnlyOneTransportSucceeds` | sapphire-keygen/src/dkg.rs:105-117 | the comparisons differ: with an invented suite whose verifying shares disagree, for every cast, the in-process protocol succeeds and no schedule of the ceremony is promoted |
| `Sessions.PollAll` | sapphire-zcash/src/lib.rs:100-106 | polls the nodes in order on one state, submits what they emit, and stops at the first error |
| `Sessions.DriveSigningSession` | sapphire-zcash/src/lib.rs:76-131 | the driver computes the specified session: result, chain, nodes and remaining mempool on every exit |
| `SessionTrace.RequestRefusedIff` | sapphire-zcash/src/lib.rs:85-94 | from any chain, the session ends with a refused submission iff some transaction of the first block is not accepted, reports the first such outcome, and then has taken one block and left the nodes untouched |
| `SessionTrace.IdleChainRefusesIff` | sapphire-zcash/src/lib.rs:85-94 | with an empty mempool that happens iff there is no group or the id is known, with the matching error |
| `SessionTrace.SessionCourse` | sapphire-zcash/src/lib.rs:96-130 | every other session is a course of at most eight turns: each polls the nodes in order on one state, commits a block unless a node fails, and ends or goes on as the state of the request and the submissions say |
| `SessionTrace.NodeErrorIff` | sapphire-zcash/src/lib.rs:100-106 | it ends with a node's error iff the last reaction has it; that turn commits no block, what earlier nodes emitted stays in the mempool, and later nodes are as they were |
| `SessionOutcome.SessionConcludes` | sapphire-zcash/src/lib.rs:83-130 | on a settled chain a session below the threshold is stuck after two blocks, or three if anyone approved, and from the threshold on ends after three blocks with the aggregate of a quorum of approvers' shares |
| `SessionOutcome.SignatureIffQuorum` | sapphire-zcash/src/lib.rs:76-131 | a signature is returned iff at least `threshold` nodes approve; it takes exactly three blocks, verifies under the rerandomized key and is what the chain records for the request, every earlier request stays as it was, and the bound of 8 is never exhausted |
| `SessionOutcome.DefaultNodesSignIff` | sapphire-zcash/src/lib.rs:76-131 | if all nodes have the default policy, a signature is returned iff there are at least `threshold` of them |
| `SessionOutcome.BundleIsSigned` | sapphire-zcash/src/pczt.rs:54-96 | with a quorum of approvers, repeated sessions over fresh ids all succeed, three blocks each, and the chain holds for every action a signature that verifies under its own randomizer |
| `SessionOutcome.BundleIff` | sapphire-zcash/src/pczt.rs:54-96 | a bundle is signed iff there is a quorum of approvers; without one its first session is its last |

## Left out

- sapphire-net: mesh, codec and handshake; delivery is any order with duplicates.
- Envelope cryptography (sapphire-chain/src/dkg_envelope.rs) and FROST arithmetic: function parameters with the stated laws.
- Orchard bundles and byte conversions (sapphire-zcash/src/pczt.rs): only the loop of sessions is modelled.
- `validate_refund` and the hash verifier of sapphire-escrow: refunds are not wired into any policy, and the verifier is a function parameter.
- sapphire-cli, serialization formats, id formatting, error texts and tracing; JSON decoding is a partial function parameter and errors carry constructors instead of text.
- Randomness: draws are numbered, request ids are parameters, and nonces are identified with their draw.
- Nodes.Node.Commit: the mutex around the nonce store is not modelled, since nodes are driven through exclusive references.
- Participants.DkgParticipant.React: envelope and decoding failures are one error, and the underflow in the round-2 barrier for zero participants is reported as an error value.
- Participants.OpenAll: envelopes are visited in any order, so which of several bad ones is reported is not captured.
- InProcessDkg.GenerateWithDkg: zero participants are excluded, where the source aborts; `part2` is assumed to address preallocated inboxes; the error text is not modelled.
- Sessions.DriveSigningSession: an abort inside the first block is reported as a refused request.
- Sim.ChainSim.CommitBlock: an aborting transaction (overflow checks on) is recorded and skipped, and the block height is unbounded.
- The aggregation error of `ApplyError` is declared in the source but never returned, so the model has no constructor for it.
- Key packages: the parts of a public key package that no code compares are one opaque field.
- Several releases of one escrow: the policy keeps no record of past releases, so nothing limits them and nothing is claimed.
