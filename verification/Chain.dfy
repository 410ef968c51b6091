/** FROST values and primitives. The library is foreign code: its operations are
    the fields of a `Frost` record that every model function takes as a
    parameter, and what is assumed of them is a predicate over that record. */
module FrostSuite {
  import opened Core

  datatype Randomizer = Randomizer(scalar: nat)
  datatype Commitments = Commitments(point: nat)
  datatype Share = Share(scalar: nat)
  datatype Signature = Signature(bytes: nat)
  datatype VerifyingKey = VerifyingKey(point: nat)

  /** `metadata` stands for the parts of the package that no code here compares. */
  datatype PublicKeyPackage = PublicKeyPackage(
    verifyingKey: VerifyingKey,
    verifyingShares: map<Identifier, nat>,
    metadata: nat)

  /** Single-use nonces are identified by the random draw that produced them. */
  datatype Nonces = Nonces(draw: nat)
  datatype KeyPackage = KeyPackage(identifier: Identifier, minSigners: nat, secret: nat)
  datatype SigningPackage = SigningPackage(commitments: map<Identifier, Commitments>, message: Message)

  datatype Round1Secret = Round1Secret(secret: nat, minSigners: nat)
  datatype Round1Package = Round1Package(body: nat)
  datatype Round2Secret = Round2Secret(secret: nat, minSigners: nat)
  datatype Round2Package = Round2Package(body: nat)
  datatype EncSecretKey = EncSecretKey(scalar: nat)
  datatype EncPublicKey = EncPublicKey(point: nat)
  type Bytes = seq<nat>
  datatype Sealed = Sealed(bytes: Bytes)

  datatype Frost = Frost(
    commit: (KeyPackage, Nonces) -> Commitments,
    sign: (SigningPackage, Nonces, KeyPackage, Randomizer) -> Result<Share, string>,
    aggregate: (SigningPackage, map<Identifier, Share>, PublicKeyPackage, Randomizer)
      -> Result<Signature, string>,
    verifies: (VerifyingKey, Randomizer, Message, Signature) -> bool,
    part1: (Identifier, MpcParams, nat) -> Result<(Round1Secret, Round1Package), string>,
    part2: (Round1Secret, map<Identifier, Round1Package>)
      -> Result<(Round2Secret, map<Identifier, Round2Package>), string>,
    part3: (Round2Secret, map<Identifier, Round1Package>, map<Identifier, Round2Package>)
      -> Result<(KeyPackage, PublicKeyPackage), string>,
    encode: Round2Package -> Bytes,
    decode: Bytes -> Option<Round2Package>,
    publicKey: EncSecretKey -> EncPublicKey,
    seal: (nat, EncPublicKey, Bytes) -> Sealed,
    open: (EncSecretKey, Sealed) -> Option<Bytes>)

  /** A signature that `aggregate` returns verifies under the rerandomized key. */
  ghost predicate AggregateSound(frost: Frost) {
    forall pkg, shares, pkp, r ::
      var sig := frost.aggregate(pkg, shares, pkp, r);
      sig.Ok? ==> frost.verifies(pkp.verifyingKey, r, pkg.message, sig.value)
  }
}

/** The coordination chain: transactions, state and the transition function. */
module Chain {
  import opened Core
  import opened FrostSuite

  datatype Tx =
    | InitGroup(params: MpcParams, pkp: PublicKeyPackage, members: seq<Identifier>)
    | DkgBegin(params: MpcParams, validators: map<Identifier, EncPublicKey>)
    | DkgRound1(from: Identifier, package: Round1Package)
    | DkgRound2(from: Identifier, to: Identifier, sealed: Sealed)
    | DkgFinalize(from: Identifier, pkp: PublicKeyPackage)
    | SubmitRequest(requestId: Uuid, message: Message, randomizer: Randomizer)
    | SubmitCommitment(requestId: Uuid, validator: Identifier, commitments: Commitments)
    | SubmitShare(requestId: Uuid, validator: Identifier, share: Share)

  datatype RequestStatus =
    | AwaitingCommitments(commitments: map<Identifier, Commitments>)
    | Signing(signingPackage: SigningPackage, participants: set<Identifier>, shares: map<Identifier, Share>)
    | Completed(participants: set<Identifier>, signature: Signature)
    | Failed(reason: string)

  datatype RequestEntry = RequestEntry(
    requestId: Uuid, message: Message, randomizer: Randomizer, status: RequestStatus)

  datatype DkgCeremony = DkgCeremony(
    params: MpcParams,
    validators: map<Identifier, EncPublicKey>,
    round1: map<Identifier, Round1Package>,
    round2: map<(Identifier, Identifier), Sealed>,
    finalize: map<Identifier, PublicKeyPackage>)
  {
    predicate R1Complete() {
      |round1| == params.total
    }

    // `total - 1` is unsigned in the source: zero is the underflowing case.
    predicate R2Complete()
      requires params.total != 0
    {
      |round2| == params.total * (params.total - 1)
    }

    predicate FinalizeComplete() {
      |finalize| == params.total
    }
  }

  datatype GroupConfig = GroupConfig(
    params: MpcParams, pkp: PublicKeyPackage, validators: set<Identifier>)

  datatype State = State(
    ceremony: Option<DkgCeremony>,
    group: Option<GroupConfig>,
    requests: map<Uuid, RequestEntry>)

  const GENESIS := State(None, None, map[])

  datatype ApplyError =
    | AlreadyInitialized
    | NotInitialized
    | ValidatorSetMismatch
    | CeremonyAlreadyInProgress
    | NoCeremony
    | BadDkgValidatorCount
    | Round1NotComplete
    | Round2NotComplete
    | DuplicateRound1(from: Identifier)
    | DuplicateRound2(from: Identifier, to: Identifier)
    | DuplicateFinalize(from: Identifier)
    | SelfAddressedRound2(from: Identifier)
    | UnknownDkgValidator(from: Identifier)
    | PkpMismatch(from: Identifier)
    | DuplicateRequest(requestId: Uuid)
    | UnknownRequest(requestId: Uuid)
    | UnknownValidator(from: Identifier)
    | DuplicateCommitment
    | DuplicateShare
    | NotAwaitingCommitments
    | NotSigning
    | NotSelectedParticipant

  /** `Panicked` is an arithmetic underflow under overflow checks, the only abort
      `apply_tx` can reach. */
  datatype Outcome = Accepted(state: State) | Rejected(error: ApplyError) | Panicked

  /** The comparison the finalize branch makes between two packages. */
  predicate SamePkp(a: PublicKeyPackage, b: PublicKeyPackage) {
    a.verifyingKey == b.verifyingKey && a.verifyingShares == b.verifyingShares
  }

  function ToSet(s: seq<Identifier>): set<Identifier> {
    set x | x in s
  }

  function ApplyTx(frost: Frost, s: State, tx: Tx): Outcome {
    match tx
    case InitGroup(params, pkp, members) => ApplyInitGroup(s, params, pkp, members)
    case DkgBegin(params, validators) => ApplyDkgBegin(s, params, validators)
    case DkgRound1(from, package) => ApplyRound1(s, from, package)
    case DkgRound2(from, to, sealed) => ApplyRound2(s, from, to, sealed)
    case DkgFinalize(from, pkp) => ApplyFinalize(s, from, pkp)
    case SubmitRequest(id, message, randomizer) => ApplyRequest(s, id, message, randomizer)
    case SubmitCommitment(id, v, commitments) => ApplyCommitment(s, id, v, commitments)
    case SubmitShare(id, v, share) => ApplyShare(frost, s, id, v, share)
  }

  function ApplyInitGroup(s: State, params: MpcParams, pkp: PublicKeyPackage, members: seq<Identifier>): Outcome {
    if s.group.Some? then Rejected(AlreadyInitialized)
    else if s.ceremony.Some? then Rejected(CeremonyAlreadyInProgress)
    else if pkp.verifyingShares.Keys != ToSet(members) then Rejected(ValidatorSetMismatch)
    else Accepted(s.(group := Some(GroupConfig(params, pkp, ToSet(members)))))
  }

  function ApplyDkgBegin(s: State, params: MpcParams, validators: map<Identifier, EncPublicKey>): Outcome {
    if s.group.Some? then Rejected(AlreadyInitialized)
    else if s.ceremony.Some? then Rejected(CeremonyAlreadyInProgress)
    else if |validators| != params.total then Rejected(BadDkgValidatorCount)
    else Accepted(s.(ceremony := Some(DkgCeremony(params, validators, map[], map[], map[]))))
  }

  function ApplyRound1(s: State, from: Identifier, package: Round1Package): Outcome {
    if s.ceremony.None? then Rejected(NoCeremony) else
    var c := s.ceremony.value;
    if from !in c.validators then Rejected(UnknownDkgValidator(from))
    else if from in c.round1 then Rejected(DuplicateRound1(from))
    else Accepted(s.(ceremony := Some(c.(round1 := c.round1[from := package]))))
  }

  function ApplyRound2(s: State, from: Identifier, to: Identifier, sealed: Sealed): Outcome {
    if s.ceremony.None? then Rejected(NoCeremony) else
    var c := s.ceremony.value;
    if !c.R1Complete() then Rejected(Round1NotComplete)
    else if from == to then Rejected(SelfAddressedRound2(from))
    else if from !in c.validators then Rejected(UnknownDkgValidator(from))
    else if to !in c.validators then Rejected(UnknownDkgValidator(to))
    else if (from, to) in c.round2 then Rejected(DuplicateRound2(from, to))
    else Accepted(s.(ceremony := Some(c.(round2 := c.round2[(from, to) := sealed]))))
  }

  function ApplyFinalize(s: State, from: Identifier, pkp: PublicKeyPackage): Outcome {
    if s.ceremony.None? then Rejected(NoCeremony) else
    var c := s.ceremony.value;
    if c.params.total == 0 then Panicked else PastBarrier(s, c, c.R2Complete(), from, pkp)
  }

  /** The finalize branch from the round-2 barrier on. */
  function PastBarrier(s: State, c: DkgCeremony, r2Complete: bool, from: Identifier, pkp: PublicKeyPackage): Outcome {
    if !r2Complete then Rejected(Round2NotComplete)
    else if from !in c.validators then Rejected(UnknownDkgValidator(from))
    else if from in c.finalize then Rejected(DuplicateFinalize(from))
    else if c.finalize != map[] && !SamePkp(c.finalize[Min(c.finalize.Keys)], pkp) then
      Rejected(PkpMismatch(from))
    else
      var c' := c.(finalize := c.finalize[from := pkp]);
      if c'.FinalizeComplete() then
        var agreed := c'.finalize[Min(c'.finalize.Keys)];
        Accepted(s.(ceremony := None, group := Some(GroupConfig(c.params, agreed, c.validators.Keys))))
      else
        Accepted(s.(ceremony := Some(c')))
  }

  function ApplyRequest(s: State, id: Uuid, message: Message, randomizer: Randomizer): Outcome {
    if s.group.None? then Rejected(NotInitialized)
    else if id in s.requests then Rejected(DuplicateRequest(id))
    else Accepted(s.(requests :=
      s.requests[id := RequestEntry(id, message, randomizer, AwaitingCommitments(map[]))]))
  }

  /** Status after inserting a commitment: at the threshold, the first
      `threshold` commitments in identifier order become the signing package. */
  function AfterCommitment(params: MpcParams, message: Message, cs: map<Identifier, Commitments>): RequestStatus {
    if |cs| % 0x1_0000 >= params.threshold then  // `map.len() as u16`
      var chosen := TakeSmallest(cs, params.threshold);
      Signing(SigningPackage(chosen, message), chosen.Keys, map[])
    else
      AwaitingCommitments(cs)
  }

  function ApplyCommitment(s: State, id: Uuid, v: Identifier, commitments: Commitments): Outcome {
    if s.group.None? then Rejected(NotInitialized)
    else if v !in s.group.value.validators then Rejected(UnknownValidator(v))
    else if id !in s.requests then Rejected(UnknownRequest(id)) else
    var entry := s.requests[id];
    if !entry.status.AwaitingCommitments? then Rejected(NotAwaitingCommitments)
    else if v in entry.status.commitments then Rejected(DuplicateCommitment)
    else
      var status := AfterCommitment(s.group.value.params, entry.message, entry.status.commitments[v := commitments]);
      Accepted(s.(requests := s.requests[id := entry.(status := status)]))
  }

  /** Status after inserting a share: the last one triggers aggregation. */
  function AfterShare(frost: Frost, pkp: PublicKeyPackage, randomizer: Randomizer,
                      pkg: SigningPackage, participants: set<Identifier>,
                      shares: map<Identifier, Share>): RequestStatus {
    if |shares| == |participants| then
      match frost.aggregate(pkg, shares, pkp, randomizer)
      case Ok(signature) => Completed(participants, signature)
      case Err(reason) => Failed(reason)
    else
      Signing(pkg, participants, shares)
  }

  function ApplyShare(frost: Frost, s: State, id: Uuid, v: Identifier, share: Share): Outcome {
    if s.group.None? then Rejected(NotInitialized)
    else if v !in s.group.value.validators then Rejected(UnknownValidator(v))
    else if id !in s.requests then Rejected(UnknownRequest(id)) else
    var entry := s.requests[id];
    if !entry.status.Signing? then Rejected(NotSigning)
    else if v !in entry.status.participants then Rejected(NotSelectedParticipant)
    else if v in entry.status.shares then Rejected(DuplicateShare)
    else
      var status := AfterShare(frost, s.group.value.pkp, entry.randomizer, entry.status.signingPackage,
                               entry.status.participants, entry.status.shares[v := share]);
      Accepted(s.(requests := s.requests[id := entry.(status := status)]))
  }
}
