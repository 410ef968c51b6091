/** Which error a refused transaction gets, as a function of the transactions
    accepted so far. */
module Refusals {
  import opened Core
  import opened FrostSuite
  import opened Chain
  import opened Ledgers
  import opened Acceptance
  import opened Runs

  ghost predicate InCeremony(L: Ledger) {
    HasSetup(L) && !HasGroup(L)
  }

  ghost predicate InGroup(L: Ledger) {
    HasSetup(L) && HasGroup(L)
  }

  /** Request `id` has a full quorum of commitments. */
  ghost predicate QuorumFull(L: Ledger, id: Uuid)
    requires InGroup(L)
  {
    Req(id) in L && |CommitmentsOf(L, id)| == Params(L).threshold
  }

  /** Every committer of request `id` has shared. */
  ghost predicate AllShared(L: Ledger, id: Uuid) {
    forall v :: Com(id, v) in L ==> Shr(id, v) in L
  }

  /** The first reason that stands against `tx`, in terms of who has filled which
      slot; `None` if nothing does. */
  ghost function Objection(L: Ledger, tx: Tx): Option<ApplyError>
    requires Keyed(L) && (L != map[] ==> Setup in L)
  {
    match tx
    case InitGroup(_, pkp, members) =>
      if L != map[] then Some(SetupObjection(L))
      else if exists v :: (v in pkp.verifyingShares) != (v in members) then Some(ValidatorSetMismatch) else None
    case DkgBegin(params, validators) =>
      if L != map[] then Some(SetupObjection(L))
      else if |validators| != params.total then Some(BadDkgValidatorCount) else None
    case DkgRound1(f, _) =>
      if !InCeremony(L) then Some(NoCeremony)
      else if f !in Members(L) then Some(UnknownDkgValidator(f))
      else if R1(f) in L then Some(DuplicateRound1(f)) else None
    case DkgRound2(f, t, _) =>
      if !InCeremony(L) then Some(NoCeremony)
      else if !Round1Full(L) then Some(Round1NotComplete)
      else if f == t then Some(SelfAddressedRound2(f))
      else if f !in Members(L) then Some(UnknownDkgValidator(f))
      else if t !in Members(L) then Some(UnknownDkgValidator(t))
      else if R2(f, t) in L then Some(DuplicateRound2(f, t)) else None
    case DkgFinalize(f, pkp) =>
      if !InCeremony(L) then Some(NoCeremony)
      else if !Round2Full(L) then Some(Round2NotComplete)
      else if f !in Members(L) then Some(UnknownDkgValidator(f))
      else if Fin(f) in L then Some(DuplicateFinalize(f))
      else if Contradicted(L, pkp) then Some(PkpMismatch(f)) else None
    case SubmitRequest(id, _, _) =>
      if !InGroup(L) then Some(NotInitialized)
      else if Req(id) in L then Some(DuplicateRequest(id)) else None
    case SubmitCommitment(id, v, _) =>
      if !InGroup(L) then Some(NotInitialized)
      else if v !in Members(L) then Some(UnknownValidator(v))
      else if Req(id) !in L then Some(UnknownRequest(id))
      else if QuorumFull(L, id) then Some(NotAwaitingCommitments)
      else if Com(id, v) in L then Some(DuplicateCommitment) else None
    case SubmitShare(id, v, _) =>
      if !InGroup(L) then Some(NotInitialized)
      else if v !in Members(L) then Some(UnknownValidator(v))
      else if Req(id) !in L then Some(UnknownRequest(id))
      else if !QuorumFull(L, id) || AllShared(L, id) then Some(NotSigning)
      else if Com(id, v) !in L then Some(NotSelectedParticipant)
      else if Shr(id, v) in L then Some(DuplicateShare) else None
  }

  ghost function SetupObjection(L: Ledger): ApplyError
    requires HasSetup(L)
  {
    if HasGroup(L) then AlreadyInitialized else CeremonyAlreadyInProgress
  }

  /** Somebody has finalized another verifying key or other verifying shares. */
  ghost predicate Contradicted(L: Ledger, pkp: PublicKeyPackage)
    requires Keyed(L)
  {
    exists g :: g in FinalizeOf(L) && var other := FinalizeOf(L)[g];
      other.verifyingKey != pkp.verifyingKey || other.verifyingShares != pkp.verifyingShares
  }

  /** The machine refuses `tx` in state `s` for exactly the reason `why`. */
  ghost predicate RefusedFor(frost: Frost, s: State, tx: Tx, why: Option<ApplyError>) {
    if why.Some? then ApplyTx(frost, s, tx) == Rejected(why.value) else !ApplyTx(frost, s, tx).Rejected?
  }

  // ------------------------------------------------------ setup and ceremony

  lemma SetupRefused(frost: Frost, L: Ledger, tx: Tx, s: State)
    requires Admissible(L) && s == View(frost, L) && SlotOf(tx) == Setup
    ensures RefusedFor(frost, s, tx, Objection(L, tx))
  {
  }

  predicate IsCeremonyTx(tx: Tx) {
    tx.DkgRound1? || tx.DkgRound2? || tx.DkgFinalize?
  }

  lemma CeremonyRefused(frost: Frost, L: Ledger, tx: Tx, s: State)
    requires Admissible(L) && s == View(frost, L) && IsCeremonyTx(tx)
    ensures RefusedFor(frost, s, tx, Objection(L, tx))
  {
    if InCeremony(L) {
      Barriers(L);
      match tx
      case DkgRound1(_, _) =>
      case DkgRound2(f, t, sealed) => Round2Refused(frost, L, tx, CeremonyOf(L), s);
      case DkgFinalize(f, pkp) => FinalizeRefused(frost, L, tx, CeremonyOf(L), s);
    }
  }

  /** `c` is the ceremony of `L`, and its counting barriers mean fullness. */
  ghost predicate Depicts(c: DkgCeremony, L: Ledger) {
    && InCeremony(L) && c == CeremonyOf(L) && c.params.total >= 2
    && (c.R1Complete() <==> Round1Full(L)) && (c.R2Complete() <==> Round2Full(L))
  }

  lemma Round2Refused(frost: Frost, L: Ledger, tx: Tx, c: DkgCeremony, s: State)
    requires Depicts(c, L) && s == State(Some(c), None, map[]) && tx.DkgRound2?
    ensures RefusedFor(frost, s, tx, Objection(L, tx))
  {
    assert (tx.from, tx.to) in c.round2 <==> R2(tx.from, tx.to) in L;
    assert c.validators.Keys == Members(L);
  }

  lemma FinalizeRefused(frost: Frost, L: Ledger, tx: Tx, c: DkgCeremony, s: State)
    requires Depicts(c, L) && Admissible(L) && s == State(Some(c), None, map[]) && tx.DkgFinalize?
    ensures RefusedFor(frost, s, tx, Objection(L, tx))
  {
    ContradictedByFirst(L, tx.pkp);
    FinalizeReasons(s, c, tx.from, tx.pkp);
    assert c.validators.Keys == Members(L) && (tx.from in c.finalize <==> Fin(tx.from) in L);
  }

  /** Comparing with the first package is comparing with all of them. */
  lemma ContradictedByFirst(L: Ledger, pkp: PublicKeyPackage)
    requires Admissible(L)
    ensures var fin := FinalizeOf(L); Contradicted(L, pkp) <==> fin != map[] && !SamePkp(fin[Min(fin.Keys)], pkp)
  {
    var fin := FinalizeOf(L);
    if fin != map[] {
      var m := Min(fin.Keys);
      forall g | g in fin ensures SamePkp(fin[g], fin[m]) {
        assert Justified(L, Fin(m)) && Fin(g) in L;
      }
    }
  }

  lemma FinalizeReasons(s: State, c: DkgCeremony, from: Identifier, pkp: PublicKeyPackage)
    requires s == State(Some(c), None, map[]) && c.params.total >= 2
    ensures var r := ApplyFinalize(s, from, pkp);
      if !c.R2Complete() then r == Rejected(Round2NotComplete)
      else if from !in c.validators then r == Rejected(UnknownDkgValidator(from))
      else if from in c.finalize then r == Rejected(DuplicateFinalize(from))
      else if c.finalize != map[] && !SamePkp(c.finalize[Min(c.finalize.Keys)], pkp) then
        r == Rejected(PkpMismatch(from))
      else r.Accepted?
  {
  }

  // ------------------------------------------------------ requests

  lemma RequestRefused(frost: Frost, L: Ledger, tx: Tx, s: State)
    requires Admissible(L) && s == View(frost, L) && (tx.SubmitRequest? || tx.SubmitCommitment? || tx.SubmitShare?)
    ensures RefusedFor(frost, s, tx, Objection(L, tx))
  {
    if InGroup(L) {
      RequestInView(frost, L, s, tx.requestId);
      SharesNeedQuorum(L, tx.requestId);
      match tx
      case SubmitRequest(_, _, _) =>
      case SubmitCommitment(_, _, _) => CommitmentRejected(frost, L, tx, s, GroupOf(L));
      case SubmitShare(_, _, _) => ShareRejected(frost, L, tx, s, GroupOf(L));
    }
  }

  /** Request `id` is as the ledger has it, with shares only from committers. */
  ghost predicate Stands(frost: Frost, s: State, g: GroupConfig, L: Ledger, id: Uuid) {
    && InGroup(L) && Shows(frost, s, g, L, id)
    && SharesOf(L, id).Keys <= CommitmentsOf(L, id).Keys
    && |SharesOf(L, id)| <= |CommitmentsOf(L, id)| <= g.params.threshold
  }

  lemma CommitmentRejected(frost: Frost, L: Ledger, tx: Tx, s: State, g: GroupConfig)
    requires tx.SubmitCommitment? && Stands(frost, s, g, L, tx.requestId)
    ensures RefusedFor(frost, s, tx, Objection(L, tx))
  {
    if Req(tx.requestId) in L {
      assert s.requests[tx.requestId].status == StatusOf(frost, g, L, tx.requestId);
    }
  }

  lemma ShareRejected(frost: Frost, L: Ledger, tx: Tx, s: State, g: GroupConfig)
    requires tx.SubmitShare? && Stands(frost, s, g, L, tx.requestId)
    ensures RefusedFor(frost, s, tx, Objection(L, tx))
  {
    if Req(tx.requestId) in L {
      assert s.requests[tx.requestId].status == StatusOf(frost, g, L, tx.requestId);
      SharedIffCounted(L, tx.requestId);
    }
  }

  lemma SharedIffCounted(L: Ledger, id: Uuid)
    requires Keyed(L) && SharesOf(L, id).Keys <= CommitmentsOf(L, id).Keys
    ensures |SharesOf(L, id)| == |CommitmentsOf(L, id)| <==> AllShared(L, id)
  {
    var cs, ss := CommitmentsOf(L, id), SharesOf(L, id);
    SubsetCardinality(ss.Keys, cs.Keys);
    if AllShared(L, id) {
      assert cs.Keys <= ss.Keys;
    }
  }

  /** On every run, whether a transaction is refused, and with which error, is
      decided by the set of transactions accepted so far: it gets the first
      objection that the set raises, and no error without one. */
  lemma RefusedIff(frost: Frost, txs: seq<Tx>, tx: Tx, e: ApplyError)
    requires SoundRun(frost, txs)
    ensures Admissible(LedgerOf(frost, txs))
    ensures ApplyTx(frost, Deliver(frost, GENESIS, txs), tx) == Rejected(e) <==>
      Objection(LedgerOf(frost, txs), tx) == Some(e)
  {
    RunIsView(frost, txs);
    var L, s := LedgerOf(frost, txs), Deliver(frost, GENESIS, txs);
    Refused(frost, L, tx, s);
  }

  lemma Refused(frost: Frost, L: Ledger, tx: Tx, s: State)
    requires Admissible(L) && s == View(frost, L)
    ensures RefusedFor(frost, s, tx, Objection(L, tx))
  {
    if SlotOf(tx) == Setup {
      SetupRefused(frost, L, tx, s);
    } else if IsCeremonyTx(tx) {
      CeremonyRefused(frost, L, tx, s);
    } else {
      RequestRefused(frost, L, tx, s);
    }
  }
}
