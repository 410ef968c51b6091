/** When delivery order matters and when it does not. */
module Convergence {
  import opened Core
  import opened FrostSuite
  import opened Chain
  import opened Ledgers
  import opened Acceptance
  import opened Runs
  import opened Ranks

  // ------------------------------------------------------ two transactions

  /** Two transactions that are both acceptable now get in each other's way. */
  predicate Conflict(s: State, a: Tx, b: Tx) {
    || SlotOf(a) == SlotOf(b)
    || (a.DkgFinalize? && b.DkgFinalize?
        && (a.pkp.verifyingKey != b.pkp.verifyingKey || a.pkp.verifyingShares != b.pkp.verifyingShares))
    || (a.SubmitCommitment? && b.SubmitCommitment? && a.requestId == b.requestId && LastSeat(s, a.requestId))
  }

  /** One more commitment fills the request's quorum. */
  predicate LastSeat(s: State, id: Uuid) {
    && s.group.Some? && id in s.requests && s.requests[id].status.AwaitingCommitments?
    && |s.requests[id].status.commitments| + 1 >= s.group.value.params.threshold
  }

  ghost predicate Commute(frost: Frost, s: State, a: Tx, b: Tx)
    requires ApplyTx(frost, s, a).Accepted? && ApplyTx(frost, s, b).Accepted?
  {
    var ab := ApplyTx(frost, ApplyTx(frost, s, a).state, b);
    var ba := ApplyTx(frost, ApplyTx(frost, s, b).state, a);
    ab.Accepted? && ba.Accepted? && ab == ba
  }

  /** On every reachable state, two acceptable transactions commute if and only
      if they do not conflict. */
  lemma CommuteIff(frost: Frost, txs: seq<Tx>, a: Tx, b: Tx)
    requires SoundRun(frost, txs)
    requires ApplyTx(frost, Deliver(frost, GENESIS, txs), a).Accepted?
    requires ApplyTx(frost, Deliver(frost, GENESIS, txs), b).Accepted?
    ensures Commute(frost, Deliver(frost, GENESIS, txs), a, b) <==>
      !Conflict(Deliver(frost, GENESIS, txs), a, b)
  {
    RunIsView(frost, txs);
    if LedgerOf(frost, txs) == map[] {
      RivalSetups(frost, a, b);
    } else {
      CommuteAtLedger(frost, LedgerOf(frost, txs), Deliver(frost, GENESIS, txs), a, b);
    }
  }

  /** At genesis only setup transactions are acceptable, and the first one wins. */
  lemma RivalSetups(frost: Frost, a: Tx, b: Tx)
    requires ApplyTx(frost, GENESIS, a).Accepted? && ApplyTx(frost, GENESIS, b).Accepted?
    ensures SlotOf(a) == SlotOf(b) == Setup
    ensures !Commute(frost, GENESIS, a, b)
  {
  }

  lemma CommuteAtLedger(frost: Frost, L: Ledger, s: State, a: Tx, b: Tx)
    requires Admissible(L) && L != map[] && s == View(frost, L)
    requires ApplyTx(frost, s, a).Accepted? && ApplyTx(frost, s, b).Accepted?
    ensures Commute(frost, s, a, b) <==> !Conflict(s, a, b)
  {
    var ab, Lab := InOrder(frost, L, s, a, b);
    var ba, Lba := InOrder(frost, L, s, b, a);
    if !Conflict(s, a, b) {
      SwappedUpdates(L, a, b);
    }
    CommuteStates(frost, s, a, b, ab, ba);
  }

  lemma SwappedUpdates(L: Ledger, a: Tx, b: Tx)
    requires SlotOf(a) != SlotOf(b)
    ensures L[SlotOf(a) := a][SlotOf(b) := b] == L[SlotOf(b) := b][SlotOf(a) := a]
  {
  }

  lemma CommuteStates(frost: Frost, s: State, a: Tx, b: Tx, ab: Outcome, ba: Outcome)
    requires ApplyTx(frost, s, a).Accepted? && ApplyTx(frost, s, b).Accepted?
    requires ab == ApplyTx(frost, ApplyTx(frost, s, a).state, b)
    requires ba == ApplyTx(frost, ApplyTx(frost, s, b).state, a)
    requires ab.Accepted? && ba.Accepted? ==> ab.state == ba.state
    ensures Commute(frost, s, a, b) <==> ab.Accepted? && ba.Accepted?
  {
  }

  lemma InOrder(frost: Frost, L: Ledger, s: State, a: Tx, b: Tx) returns (r: Outcome, end: Ledger)
    requires Admissible(L) && L != map[] && s == View(frost, L)
    requires ApplyTx(frost, s, a).Accepted? && ApplyTx(frost, s, b).Accepted?
    ensures r == ApplyTx(frost, ApplyTx(frost, s, a).state, b)
    ensures end == L[SlotOf(a) := a][SlotOf(b) := b]
    ensures r.Accepted? <==> !Conflict(s, a, b)
    ensures r.Accepted? ==> Admissible(end) && r.state == View(frost, end)
  {
    AcceptIff(frost, L, a);
    AcceptIff(frost, L, b);
    end := L[SlotOf(a) := a][SlotOf(b) := b];
    r := AppliedTo(frost, L[SlotOf(a) := a], b);
    ExtendsUnlessConflict(frost, L, a, b);
  }

  lemma AppliedTo(frost: Frost, L: Ledger, tx: Tx) returns (r: Outcome)
    requires Admissible(L) && L != map[]
    ensures r == ApplyTx(frost, View(frost, L), tx)
    ensures r.Accepted? <==> Extends(L, tx)
    ensures r.Accepted? ==> r.state == View(frost, L[SlotOf(tx) := tx])
  {
    AcceptIff(frost, L, tx);
    r := ApplyTx(frost, View(frost, L), tx);
  }

  lemma ExtendsUnlessConflict(frost: Frost, L: Ledger, a: Tx, b: Tx)
    requires Admissible(L) && Extends(L, a) && Extends(L, b)
    ensures Extends(L[SlotOf(a) := a], b) <==> !Conflict(View(frost, L), a, b)
  {
    if SlotOf(a) != SlotOf(b) {
      if L == map[] {
        FirstIsSetup(a);
        FirstIsSetup(b);
      }
      PairAdmissible(frost, L, a, b);
    }
  }

  lemma FirstIsSetup(tx: Tx)
    requires Extends(map[], tx)
    ensures SlotOf(tx) == Setup
  {
    assert SlotOf(tx) in map[SlotOf(tx) := tx];
  }

  lemma PairAdmissible(frost: Frost, L: Ledger, a: Tx, b: Tx)
    requires Admissible(L) && Extends(L, a) && Extends(L, b) && SlotOf(a) != SlotOf(b)
    requires L != map[]
    ensures Extends(L[SlotOf(a) := a], b) <==> !Conflict(View(frost, L), a, b)
  {
    var La, Lb := L[SlotOf(a) := a], L[SlotOf(b) := b];
    var Lab := La[SlotOf(b) := b];
    ExtendsIff(La, b);
    assert Justified(Lb, SlotOf(b));
    assert Justified(La, SlotOf(a));
    match b
    case SubmitCommitment(_, _, _) => CommitmentPair(frost, L, a, b);
    case SubmitShare(_, _, _) => SharePair(L, a, b);
    case DkgFinalize(_, _) => FinalizePair(frost, L, a, b);
    case DkgRound2(_, _, _) => assert Round1Full(Lab);
    case SubmitRequest(_, _, _) => assert HasGroup(Lab);
    case DkgRound1(_, _) =>
  }

  lemma CommitmentPair(frost: Frost, L: Ledger, a: Tx, b: Tx)
    requires Admissible(L) && L != map[] && Extends(L, a) && Extends(L, b) && SlotOf(a) != SlotOf(b)
    requires b.SubmitCommitment?
    ensures Keyed(L[SlotOf(a) := a][SlotOf(b) := b])
    ensures Justified(L[SlotOf(a) := a][SlotOf(b) := b], SlotOf(b)) <==> !Conflict(View(frost, L), a, b)
  {
    SeatsTaken(L, a, b);
    SeatsShown(frost, L, b, View(frost, L));
  }

  /** After both, the second commitment stands iff a seat was left for it. */
  lemma SeatsTaken(L: Ledger, a: Tx, b: Tx)
    requires Admissible(L) && L != map[] && Extends(L, a) && Extends(L, b) && SlotOf(a) != SlotOf(b)
    requires b.SubmitCommitment?
    ensures Keyed(L[SlotOf(a) := a][SlotOf(b) := b])
    ensures Justified(L[SlotOf(a) := a][SlotOf(b) := b], SlotOf(b)) <==>
      |CommitmentsOf(L, b.requestId)| + (if a.SubmitCommitment? && a.requestId == b.requestId then 2 else 1)
      <= Params(L).threshold
  {
    var La, id := L[SlotOf(a) := a], b.requestId;
    NewCommitter(L, b);
    KnownRequest(L, b);
    SetupKept(L, a);
    CommitmentsProjection(L, a, id);
    assert Com(id, b.validator) !in La;
    SeatFor(La, b);
  }

  lemma SeatFor(L: Ledger, b: Tx)
    requires HasSetup(L) && b.SubmitCommitment? && SlotOf(b) !in L
    requires Req(b.requestId) in L && b.validator in Members(L)
    ensures Keyed(L[SlotOf(b) := b])
    ensures Justified(L[SlotOf(b) := b], SlotOf(b)) <==> |CommitmentsOf(L, b.requestId)| + 1 <= Params(L).threshold
  {
    SetupKept(L, b);
    CommitmentsProjection(L, b, b.requestId);
  }

  lemma KnownRequest(L: Ledger, b: Tx)
    requires Admissible(L) && L != map[] && Extends(L, b) && b.SubmitCommitment?
    ensures Req(b.requestId) in L && Com(b.requestId, b.validator) !in L
  {
    assert Justified(L[SlotOf(b) := b], SlotOf(b));
  }

  lemma SeatsShown(frost: Frost, L: Ledger, b: Tx, s: State)
    requires Admissible(L) && L != map[] && Extends(L, b) && b.SubmitCommitment? && s == View(frost, L)
    ensures LastSeat(s, b.requestId) <==> |CommitmentsOf(L, b.requestId)| + 1 >= Params(L).threshold
    ensures |CommitmentsOf(L, b.requestId)| + 1 <= Params(L).threshold
  {
    var id := b.requestId;
    assert Justified(L[SlotOf(b) := b], SlotOf(b));
    assert Justified(L, Req(id));
    SetupKept(L, b);
    CommitmentsProjection(L, b, id);
    RequestInView(frost, L, s, id);
    CommitmentStatus(frost, GroupOf(L), L, b);
  }

  lemma SharePair(L: Ledger, a: Tx, b: Tx)
    requires Admissible(L) && L != map[] && Extends(L, a) && Extends(L, b) && SlotOf(a) != SlotOf(b)
    requires b.SubmitShare?
    ensures Keyed(L[SlotOf(a) := a][SlotOf(b) := b])
    ensures Justified(L[SlotOf(a) := a][SlotOf(b) := b], SlotOf(b))
  {
    var La, id := L[SlotOf(a) := a], b.requestId;
    QuorumBehindShare(L, b);
    SetupKept(L, a);
    SetupKept(La, b);
    CommitmentsProjection(L, a, id);
    CommitmentsProjection(La, b, id);
    SharesNeedQuorum(La, id);
    assert Com(id, b.validator) in La;
    assert |CommitmentsOf(La, id)| == Params(L).threshold;
  }

  lemma QuorumBehindShare(L: Ledger, b: Tx)
    requires Admissible(L) && L != map[] && Extends(L, b) && b.SubmitShare?
    ensures Com(b.requestId, b.validator) in L
    ensures |CommitmentsOf(L, b.requestId)| == Params(L).threshold
  {
    assert Justified(L[SlotOf(b) := b], SlotOf(b));
    SetupKept(L, b);
    CommitmentsProjection(L, b, b.requestId);
  }

  lemma FinalizePair(frost: Frost, L: Ledger, a: Tx, b: Tx)
    requires Admissible(L) && L != map[] && Extends(L, a) && Extends(L, b) && SlotOf(a) != SlotOf(b)
    requires b.DkgFinalize?
    ensures Keyed(L[SlotOf(a) := a][SlotOf(b) := b])
    ensures Justified(L[SlotOf(a) := a][SlotOf(b) := b], SlotOf(b)) <==> !Conflict(View(frost, L), a, b)
  {
    var Lab := L[SlotOf(a) := a][SlotOf(b) := b];
    var Lb := L[SlotOf(b) := b];
    assert Justified(Lb, SlotOf(b));
    assert Round2Full(Lab);
    forall g | Fin(g) in Lab && g != b.from ensures Fin(g) in Lb || (a.DkgFinalize? && g == a.from) {}
    if a.DkgFinalize? {
      assert Fin(a.from) in Lab && Lab[Fin(a.from)] == a;
    }
  }

  // ------------------------------------------------------ whole deliveries

  /** One transaction per slot, agreeing key packages, and no request with more
      validator commitments than seats. */
  ghost predicate ConflictFree(T: Ledger) {
    && Keyed(T)
    && (forall k {:trigger T[k]} :: k in T ==> SoundSetup(T[k]))
    && (forall f, g :: Fin(f) in T && Fin(g) in T ==> SamePkp(FinalizeOf(T)[f], FinalizeOf(T)[g]))
    && (Setup in T ==> forall id :: |CommitmentsOf(T, id).Keys * Members(T)| <= Params(T).threshold)
  }

  ghost predicate DrawnFrom(txs: seq<Tx>, T: Ledger) {
    forall i :: 0 <= i < |txs| ==> SlotOf(txs[i]) in T && T[SlotOf(txs[i])] == txs[i]
  }

  /** Nothing in `T` is acceptable any more. */
  ghost predicate Quiescent(frost: Frost, s: State, T: Ledger) {
    forall k {:trigger ApplyTx(frost, s, T[k])} :: k in T ==> !ApplyTx(frost, s, T[k]).Accepted?
  }

  lemma DrawnIsSound(frost: Frost, txs: seq<Tx>, T: Ledger)
    requires ConflictFree(T) && DrawnFrom(txs, T)
    ensures SoundRun(frost, txs)
  {
    SoundAsDelivered(frost, txs);
  }

  lemma {:induction false} DrawnLedger(frost: Frost, txs: seq<Tx>, T: Ledger)
    requires ConflictFree(T) && DrawnFrom(txs, T)
    ensures SubLedger(LedgerOf(frost, txs), T)
  {
    if txs == [] {
    } else {
      DrawnLedger(frost, txs[..|txs| - 1], T);
    }
  }

  /** A transaction enabled on a smaller ledger stays enabled on a larger one
      until its slot is filled. */
  lemma EnabledStaysEnabled(T: Ledger, P: Ledger, A: Ledger, tx: Tx)
    requires ConflictFree(T) && Admissible(P) && Admissible(A)
    requires SubLedger(P, A) && SubLedger(A, T)
    requires SlotOf(tx) in T && T[SlotOf(tx)] == tx
    requires Extends(P, tx) && SlotOf(tx) !in A
    ensures Extends(A, tx)
  {
    var k := SlotOf(tx);
    var P', A' := P[k := tx], A[k := tx];
    assert k in P';
    if P == map[] {
      assert k == Setup;
      assert A == map[];
      assert P == A;
    } else {
      assert Setup in P && Setup in A && P[Setup] == A[Setup] && A[Setup] == T[Setup];
      ExtendsIff(A, tx);
      assert Justified(P', k);
      match tx
      case SubmitCommitment(id, v, _) => SeatLeft(T, A, tx);
      case SubmitShare(id, v, _) => QuorumStays(T, P, A, tx);
      case DkgFinalize(_, _) =>
        assert Round2Full(A') by { assert Round2Full(P'); }
        FinalizeStays(T, A, tx, A');
      case DkgRound2(_, _, _) => assert Round1Full(A') by { assert Round1Full(P'); }
      case SubmitRequest(_, _, _) => assert HasGroup(A') by { assert HasGroup(P'); }
      case DkgRound1(_, _) =>
    }
  }

  lemma FinalizeStays(T: Ledger, A: Ledger, tx: Tx, A': Ledger)
    requires ConflictFree(T) && HasSetup(A) && SubLedger(A, T) && tx.DkgFinalize?
    requires SlotOf(tx) in T && T[SlotOf(tx)] == tx && A' == A[SlotOf(tx) := tx]
    ensures forall g :: Fin(g) in A' ==> SlotOf(A'[Fin(g)]) == Fin(g) && SamePkp(A'[Fin(g)].pkp, tx.pkp)
  {
    forall g | Fin(g) in A' ensures SlotOf(A'[Fin(g)]) == Fin(g) && SamePkp(A'[Fin(g)].pkp, tx.pkp) {
      assert Fin(g) in T && Fin(tx.from) in T;
    }
  }

  lemma SeatLeft(T: Ledger, A: Ledger, tx: Tx)
    requires ConflictFree(T) && Admissible(A) && A != map[] && SubLedger(A, T)
    requires tx.SubmitCommitment? && SlotOf(tx) in T && T[SlotOf(tx)] == tx && SlotOf(tx) !in A
    requires tx.validator in Members(A)
    ensures Keyed(A[SlotOf(tx) := tx])
    ensures |CommitmentsOf(A[SlotOf(tx) := tx], tx.requestId)| <= Params(A).threshold
  {
    var id := tx.requestId;
    CommitmentsProjection(A, tx, id);
    CommittersAreMembers(A, id);
    var seated := CommitmentsOf(A[SlotOf(tx) := tx], id).Keys;
    assert Setup in T;
    assert seated <= CommitmentsOf(T, id).Keys * Members(T);
    SubsetCardinality(seated, CommitmentsOf(T, id).Keys * Members(T));
  }

  lemma QuorumStays(T: Ledger, P: Ledger, A: Ledger, tx: Tx)
    requires ConflictFree(T) && Admissible(P) && Admissible(A) && P != map[]
    requires SubLedger(P, A) && SubLedger(A, T)
    requires tx.SubmitShare? && Extends(P, tx) && SlotOf(tx) !in A
    ensures Keyed(A[SlotOf(tx) := tx])
    ensures |CommitmentsOf(A[SlotOf(tx) := tx], tx.requestId)| == Params(A).threshold
  {
    QuorumBehindShare(P, tx);
    CommitmentsProjection(A, tx, tx.requestId);
    QuorumGrows(P, A, tx.requestId);
  }

  lemma QuorumGrows(P: Ledger, A: Ledger, id: Uuid)
    requires Admissible(P) && Admissible(A) && P != map[] && SubLedger(P, A)
    requires |CommitmentsOf(P, id)| == Params(P).threshold
    ensures Setup in A && |CommitmentsOf(A, id)| == Params(A).threshold
  {
    assert Setup in A && P[Setup] == A[Setup];
    SharesNeedQuorum(A, id);
    assert CommitmentsOf(P, id).Keys <= CommitmentsOf(A, id).Keys;
    SubsetCardinality(CommitmentsOf(P, id).Keys, CommitmentsOf(A, id).Keys);
  }

  /** A quiescent delivery has accepted everything any delivery can accept. */
  lemma {:induction false} QuiescentIsMaximal(frost: Frost, T: Ledger, xs: seq<Tx>, ys: seq<Tx>)
    requires ConflictFree(T) && DrawnFrom(xs, T) && DrawnFrom(ys, T)
    requires Quiescent(frost, Deliver(frost, GENESIS, ys), T)
    ensures SubLedger(LedgerOf(frost, xs), LedgerOf(frost, ys))
  {
    if xs == [] {
    } else {
      var prefix, tx := xs[..|xs| - 1], xs[|xs| - 1];
      QuiescentIsMaximal(frost, T, prefix, ys);
      DrawnIsSound(frost, xs, T);
      DrawnIsSound(frost, ys, T);
      NextDelivery(frost, xs);
      DrawnLedger(frost, ys, T);
      var P, A := LedgerOf(frost, prefix), LedgerOf(frost, ys);
      AcceptedIffExtends(frost, ys, tx);
      if Extends(P, tx) && SlotOf(tx) !in A {
        EnabledStaysEnabled(T, P, A, tx);
      }
    }
  }

  /** Convergence: two replicas that keep re-delivering the same conflict-free
      transactions, each in its own order, until nothing more is accepted, end
      in the same state. */
  lemma Converge(frost: Frost, T: Ledger, xs: seq<Tx>, ys: seq<Tx>)
    requires ConflictFree(T) && DrawnFrom(xs, T) && DrawnFrom(ys, T)
    requires Quiescent(frost, Deliver(frost, GENESIS, xs), T)
    requires Quiescent(frost, Deliver(frost, GENESIS, ys), T)
    ensures Deliver(frost, GENESIS, xs) == Deliver(frost, GENESIS, ys)
  {
    QuiescentIsMaximal(frost, T, xs, ys);
    QuiescentIsMaximal(frost, T, ys, xs);
    DrawnIsSound(frost, xs, T);
    DrawnIsSound(frost, ys, T);
    assert LedgerOf(frost, xs) == LedgerOf(frost, ys);
    RunIsView(frost, xs);
    RunIsView(frost, ys);
  }

  // ------------------------------------------------------ why the conditions

  /** With one seat left, two commitments do not commute: whichever arrives
      first becomes a participant. */
  lemma CommitmentRace(frost: Frost, key: PublicKeyPackage, m: Message, r: Randomizer, c: Commitments)
    requires key.verifyingShares.Keys == {1, 2}
    ensures var setup := [InitGroup(MpcParams(1, 2), key, [1, 2]), SubmitRequest(7, m, r)];
      var one, two := SubmitCommitment(7, 1, c), SubmitCommitment(7, 2, c);
      && SoundRun(frost, setup + [one, two]) && SoundRun(frost, setup + [two, one])
      && ApplyTx(frost, Deliver(frost, GENESIS, setup), one).Accepted?
      && ApplyTx(frost, Deliver(frost, GENESIS, setup), two).Accepted?
      && Conflict(Deliver(frost, GENESIS, setup), one, two)
      && Deliver(frost, GENESIS, setup + [one, two]) != Deliver(frost, GENESIS, setup + [two, one])
  {
    var init, req := InitGroup(MpcParams(1, 2), key, [1, 2]), SubmitRequest(7, m, r);
    var one, two := SubmitCommitment(7, 1, c), SubmitCommitment(7, 2, c);
    var setup := [init, req];
    OpenRequest(frost, key, m, r);
    var s := Deliver(frost, GENESIS, setup);
    FirstCommitment(frost, s, 7, 1, c);
    FirstCommitment(frost, s, 7, 2, c);
    DeliverTwo(frost, s, one, two);
    DeliverTwo(frost, s, two, one);
    DeliverAppend(frost, GENESIS, setup, [one, two]);
    DeliverAppend(frost, GENESIS, setup, [two, one]);
    SoundAsDelivered(frost, setup + [one, two]);
    SoundAsDelivered(frost, setup + [two, one]);
  }

  lemma OpenRequest(frost: Frost, key: PublicKeyPackage, m: Message, r: Randomizer)
    requires key.verifyingShares.Keys == {1, 2}
    ensures var s := Deliver(frost, GENESIS, [InitGroup(MpcParams(1, 2), key, [1, 2]), SubmitRequest(7, m, r)]);
      && s.group == Some(GroupConfig(MpcParams(1, 2), key, {1, 2}))
      && 7 in s.requests && s.requests[7].status == AwaitingCommitments(map[])
  {
    var init, req := InitGroup(MpcParams(1, 2), key, [1, 2]), SubmitRequest(7, m, r);
    assert ToSet([1, 2]) == {1, 2};
    DeliverTwo(frost, GENESIS, init, req);
  }

  lemma FirstCommitment(frost: Frost, s: State, id: Uuid, v: Identifier, c: Commitments)
    requires s.group.Some? && s.group.value.params.threshold == 1 && v in s.group.value.validators
    requires id in s.requests && s.requests[id].status == AwaitingCommitments(map[])
    ensures var r := ApplyTx(frost, s, SubmitCommitment(id, v, c));
      && r.Accepted? && r.state.group == s.group
      && id in r.state.requests && r.state.requests[id].status.Signing?
      && r.state.requests[id].status.participants == {v}
  {
    var cs := map[v := c];
    assert map[][v := c] == cs;
    WholeQuorumIsTaken(s.group.value.params, s.requests[id].message, cs);
    assert cs.Keys == {v};
  }
}
