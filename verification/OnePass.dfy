/** When a single delivery of everything is enough. */
module OnePass {
  import opened Core
  import opened FrostSuite
  import opened Chain
  import opened Ledgers
  import opened Acceptance
  import opened Runs
  import opened Ranks
  import opened Convergence
  import opened Delivery

  // ------------------------------------------------------ rank by rank

  ghost predicate Rising(txs: seq<Tx>) {
    forall i, j :: 0 <= i < j < |txs| ==> Rank(SlotOf(txs[i])) <= Rank(SlotOf(txs[j]))
  }

  /** Once only ranks from `r` on are left, everything below has been accepted. */
  lemma {:induction false} RisingFills(frost: Frost, T: Ledger, txs: seq<Tx>, M: Ledger, r: nat, i: nat)
    requires ConflictFree(T) && CompleteRound(txs, T) && Rising(txs) && Admissible(M) && SubLedger(M, T)
    requires i <= |txs| && forall j :: i <= j < |txs| ==> Rank(SlotOf(txs[j])) >= r
    ensures forall k :: k in M && Rank(k) < r ==> k in LedgerOf(frost, txs[..i])
    decreases r
  {
    forall k | k in M && Rank(k) < r ensures k in LedgerOf(frost, txs[..i]) {
      assert SlotOf(T[k]) == k;
      var p :| 0 <= p < |txs| && txs[p] == T[k];
      RisingFills(frost, T, txs, M, Rank(k), p);
      FilledAt(frost, T, txs, M, k, p, i);
    }
  }

  lemma FilledAt(frost: Frost, T: Ledger, txs: seq<Tx>, M: Ledger, k: Slot, p: nat, i: nat)
    requires ConflictFree(T) && DrawnFrom(txs, T) && Admissible(M) && SubLedger(M, T) && k in M
    requires p < i <= |txs| && txs[p] == T[k]
    requires forall j :: j in M && Rank(j) < Rank(k) ==> j in LedgerOf(frost, txs[..p])
    ensures k in LedgerOf(frost, txs[..i])
  {
    NextRankEnabled(frost, T, M, k, txs[..p]);
    if k in LedgerOf(frost, txs[..p]) {
      Stays(frost, T, txs, k, p, i);
    } else {
      FilledNow(frost, txs, p);
      Stays(frost, T, txs, k, p + 1, i);
    }
  }

  lemma Stays(frost: Frost, T: Ledger, txs: seq<Tx>, k: Slot, p: nat, i: nat)
    requires ConflictFree(T) && DrawnFrom(txs, T) && p <= i <= |txs| && k in LedgerOf(frost, txs[..p])
    ensures k in LedgerOf(frost, txs[..i])
  {
    DrawnIsSound(frost, txs[..i], T);
    assert txs[..i] == txs[..p] + txs[p..i];
    LedgerGrows(frost, txs[..p], txs[p..i]);
  }

  lemma FilledNow(frost: Frost, txs: seq<Tx>, p: nat)
    requires p < |txs| && ApplyTx(frost, Deliver(frost, GENESIS, txs[..p]), txs[p]).Accepted?
    ensures SlotOf(txs[p]) in LedgerOf(frost, txs[..p + 1])
  {
    assert txs[..p + 1][..p] == txs[..p];
  }

  /** One delivery suffices when the ranks arrive in order, whatever the order
      within a rank. */
  lemma RisingDeliveryQuiesces(frost: Frost, T: Ledger, txs: seq<Tx>)
    requires ConflictFree(T) && CompleteRound(txs, T) && Rising(txs)
    ensures Quiescent(frost, Deliver(frost, GENESIS, txs), T)
  {
    DrawnIsSound(frost, txs, T);
    DrawnLedger(frost, txs, T);
    forall k | k in T ensures !ApplyTx(frost, Deliver(frost, GENESIS, txs), T[k]).Accepted? {
      AcceptedIffExtends(frost, txs, T[k]);
      NotEnabledAtEnd(frost, T, txs, k);
    }
  }

  lemma NotEnabledAtEnd(frost: Frost, T: Ledger, txs: seq<Tx>, k: Slot)
    requires ConflictFree(T) && CompleteRound(txs, T) && Rising(txs) && k in T
    requires Admissible(LedgerOf(frost, txs)) && SubLedger(LedgerOf(frost, txs), T)
    ensures !Extends(LedgerOf(frost, txs), T[k])
  {
    var A := LedgerOf(frost, txs);
    if Extends(A, T[k]) {
      assert SlotOf(T[k]) == k && txs[..|txs|] == txs;
      RisingFills(frost, T, txs, A[k := T[k]], RANKS, |txs|);
    }
  }

  // ------------------------------------------------------ exactly when

  /** The entries of `M` that entry `k` waits for. */
  ghost predicate Needs(M: Ledger, k: Slot, j: Slot)
    requires HasSetup(M)
  {
    match k
    case Setup => false
    case R1(_) => j == Setup
    case R2(_, _) => j.R1?
    case Fin(_) => j.R2?
    case Req(_) => if IsDkg(M) then j.Fin? else j == Setup
    case Com(id, _) => j == Req(id)
    case Shr(id, _) => j.Com? && j.id == id
  }

  lemma NeedsNecessary(M: Ledger, A: Ledger, k: Slot, j: Slot)
    requires Admissible(M) && Admissible(A) && SubLedger(A, M) && k in M && Extends(A, M[k])
    requires HasSetup(M) && j in M && Needs(M, k, j)
    ensures j in A
  {
    assert SlotOf(M[k]) == k;
    if A == map[] {
      FirstIsSetup(M[k]);
    } else {
      var A' := A[k := M[k]];
      assert Setup in A && A[Setup] == M[Setup];
      assert Justified(A', k) && Justified(M, j);
      match k
      case R1(_) =>
      case R2(_, _) => assert Round1Full(A');
      case Fin(_) => assert Round2Full(A');
      case Req(_) => assert HasGroup(A');
      case Com(_, _) =>
      case Shr(id, _) => WholeQuorumThere(M, A, M[k]);
    }
  }

  lemma WholeQuorumThere(M: Ledger, A: Ledger, tx: Tx)
    requires Admissible(M) && Admissible(A) && A != map[] && SubLedger(A, M) && tx.SubmitShare? && Extends(A, tx)
    ensures CommitmentsOf(A, tx.requestId).Keys == CommitmentsOf(M, tx.requestId).Keys
  {
    var id := tx.requestId;
    assert Setup in A && A[Setup] == M[Setup];
    QuorumBehindShare(A, tx);
    SharesNeedQuorum(M, id);
    FewerCommitments(M, A, id);
    SubsetCardinality(CommitmentsOf(A, id).Keys, CommitmentsOf(M, id).Keys);
  }

  lemma NeedsSuffice(M: Ledger, A: Ledger, k: Slot)
    requires Admissible(M) && Admissible(A) && SubLedger(A, M) && k in M && k !in A && HasSetup(M)
    requires forall j :: j in M && Needs(M, k, j) ==> j in A
    ensures Extends(A, M[k])
  {
    assert SlotOf(M[k]) == k && Justified(M, k);
    if k == Setup {
      assert A == map[];
      EnabledBelow(M, k);
      assert Below(M, 0) == map[];
    } else {
      SomethingNeeded(M, k);
      var j :| j in M && Needs(M, k, j);
      assert Setup in A && A[Setup] == M[Setup];
      ExtendsIff(A, M[k]);
      NeededJustifies(M, A, k, A[k := M[k]]);
    }
  }

  lemma SomethingNeeded(M: Ledger, k: Slot)
    requires Admissible(M) && k in M && k != Setup
    ensures exists j :: j in M && Needs(M, k, j)
  {
    assert Justified(M, k) && Justified(M, Setup);
    if IsDkg(M) {
      assert |Members(M)| >= 2;
      var a :| a in Members(M);
      assert |Members(M) - {a}| >= 1;
      var b :| b in Members(M) - {a};
      match k
      case R1(_) => assert Needs(M, k, Setup);
      case R2(_, _) => assert Needs(M, k, R1(a)) && R1(a) in M;
      case Fin(_) => assert Needs(M, k, R2(a, b)) && R2(a, b) in M;
      case Req(_) => assert Needs(M, k, Fin(a)) && Fin(a) in M;
      case Com(id, _) => assert Needs(M, k, Req(id));
      case Shr(id, v) => assert Needs(M, k, Com(id, v));
    } else {
      match k
      case Req(_) => assert Needs(M, k, Setup);
      case Com(id, _) => assert Needs(M, k, Req(id));
      case Shr(id, v) => assert Needs(M, k, Com(id, v));
    }
  }

  lemma NeededJustifies(M: Ledger, A: Ledger, k: Slot, A': Ledger)
    requires Admissible(M) && Admissible(A) && SubLedger(A, M) && k in M && k !in A && k != Setup
    requires Setup in A && HasSetup(M) && A' == A[k := M[k]] && Keyed(A')
    requires forall j :: j in M && Needs(M, k, j) ==> j in A
    ensures Justified(A', k)
  {
    assert Justified(M, k) && A'[Setup] == M[Setup] && SlotOf(M[k]) == k;
    match k
    case R1(_) =>
    case R2(_, _) => assert Round1Full(A');
    case Fin(_) => assert Round2Full(A');
    case Req(_) => assert HasGroup(A');
    case Com(id, _) => FewerCommitments(M, A', id);
    case Shr(id, _) => SameCommitments(M, A', id);
  }

  /** `M` is what a quiescent delivery of `T` accepts. */
  ghost predicate Final(T: Ledger, M: Ledger) {
    Admissible(M) && SubLedger(M, T) && forall k {:trigger Extends(M, T[k])} :: k in T ==> !Extends(M, T[k])
  }

  /** Every conflict-free set has one. */
  lemma FinalExists(T: Ledger) returns (M: Ledger)
    requires ConflictFree(T)
    ensures Final(T, M)
  {
    M := Completed(T, map[]);
  }

  lemma {:induction false} Completed(T: Ledger, P: Ledger) returns (M: Ledger)
    requires ConflictFree(T) && Admissible(P) && SubLedger(P, T)
    ensures Final(T, M)
    decreases |T| - |P|
  {
    SubsetCardinality(P.Keys, T.Keys);
    if k :| k in T && Extends(P, T[k]) {
      assert SlotOf(T[k]) == k;
      var P' := P[k := T[k]];
      SubsetCardinality(P'.Keys, T.Keys);
      M := Completed(T, P');
    } else {
      M := P;
    }
  }

  lemma FinalDelivery(frost: Frost, T: Ledger, M: Ledger) returns (ys: seq<Tx>)
    requires ConflictFree(T) && Final(T, M)
    ensures DrawnFrom(ys, T) && LedgerOf(frost, ys) == M && Quiescent(frost, Deliver(frost, GENESIS, ys), T)
  {
    ys := Linearize(frost, M);
    forall k | k in T ensures !ApplyTx(frost, Deliver(frost, GENESIS, ys), T[k]).Accepted? {
      AcceptedIffExtends(frost, ys, T[k]);
    }
  }

  lemma FinalContains(frost: Frost, T: Ledger, M: Ledger, xs: seq<Tx>)
    requires ConflictFree(T) && Final(T, M) && DrawnFrom(xs, T)
    ensures SubLedger(LedgerOf(frost, xs), M)
  {
    var ys := FinalDelivery(frost, T, M);
    QuiescentIsMaximal(frost, T, xs, ys);
  }

  ghost predicate NoRepeats(txs: seq<Tx>) {
    forall i, j :: 0 <= i < j < |txs| ==> txs[i] != txs[j]
  }

  /** Whatever comes to be accepted is delivered after all it needs. */
  ghost predicate NeedsFirst(txs: seq<Tx>, M: Ledger) {
    forall i, j {:trigger Awaits(M, SlotOf(txs[j]), SlotOf(txs[i]))} ::
      0 <= i < |txs| && 0 <= j < |txs| && Awaits(M, SlotOf(txs[j]), SlotOf(txs[i])) ==> i < j
  }

  ghost predicate Awaits(M: Ledger, k: Slot, j: Slot) {
    HasSetup(M) && k in M && j in M && Needs(M, k, j)
  }

  lemma {:induction false} EntryWasDelivered(frost: Frost, xs: seq<Tx>, k: Slot) returns (i: nat)
    requires SoundRun(frost, xs) && k in LedgerOf(frost, xs)
    ensures i < |xs| && SlotOf(xs[i]) == k && SoundRun(frost, xs[..i]) && Extends(LedgerOf(frost, xs[..i]), xs[i])
  {
    NextDelivery(frost, xs);
    var front := xs[..|xs| - 1];
    if k in LedgerOf(frost, front) {
      i := EntryWasDelivered(frost, front, k);
      assert front[..i] == xs[..i];
    } else {
      i := |xs| - 1;
    }
  }

  lemma AcceptedAfterNeeds(frost: Frost, T: Ledger, M: Ledger, txs: seq<Tx>, i: nat, j: nat)
    requires ConflictFree(T) && Final(T, M) && HasSetup(M) && DrawnFrom(txs, T) && NoRepeats(txs)
    requires i < |txs| && j < |txs| && SlotOf(txs[i]) in M && SlotOf(txs[j]) in LedgerOf(frost, txs)
    requires SlotOf(txs[j]) in M && Needs(M, SlotOf(txs[j]), SlotOf(txs[i]))
    ensures i < j
  {
    DrawnIsSound(frost, txs, T);
    var j' := EntryWasDelivered(frost, txs, SlotOf(txs[j]));
    assert j' == j;
    FinalContains(frost, T, M, txs[..j]);
    RunIsView(frost, txs[..j]);
    assert M[SlotOf(txs[j])] == txs[j];
    NeedsNecessary(M, LedgerOf(frost, txs[..j]), SlotOf(txs[j]), SlotOf(txs[i]));
    var i' := EntryWasDelivered(frost, txs[..j], SlotOf(txs[i]));
    assert txs[i'] == txs[i];
  }

  ghost predicate WellOrdered(T: Ledger, M: Ledger, txs: seq<Tx>) {
    ConflictFree(T) && Final(T, M) && HasSetup(M) && CompleteRound(txs, T) && NeedsFirst(txs, M)
  }

  /** Of the first `p` transactions, `A` holds all that belong to `M`. */
  ghost predicate Filled(txs: seq<Tx>, M: Ledger, p: nat, A: Ledger)
    requires p <= |txs|
  {
    forall i :: 0 <= i < p && SlotOf(txs[i]) in M ==> SlotOf(txs[i]) in A
  }

  ghost predicate FilledTo(frost: Frost, txs: seq<Tx>, M: Ledger, p: nat)
    requires p <= |txs|
  {
    Filled(txs, M, p, LedgerOf(frost, txs[..p]))
  }

  lemma {:induction false} NeedsFirstFills(frost: Frost, T: Ledger, M: Ledger, txs: seq<Tx>, p: nat)
    requires WellOrdered(T, M, txs) && p <= |txs|
    ensures FilledTo(frost, txs, M, p)
  {
    if p == 0 {
    } else {
      NeedsFirstFills(frost, T, M, txs, p - 1);
      FillStep(frost, T, M, txs, p - 1, p);
    }
  }

  lemma FillStep(frost: Frost, T: Ledger, M: Ledger, txs: seq<Tx>, p: nat, q: nat)
    requires WellOrdered(T, M, txs) && p < |txs| && q == p + 1 && FilledTo(frost, txs, M, p)
    ensures FilledTo(frost, txs, M, q)
  {
    OneFurther(frost, T, M, txs, p, q);
    NextFilled(T, M, txs, p, q, LedgerOf(frost, txs[..p]), LedgerOf(frost, txs[..q]));
  }

  /** Within `M`, delivering `tx` moves the ledger from `A` to `A'`. */
  ghost predicate Moves(A: Ledger, tx: Tx, A': Ledger, M: Ledger) {
    && Admissible(A) && SubLedger(A, M)
    && A' == if Extends(A, tx) then A[SlotOf(tx) := tx] else A
  }

  lemma OneFurther(frost: Frost, T: Ledger, M: Ledger, txs: seq<Tx>, p: nat, q: nat)
    requires WellOrdered(T, M, txs) && p < |txs| && q == p + 1
    ensures Moves(LedgerOf(frost, txs[..p]), txs[p], LedgerOf(frost, txs[..q]), M)
  {
    var through := txs[..q];
    assert through[..|through| - 1] == txs[..p];
    DrawnIsSound(frost, through, T);
    NextDelivery(frost, through);
    FinalContains(frost, T, M, txs[..p]);
  }

  lemma NextFilled(T: Ledger, M: Ledger, txs: seq<Tx>, p: nat, q: nat, A: Ledger, A': Ledger)
    requires WellOrdered(T, M, txs) && q == p + 1
    requires p < |txs| && Filled(txs, M, p, A) && Moves(A, txs[p], A', M)
    ensures Filled(txs, M, q, A')
  {
    var k := SlotOf(txs[p]);
    if k in M && k !in A {
      forall j | j in M && Needs(M, k, j) ensures j in A {
        NeedIsIn(T, M, A, txs, p, j);
      }
      assert M[k] == txs[p];
      NeedsSuffice(M, A, k);
    }
  }

  lemma NeedIsIn(T: Ledger, M: Ledger, A: Ledger, txs: seq<Tx>, p: nat, j: Slot)
    requires WellOrdered(T, M, txs) && p < |txs| && Awaits(M, SlotOf(txs[p]), j)
    requires Filled(txs, M, p, A)
    ensures j in A
  {
    assert SlotOf(T[j]) == j;
    var i :| 0 <= i < |txs| && txs[i] == T[j];
    assert Awaits(M, SlotOf(txs[p]), SlotOf(txs[i]));
  }

  /** A single delivery without repeats reaches quiescence if and only if it
      delivers everything that is to be accepted after what it needs. */
  lemma OneDeliveryIff(frost: Frost, T: Ledger, M: Ledger, txs: seq<Tx>)
    requires ConflictFree(T) && Final(T, M) && CompleteRound(txs, T) && NoRepeats(txs)
    ensures Quiescent(frost, Deliver(frost, GENESIS, txs), T) <==> NeedsFirst(txs, M)
  {
    FinalContains(frost, T, M, txs);
    DrawnIsSound(frost, txs, T);
    if Quiescent(frost, Deliver(frost, GENESIS, txs), T) {
      var ys := FinalDelivery(frost, T, M);
      QuiescentIsMaximal(frost, T, ys, txs);
      forall i, j | 0 <= i < |txs| && 0 <= j < |txs| && Awaits(M, SlotOf(txs[j]), SlotOf(txs[i])) ensures i < j {
        AcceptedAfterNeeds(frost, T, M, txs, i, j);
      }
    }
    if NeedsFirst(txs, M) {
      AllFilled(frost, T, M, txs);
    }
  }

  lemma FilledIsAll(T: Ledger, M: Ledger, txs: seq<Tx>, A: Ledger)
    requires Keyed(T) && SubLedger(M, T) && CompleteRound(txs, T) && SubLedger(A, M) && Filled(txs, M, |txs|, A)
    ensures A == M
  {
    forall k | k in M ensures k in A {
      assert SlotOf(T[k]) == k;
      var i :| 0 <= i < |txs| && txs[i] == T[k];
    }
  }

  lemma AllFilled(frost: Frost, T: Ledger, M: Ledger, txs: seq<Tx>)
    requires ConflictFree(T) && Final(T, M) && CompleteRound(txs, T) && NeedsFirst(txs, M)
    ensures Quiescent(frost, Deliver(frost, GENESIS, txs), T)
  {
    FinalContains(frost, T, M, txs);
    DrawnIsSound(frost, txs, T);
    var A := LedgerOf(frost, txs);
    if M != map[] {
      NeedsFirstFills(frost, T, M, txs, |txs|);
      assert txs[..|txs|] == txs;
      FilledIsAll(T, M, txs, A);
    }
    assert A == M;
    forall k | k in T ensures !ApplyTx(frost, Deliver(frost, GENESIS, txs), T[k]).Accepted? {
      AcceptedIffExtends(frost, txs, T[k]);
    }
  }

  /** Two single deliveries of one conflict-free set that end in different states: a
      request that arrives before its group is dropped. */
  lemma SingleDeliveryDiverges(frost: Frost, key: PublicKeyPackage, m: Message, r: Randomizer)
    requires key.verifyingShares.Keys == {1, 2}
    ensures var init, req := InitGroup(MpcParams(1, 2), key, [1, 2]), SubmitRequest(7, m, r);
      var T := map[Setup := init, Req(7) := req];
      && ConflictFree(T) && CompleteRound([init, req], T) && CompleteRound([req, init], T)
      && Deliver(frost, GENESIS, [init, req]) != Deliver(frost, GENESIS, [req, init])
  {
    var init, req := InitGroup(MpcParams(1, 2), key, [1, 2]), SubmitRequest(7, m, r);
    assert ToSet([1, 2]) == {1, 2};
    DeliverTwo(frost, GENESIS, init, req);
    DeliverTwo(frost, GENESIS, req, init);
    assert 7 in Deliver(frost, GENESIS, [init, req]).requests;
    PairIsConflictFree(init, req);
  }

  lemma PairIsConflictFree(init: Tx, req: Tx)
    requires init.InitGroup? && SoundSetup(init) && req.SubmitRequest? && req.requestId == 7
    ensures var T := map[Setup := init, Req(7) := req];
      ConflictFree(T) && CompleteRound([init, req], T) && CompleteRound([req, init], T)
  {
    var T := map[Setup := init, Req(7) := req];
    assert Keyed(T);
    forall id ensures |CommitmentsOf(T, id).Keys * Members(T)| <= Params(T).threshold {
      assert CommitmentsOf(T, id).Keys * Members(T) == {};
    }
    assert [init, req][0] == init && [init, req][1] == req && [req, init][0] == req && [req, init][1] == init;
  }
}
