/** Transactions depend only on transactions of lower rank, so every admissible
    ledger can be built up rank by rank. */
module Ranks {
  import opened Core
  import opened FrostSuite
  import opened Chain
  import opened Ledgers
  import opened Acceptance
  import opened Runs

  function Rank(k: Slot): nat {
    match k
    case Setup => 0
    case R1(_) => 1
    case R2(_, _) => 2
    case Fin(_) => 3
    case Req(_) => 4
    case Com(_, _) => 5
    case Shr(_, _) => 6
  }

  const RANKS: nat := 7

  ghost predicate SubLedger(A: Ledger, B: Ledger) {
    forall k :: k in A ==> k in B && A[k] == B[k]
  }

  /** `P` keeps every entry of `L` that ranks below `r`. */
  ghost predicate KeepsBelow(P: Ledger, L: Ledger, r: nat) {
    SubLedger(P, L) && forall k :: k in L && Rank(k) < r ==> k in P
  }

  lemma FewerCommitments(M: Ledger, P: Ledger, id: Uuid)
    requires Keyed(M) && Keyed(P) && SubLedger(P, M)
    ensures CommitmentsOf(P, id).Keys <= CommitmentsOf(M, id).Keys
    ensures |CommitmentsOf(P, id)| <= |CommitmentsOf(M, id)|
  {
    SubsetCardinality(CommitmentsOf(P, id).Keys, CommitmentsOf(M, id).Keys);
  }

  lemma SameCommitments(M: Ledger, P: Ledger, id: Uuid)
    requires Keyed(M) && Keyed(P) && SubLedger(P, M) && forall v :: Com(id, v) in M ==> Com(id, v) in P
    ensures CommitmentsOf(P, id) == CommitmentsOf(M, id)
  {
  }

  /** An entry's justification only needs the entries below it. */
  lemma JustifiedBelow(L: Ledger, P: Ledger, k: Slot)
    requires HasSetup(L) && k in L && Justified(L, k)
    requires k in P && Setup in P && KeepsBelow(P, L, Rank(k))
    ensures Keyed(P) && Justified(P, k)
  {
    assert Keyed(P);
    assert P[Setup] == L[Setup] && P[k] == L[k];
    match k
    case Setup =>
    case R1(_) =>
    case R2(_, _) => assert Round1Full(P);
    case Fin(_) => assert Round2Full(P);
    case Req(_) => assert HasGroup(P);
    case Com(id, v) => FewerCommitments(L, P, id);
    case Shr(id, v) => SameCommitments(L, P, id);
  }

  /** The entries of `L` that rank below `r`. */
  ghost function Below(L: Ledger, r: nat): Ledger {
    map k | k in L && Rank(k) < r :: L[k]
  }

  lemma BelowAdmissible(L: Ledger, r: nat)
    requires Admissible(L)
    ensures Admissible(Below(L, r))
  {
    var P := Below(L, r);
    if P != map[] {
      var some :| some in P;
      assert Rank(Setup) < r && Setup in P;
      forall k | k in P ensures Justified(P, k) {
        assert Justified(L, k);
        JustifiedBelow(L, P, k);
      }
    }
  }

  /** An entry of an admissible ledger was enabled before anything of its own or a
      higher rank was there. */
  lemma EnabledBelow(L: Ledger, k: Slot)
    requires Admissible(L) && k in L
    ensures Admissible(Below(L, Rank(k))) && Extends(Below(L, Rank(k)), L[k])
  {
    var r := Rank(k);
    var P := Below(L, r);
    var P' := P[k := L[k]];
    BelowAdmissible(L, r);
    assert SlotOf(L[k]) == k && k !in P;
    assert Setup in P';
    forall j | j in P' ensures Justified(P', j) {
      assert Justified(L, j);
      JustifiedBelow(L, P', j);
    }
  }

  // ------------------------------------------------------ linearization

  lemma {:induction false} TopSlot(ks: set<Slot>) returns (top: Slot)
    requires ks != {}
    ensures top in ks && forall k :: k in ks ==> Rank(k) <= Rank(top)
  {
    top :| top in ks;
    if ks - {top} != {} {
      var other := TopSlot(ks - {top});
      assert forall k :: k in ks ==> k == top || k in ks - {top};
      if Rank(other) > Rank(top) { top := other; }
    } else {
      assert forall k :: k in ks ==> k == top || k in ks - {top};
    }
  }

  /** Dropping an entry of the highest rank keeps a ledger admissible. */
  lemma DropTop(L: Ledger, top: Slot)
    requires Admissible(L) && top in L
    requires forall k :: k in L ==> Rank(k) <= Rank(top)
    ensures Admissible(L - {top})
  {
    var P := L - {top};
    if P != map[] {
      SetupIsNotTop(L, top);
      forall k | k in P ensures Justified(P, k) {
        assert Justified(L, k);
        JustifiedBelow(L, P, k);
      }
    }
  }

  lemma SetupIsNotTop(L: Ledger, top: Slot)
    requires top in L && L - {top} != map[]
    requires forall k :: k in L ==> Rank(k) <= Rank(top)
    ensures top != Setup
  {
    var k :| k in L - {top};
    assert Rank(k) == 0 ==> k == Setup;
  }

  /** Every admissible ledger is reached by some fully accepted run, so the
      reachable states are exactly the views of the admissible ledgers. */
  lemma {:induction false} Linearize(frost: Frost, L: Ledger) returns (txs: seq<Tx>)
    requires Admissible(L)
    ensures SoundRun(frost, txs) && FullyAccepted(frost, txs)
    ensures LedgerOf(frost, txs) == L
    ensures Deliver(frost, GENESIS, txs) == View(frost, L)
    ensures forall i :: 0 <= i < |txs| ==> SlotOf(txs[i]) in L && L[SlotOf(txs[i])] == txs[i]
    decreases |L|
  {
    if L == map[] {
      txs := [];
    } else {
      var top := TopSlot(L.Keys);
      var rest := L - {top};
      assert rest.Keys == L.Keys - {top};
      DropTop(L, top);
      var front := Linearize(frost, rest);
      assert SlotOf(L[top]) == top && rest[top := L[top]] == L;
      txs := front + [L[top]];
      OneMore(frost, front, L[top], L);
    }
  }

  lemma OneMore(frost: Frost, front: seq<Tx>, tx: Tx, L: Ledger)
    requires SoundRun(frost, front) && FullyAccepted(frost, front) && Extends(LedgerOf(frost, front), tx)
    requires LedgerOf(frost, front)[SlotOf(tx) := tx] == L
    ensures SoundRun(frost, front + [tx]) && FullyAccepted(frost, front + [tx]) && LedgerOf(frost, front + [tx]) == L
    ensures Admissible(L) && Deliver(frost, GENESIS, front + [tx]) == View(frost, L)
  {
    DeliverOne(frost, front, tx);
    RunIsView(frost, front + [tx]);
  }
}
