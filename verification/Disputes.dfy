/** Which sets of transactions settle the same way in every order: exactly those
    from which no delivery can bring about a conflict. */
module Disputes {
  import opened Core
  import opened FrostSuite
  import opened Chain
  import opened Ledgers
  import opened Acceptance
  import opened Runs
  import opened Ranks
  import opened Convergence

  ghost predicate SoundSet(S: set<Tx>) {
    forall tx :: tx in S ==> SoundSetup(tx)
  }

  ghost predicate Drawn(txs: seq<Tx>, S: set<Tx>) {
    forall i :: 0 <= i < |txs| ==> txs[i] in S
  }

  /** Nothing in `S` is acceptable any more. */
  ghost predicate Settled(frost: Frost, s: State, S: set<Tx>) {
    forall tx {:trigger ApplyTx(frost, s, tx)} :: tx in S ==> !ApplyTx(frost, s, tx).Accepted?
  }

  /** All settled deliveries of `S` have accepted the same transactions. */
  ghost predicate Determined(frost: Frost, S: set<Tx>) {
    forall xs, ys {:trigger Drawn(xs, S), Drawn(ys, S)} ::
      && Drawn(xs, S) && Settled(frost, Deliver(frost, GENESIS, xs), S)
      && Drawn(ys, S) && Settled(frost, Deliver(frost, GENESIS, ys), S)
      ==> LedgerOf(frost, xs) == LedgerOf(frost, ys)
  }

  /** After `zs`, both `a` and `b` are acceptable, and they conflict. */
  ghost predicate Clash(frost: Frost, S: set<Tx>, zs: seq<Tx>, a: Tx, b: Tx) {
    var s := Deliver(frost, GENESIS, zs);
    && Drawn(zs, S) && a in S && b in S && a != b
    && ApplyTx(frost, s, a).Accepted? && ApplyTx(frost, s, b).Accepted? && Conflict(s, a, b)
  }

  ghost predicate Disputed(frost: Frost, S: set<Tx>) {
    exists zs, a, b :: Clash(frost, S, zs, a, b)
  }

  lemma DrawnIsSoundRun(frost: Frost, txs: seq<Tx>, S: set<Tx>)
    requires SoundSet(S) && Drawn(txs, S)
    ensures SoundRun(frost, txs)
  {
    SoundAsDelivered(frost, txs);
  }

  ghost predicate EntriesIn(L: Ledger, S: set<Tx>) {
    forall k :: k in L ==> L[k] in S
  }

  lemma {:induction false} LedgerDrawn(frost: Frost, txs: seq<Tx>, S: set<Tx>)
    requires Drawn(txs, S)
    ensures EntriesIn(LedgerOf(frost, txs), S)
  {
    if txs == [] {
    } else {
      LedgerDrawn(frost, txs[..|txs| - 1], S);
    }
  }

  // ------------------------------------------------------ no clash, one outcome

  lemma {:induction false} BottomSlot(ks: set<Slot>) returns (k: Slot)
    requires ks != {}
    ensures k in ks && forall j :: j in ks ==> Rank(k) <= Rank(j)
  {
    k :| k in ks;
    assert forall j :: j in ks ==> j == k || j in ks - {k};
    if ks - {k} != {} {
      var other := BottomSlot(ks - {k});
      if Rank(other) < Rank(k) { k := other; }
    }
  }

  lemma NothingMissing(P: Ledger, A: Ledger)
    requires SubLedger(P, A) && A.Keys - P.Keys == {}
    ensures P == A
  {
    forall k | k in A ensures k in P { assert k !in A.Keys - P.Keys; }
  }

  /** Between two admissible ledgers there is always a next step. */
  lemma NextStep(P: Ledger, A: Ledger) returns (k: Slot)
    requires Admissible(P) && Admissible(A) && SubLedger(P, A) && P != A
    ensures k in A && k !in P && Extends(P, A[k]) && SlotOf(A[k]) == k
  {
    var missing := A.Keys - P.Keys;
    if missing == {} {
      NothingMissing(P, A);
    }
    k := BottomSlot(missing);
    assert SlotOf(A[k]) == k && Justified(A, k);
    if P == map[] {
      assert Setup in missing && Rank(k) == 0;
      EnabledBelow(A, k);
      assert Below(A, 0) == map[];
    } else {
      ExtendsIff(P, A[k]);
      JustifiedBelow(A, P[k := A[k]], k);
    }
  }

  /** Without clashes, what was enabled on the way is accepted or still enabled. */
  lemma {:induction false} Carried(frost: Frost, S: set<Tx>, P: Ledger, A: Ledger, tx: Tx)
    requires SoundSet(S) && !Disputed(frost, S) && tx in S
    requires Admissible(P) && Admissible(A) && SubLedger(P, A) && EntriesIn(A, S) && Extends(P, tx)
    ensures (SlotOf(tx) in A && A[SlotOf(tx)] == tx) || Extends(A, tx)
    decreases |A| - |P|
  {
    SubsetCardinality(P.Keys, A.Keys);
    if P != A {
      var k := NextStep(P, A);
      var Q := P[k := A[k]];
      if A[k] != tx {
        StillEnabled(frost, S, P, A[k], tx);
        SubsetCardinality(Q.Keys, A.Keys);
        Carried(frost, S, Q, A, tx);
      }
    }
  }

  lemma StillEnabled(frost: Frost, S: set<Tx>, P: Ledger, a: Tx, tx: Tx)
    requires SoundSet(S) && !Disputed(frost, S) && tx in S && a in S && a != tx
    requires Admissible(P) && EntriesIn(P, S) && Extends(P, a) && Extends(P, tx)
    ensures Extends(P[SlotOf(a) := a], tx)
  {
    var zs := Linearize(frost, P);
    assert Drawn(zs, S);
    AcceptedIffExtends(frost, zs, a);
    AcceptedIffExtends(frost, zs, tx);
    assert !Clash(frost, S, zs, a, tx);
    ExtendsUnlessConflict(frost, P, a, tx);
  }

  lemma {:induction false} NoClashMaximal(frost: Frost, S: set<Tx>, xs: seq<Tx>, ys: seq<Tx>)
    requires SoundSet(S) && !Disputed(frost, S) && Drawn(xs, S) && Drawn(ys, S)
    requires Settled(frost, Deliver(frost, GENESIS, ys), S)
    ensures SubLedger(LedgerOf(frost, xs), LedgerOf(frost, ys))
  {
    if xs == [] {
    } else {
      var prefix, tx := xs[..|xs| - 1], xs[|xs| - 1];
      NoClashMaximal(frost, S, prefix, ys);
      DrawnIsSoundRun(frost, xs, S);
      DrawnIsSoundRun(frost, ys, S);
      NextDelivery(frost, xs);
      LedgerDrawn(frost, ys, S);
      AcceptedIffExtends(frost, ys, tx);
      if Extends(LedgerOf(frost, prefix), tx) {
        Carried(frost, S, LedgerOf(frost, prefix), LedgerOf(frost, ys), tx);
      }
    }
  }

  // ------------------------------------------------------ a clash, two outcomes

  /** No admissible ledger holds two transactions that conflicted. */
  lemma ConflictExcludes(frost: Frost, L: Ledger, A: Ledger, a: Tx, b: Tx)
    requires Admissible(L) && L != map[] && Admissible(A) && SubLedger(L, A) && Extends(L, a) && Extends(L, b) && a != b
    requires SlotOf(a) in A && A[SlotOf(a)] == a && SlotOf(b) in A && A[SlotOf(b)] == b
    ensures !Conflict(View(frost, L), a, b)
  {
    if a.DkgFinalize? && b.DkgFinalize? {
      assert Justified(A, SlotOf(b)) && Fin(a.from) in A;
    }
    if a.SubmitCommitment? && b.SubmitCommitment? && a.requestId == b.requestId {
      SeatsShown(frost, L, b, View(frost, L));
      TwoMoreSeats(L, A, a, b);
    }
  }

  lemma TwoMoreSeats(L: Ledger, A: Ledger, a: Tx, b: Tx)
    requires Admissible(L) && L != map[] && Admissible(A) && SubLedger(L, A)
    requires a.SubmitCommitment? && b.SubmitCommitment? && a.requestId == b.requestId && a.validator != b.validator
    requires SlotOf(a) !in L && SlotOf(b) !in L && SlotOf(a) in A && SlotOf(b) in A
    ensures |CommitmentsOf(L, b.requestId)| + 2 <= Params(L).threshold
  {
    var id := b.requestId;
    var before, after := CommitmentsOf(L, id).Keys, CommitmentsOf(A, id).Keys;
    assert a.validator !in before && b.validator !in before;
    assert before + {a.validator, b.validator} <= after;
    SubsetCardinality(before + {a.validator, b.validator}, after);
    assert |before + {a.validator, b.validator}| == |before| + 2;
    SharesNeedQuorum(A, id);
    assert A[Setup] == L[Setup];
  }

  ghost function SlotsOf(S: set<Tx>): set<Slot> {
    set tx | tx in S :: SlotOf(tx)
  }

  /** Every delivery can be continued until it is settled. */
  lemma {:induction false} Settles(frost: Frost, S: set<Tx>, zs: seq<Tx>) returns (xs: seq<Tx>)
    requires SoundSet(S) && Drawn(zs, S)
    ensures Drawn(zs + xs, S) && Settled(frost, Deliver(frost, GENESIS, zs + xs), S)
    decreases |SlotsOf(S)| - |LedgerOf(frost, zs)|
  {
    DrawnIsSoundRun(frost, zs, S);
    if Settled(frost, Deliver(frost, GENESIS, zs), S) {
      xs := [];
      assert zs + xs == zs;
    } else {
      var tx :| tx in S && ApplyTx(frost, Deliver(frost, GENESIS, zs), tx).Accepted?;
      OneMoreSlot(frost, S, zs, tx);
      var rest := Settles(frost, S, zs + [tx]);
      xs := [tx] + rest;
      assert zs + xs == zs + [tx] + rest;
    }
  }

  lemma OneMoreSlot(frost: Frost, S: set<Tx>, zs: seq<Tx>, tx: Tx)
    requires SoundSet(S) && Drawn(zs, S) && tx in S && ApplyTx(frost, Deliver(frost, GENESIS, zs), tx).Accepted?
    ensures Drawn(zs + [tx], S)
    ensures |LedgerOf(frost, zs)| < |LedgerOf(frost, zs + [tx])| <= |SlotsOf(S)|
    ensures SlotOf(tx) in LedgerOf(frost, zs + [tx]) && LedgerOf(frost, zs + [tx])[SlotOf(tx)] == tx
  {
    var all := zs + [tx];
    DrawnIsSoundRun(frost, all, S);
    assert all[..|all| - 1] == zs;
    NextDelivery(frost, all);
    LedgerDrawn(frost, all, S);
    RunIsView(frost, all);
    var A := LedgerOf(frost, all);
    forall k | k in A ensures k in SlotsOf(S) {
      assert SlotOf(A[k]) == k;
    }
    SubsetCardinality(A.Keys, SlotsOf(S));
  }

  /** A settled delivery that goes through `zs` and then accepts `tx`. */
  lemma SettlesWith(frost: Frost, S: set<Tx>, zs: seq<Tx>, tx: Tx) returns (xs: seq<Tx>)
    requires SoundSet(S) && Drawn(zs, S) && tx in S && ApplyTx(frost, Deliver(frost, GENESIS, zs), tx).Accepted?
    ensures Drawn(xs, S) && Settled(frost, Deliver(frost, GENESIS, xs), S)
    ensures var A := LedgerOf(frost, xs);
      && Admissible(A) && SubLedger(LedgerOf(frost, zs), A) && SlotOf(tx) in A && A[SlotOf(tx)] == tx
  {
    OneMoreSlot(frost, S, zs, tx);
    var rest := Settles(frost, S, zs + [tx]);
    xs := zs + [tx] + rest;
    DrawnIsSoundRun(frost, xs, S);
    LedgerGrows(frost, zs + [tx], rest);
    LedgerGrows(frost, zs, [tx] + rest) by {
      assert zs + ([tx] + rest) == xs;
    }
    assert zs + ([tx] + rest) == xs;
    RunIsView(frost, xs);
  }

  lemma ClashDiverges(frost: Frost, S: set<Tx>, zs: seq<Tx>, a: Tx, b: Tx)
    requires SoundSet(S) && Clash(frost, S, zs, a, b)
    ensures !Determined(frost, S)
  {
    var xs := SettlesWith(frost, S, zs, a);
    var ys := SettlesWith(frost, S, zs, b);
    DrawnIsSoundRun(frost, zs, S);
    AcceptedIffExtends(frost, zs, a);
    AcceptedIffExtends(frost, zs, b);
    RunIsView(frost, zs);
    var L := LedgerOf(frost, zs);
    if LedgerOf(frost, xs) == LedgerOf(frost, ys) {
      if L == map[] {
        RivalSetups(frost, a, b);
      } else {
        ConflictExcludes(frost, L, LedgerOf(frost, xs), a, b);
      }
    }
  }

  /** All settled deliveries of a set agree if and only if no delivery drawn from it
      makes two of its transactions acceptable that conflict. */
  lemma DeterminedIff(frost: Frost, S: set<Tx>)
    requires SoundSet(S)
    ensures Determined(frost, S) <==> !Disputed(frost, S)
  {
    if Disputed(frost, S) {
      var zs, a, b :| Clash(frost, S, zs, a, b);
      ClashDiverges(frost, S, zs, a, b);
    } else {
      forall xs, ys | Drawn(xs, S) && Settled(frost, Deliver(frost, GENESIS, xs), S)
        && Drawn(ys, S) && Settled(frost, Deliver(frost, GENESIS, ys), S)
        ensures LedgerOf(frost, xs) == LedgerOf(frost, ys)
      {
        NoClashMaximal(frost, S, xs, ys);
        NoClashMaximal(frost, S, ys, xs);
      }
    }
  }

  // ------------------------------------------------------ telling from one outcome

  /** `M` is what some settled delivery of `S` accepts. */
  ghost predicate SettledLedger(S: set<Tx>, M: Ledger) {
    Admissible(M) && EntriesIn(M, S) && forall tx {:trigger Extends(M, tx)} :: tx in S ==> !Extends(M, tx)
  }

  lemma SettledLedgerIff(frost: Frost, S: set<Tx>, xs: seq<Tx>)
    requires SoundSet(S) && Drawn(xs, S)
    ensures Settled(frost, Deliver(frost, GENESIS, xs), S) <==> SettledLedger(S, LedgerOf(frost, xs))
  {
    DrawnIsSoundRun(frost, xs, S);
    LedgerDrawn(frost, xs, S);
    RunIsView(frost, xs);
    forall tx | tx in S
      ensures ApplyTx(frost, Deliver(frost, GENESIS, xs), tx).Accepted? <==> Extends(LedgerOf(frost, xs), tx)
    {
      AcceptedIffExtends(frost, xs, tx);
    }
  }

  lemma SettledLedgerExists(frost: Frost, S: set<Tx>) returns (M: Ledger)
    requires SoundSet(S)
    ensures SettledLedger(S, M)
  {
    var xs := Settles(frost, S, []);
    assert [] + xs == xs;
    SettledLedgerIff(frost, S, xs);
    M := LedgerOf(frost, xs);
  }

  /** `tx` was left out of `M`, although what `M` holds below its rank enables it. */
  ghost predicate LeftOut(S: set<Tx>, M: Ledger, tx: Tx) {
    && tx in S && !(SlotOf(tx) in M && M[SlotOf(tx)] == tx)
    && Extends(Below(M, Rank(SlotOf(tx))), tx)
  }

  /** More entries of lower rank do not disable a transaction. */
  lemma EnabledAbove(P: Ledger, Q: Ledger, tx: Tx)
    requires Admissible(P) && Admissible(Q) && SubLedger(P, Q) && Extends(P, tx)
    requires forall k :: k in Q ==> Rank(k) < Rank(SlotOf(tx))
    ensures Extends(Q, tx)
  {
    if P == map[] {
      FirstIsSetup(tx);
      assert Q == map[];
    } else {
      assert Setup in Q && Q[Setup] == P[Setup];
      assert Justified(P[SlotOf(tx) := tx], SlotOf(tx));
      ExtendsIff(Q, tx);
      JustifiedAbove(P, Q, tx, Q[SlotOf(tx) := tx]);
    }
  }

  lemma JustifiedAbove(P: Ledger, Q: Ledger, tx: Tx, Q': Ledger)
    requires Admissible(P) && Admissible(Q) && SubLedger(P, Q) && Extends(P, tx) && P != map[] && SlotOf(tx) !in Q
    requires forall k :: k in Q ==> Rank(k) < Rank(SlotOf(tx))
    requires Q' == Q[SlotOf(tx) := tx] && HasSetup(Q') && Q'[Setup] == P[Setup]
    ensures Justified(Q', SlotOf(tx))
  {
    assert Justified(P[SlotOf(tx) := tx], SlotOf(tx));
    match tx
    case DkgRound1(_, _) =>
    case DkgRound2(_, _, _) => assert Round1Full(Q');
    case DkgFinalize(_, _) =>
      assert Round2Full(Q');
      assert forall g :: Fin(g) in Q' ==> g == tx.from;
    case SubmitRequest(_, _, _) => assert HasGroup(Q');
    case SubmitCommitment(id, v, _) =>
      CommitmentsProjection(Q, tx, id);
      assert CommitmentsOf(Q, id) == map[];
      assert Justified(Q, Setup);
    case SubmitShare(id, _, _) =>
      QuorumBehindShare(P, tx);
      QuorumGrows(P, Q, id);
      CommitmentsProjection(Q, tx, id);
  }

  /** Where an outcome departs from `M`, something was left out of `M`. */
  lemma DepartureIsLeftOut(S: set<Tx>, M: Ledger, A: Ledger) returns (tx: Tx)
    requires SettledLedger(S, M) && Admissible(A) && EntriesIn(A, S) && !SubLedger(A, M)
    ensures LeftOut(S, M, tx)
  {
    var departing := set k | k in A && !(k in M && M[k] == A[k]);
    var j :| j in A && !(j in M && M[j] == A[j]);
    assert j in departing;
    var k := BottomSlot(departing);
    tx := A[k];
    assert SlotOf(tx) == k;
    EnabledBelow(A, k);
    BelowAdmissible(M, Rank(k));
    forall i | i in Below(A, Rank(k)) ensures i in Below(M, Rank(k)) && Below(M, Rank(k))[i] == Below(A, Rank(k))[i] {
      assert i !in departing;
    }
    EnabledAbove(Below(A, Rank(k)), Below(M, Rank(k)), tx);
  }

  lemma LeftOutDiverges(frost: Frost, S: set<Tx>, M: Ledger, tx: Tx)
    requires SoundSet(S) && SettledLedger(S, M) && LeftOut(S, M, tx)
    ensures !Determined(frost, S)
  {
    var P := Below(M, Rank(SlotOf(tx)));
    BelowAdmissible(M, Rank(SlotOf(tx)));
    var zs := Linearize(frost, P);
    assert Drawn(zs, S);
    AcceptedIffExtends(frost, zs, tx);
    var xs := SettlesWith(frost, S, zs, tx);
    var ys := Linearize(frost, M);
    assert Drawn(ys, S);
    SettledLedgerIff(frost, S, ys);
  }

  lemma OnlyOutcome(frost: Frost, S: set<Tx>, M: Ledger, xs: seq<Tx>)
    requires SoundSet(S) && SettledLedger(S, M) && (forall tx {:trigger LeftOut(S, M, tx)} :: !LeftOut(S, M, tx))
    requires Drawn(xs, S) && Settled(frost, Deliver(frost, GENESIS, xs), S)
    ensures LedgerOf(frost, xs) == M
  {
    SettledLedgerIff(frost, S, xs);
    var A := LedgerOf(frost, xs);
    if !SubLedger(A, M) {
      var tx := DepartureIsLeftOut(S, M, A);
    } else if A != M {
      var k := NextStep(A, M);
    }
  }

  /** One settled outcome tells: a set settles the same way in every order if and only
      if nothing left out of that outcome was enabled by what it holds below. */
  lemma DeterminedIffNothingLeftOut(frost: Frost, S: set<Tx>, M: Ledger)
    requires SoundSet(S) && SettledLedger(S, M)
    ensures Determined(frost, S) <==> forall tx {:trigger LeftOut(S, M, tx)} :: !LeftOut(S, M, tx)
  {
    if tx :| LeftOut(S, M, tx) {
      LeftOutDiverges(frost, S, M, tx);
    } else {
      forall xs, ys | Drawn(xs, S) && Settled(frost, Deliver(frost, GENESIS, xs), S)
        && Drawn(ys, S) && Settled(frost, Deliver(frost, GENESIS, ys), S)
        ensures LedgerOf(frost, xs) == LedgerOf(frost, ys)
      {
        OnlyOutcome(frost, S, M, xs);
        OnlyOutcome(frost, S, M, ys);
      }
    }
  }
}
