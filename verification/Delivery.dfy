/** How often, and in which order, a conflict-free set has to be delivered. */
module Delivery {
  import opened Core
  import opened FrostSuite
  import opened Chain
  import opened Ledgers
  import opened Acceptance
  import opened Runs
  import opened Ranks
  import opened Convergence

  /** A round delivers all of `T`, in some order, possibly with repeats. */
  ghost predicate CompleteRound(round: seq<Tx>, T: Ledger) {
    DrawnFrom(round, T) && forall k :: k in T ==> T[k] in round
  }

  ghost predicate AllComplete(rounds: seq<seq<Tx>>, T: Ledger) {
    forall i {:trigger CompleteRound(rounds[i], T)} :: 0 <= i < |rounds| ==> CompleteRound(rounds[i], T)
  }

  lemma FrontComplete(rounds: seq<seq<Tx>>, T: Ledger)
    requires AllComplete(rounds, T) && rounds != []
    ensures AllComplete(rounds[..|rounds| - 1], T) && CompleteRound(rounds[|rounds| - 1], T)
  {
    var front := rounds[..|rounds| - 1];
    forall i | 0 <= i < |front| ensures CompleteRound(front[i], T) {
      assert CompleteRound(rounds[i], T);
    }
  }

  lemma {:induction false} FlattenDrawn(rounds: seq<seq<Tx>>, T: Ledger)
    requires AllComplete(rounds, T)
    ensures DrawnFrom(Flatten(rounds), T)
  {
    if rounds == [] {
    } else {
      FrontComplete(rounds, T);
      FlattenDrawn(rounds[..|rounds| - 1], T);
    }
  }

  /** A transaction that was acceptable is in the ledger once it is delivered. */
  lemma DeliveryFills(frost: Frost, T: Ledger, xs: seq<Tx>, ys: seq<Tx>, tx: Tx)
    requires ConflictFree(T) && DrawnFrom(xs + ys + [tx], T)
    requires ApplyTx(frost, Deliver(frost, GENESIS, xs), tx).Accepted?
    ensures SlotOf(tx) in LedgerOf(frost, xs + ys + [tx])
  {
    var before, all := xs + ys, xs + ys + [tx];
    assert all[..|all| - 1] == before && all[|all| - 1] == tx;
    assert DrawnFrom(xs, T) && DrawnFrom(before, T) && SoundSetup(tx) by {
      assert forall i :: 0 <= i < |before| ==> before[i] == all[i];
      assert forall i :: 0 <= i < |xs| ==> xs[i] == all[i];
    }
    DrawnIsSound(frost, xs, T);
    DrawnIsSound(frost, before, T);
    LedgerGrows(frost, xs, ys);
    DrawnLedger(frost, before, T);
    AcceptedIffExtends(frost, xs, tx);
    AcceptedIffExtends(frost, before, tx);
    if SlotOf(tx) !in LedgerOf(frost, before) {
      EnabledStaysEnabled(T, LedgerOf(frost, xs), LedgerOf(frost, before), tx);
    }
  }

  /** Whatever a round could have accepted at its start is accepted by its end. */
  lemma RoundFillsEnabled(frost: Frost, T: Ledger, xs: seq<Tx>, round: seq<Tx>, k: Slot)
    requires ConflictFree(T) && DrawnFrom(xs, T) && CompleteRound(round, T)
    requires k in T && ApplyTx(frost, Deliver(frost, GENESIS, xs), T[k]).Accepted?
    ensures k in LedgerOf(frost, xs + round)
  {
    assert SlotOf(T[k]) == k;
    var j :| 0 <= j < |round| && round[j] == T[k];
    var through := RoundThrough(frost, T, xs, round, j);
    DeliveryFills(frost, T, xs, round[..j], T[k]);
  }

  lemma RoundThrough(frost: Frost, T: Ledger, xs: seq<Tx>, round: seq<Tx>, j: nat) returns (through: seq<Tx>)
    requires ConflictFree(T) && DrawnFrom(xs, T) && CompleteRound(round, T) && j < |round|
    ensures through == xs + round[..j] + [round[j]] && DrawnFrom(through, T)
    ensures forall k :: k in LedgerOf(frost, through) ==> k in LedgerOf(frost, xs + round)
  {
    through := xs + round[..j] + [round[j]];
    assert xs + round == through + round[j + 1..];
    DrawnIsSound(frost, xs + round, T);
    LedgerGrows(frost, through, round[j + 1..]);
    assert forall i :: 0 <= i < |through| ==> through[i] == (xs + round)[i];
  }

  // ------------------------------------------------------ seven rounds

  /** If everything below `k` in an admissible part of `T` has been accepted, `k` is
      accepted too or can be now. */
  lemma NextRankEnabled(frost: Frost, T: Ledger, M: Ledger, k: Slot, xs: seq<Tx>)
    requires ConflictFree(T) && DrawnFrom(xs, T) && Admissible(M) && SubLedger(M, T) && k in M
    requires forall j :: j in M && Rank(j) < Rank(k) ==> j in LedgerOf(frost, xs)
    ensures k in LedgerOf(frost, xs) || ApplyTx(frost, Deliver(frost, GENESIS, xs), T[k]).Accepted?
  {
    var A := LedgerOf(frost, xs);
    DrawnIsSound(frost, xs, T);
    DrawnLedger(frost, xs, T);
    EnabledBelow(M, k);
    AcceptedIffExtends(frost, xs, T[k]);
    if k !in A {
      EnabledStaysEnabled(T, Below(M, Rank(k)), A, T[k]);
    }
  }

  /** Every complete round settles one more rank. */
  lemma {:induction false} RoundsFillRanks(frost: Frost, T: Ledger, rounds: seq<seq<Tx>>, M: Ledger)
    requires ConflictFree(T) && AllComplete(rounds, T) && Admissible(M) && SubLedger(M, T)
    ensures forall k :: k in M && Rank(k) < |rounds| ==> k in LedgerOf(frost, Flatten(rounds))
  {
    if rounds == [] {
    } else {
      var front, round := rounds[..|rounds| - 1], rounds[|rounds| - 1];
      var xs := Flatten(front);
      FrontComplete(rounds, T);
      FlattenDrawn(front, T);
      FlattenDrawn(rounds, T);
      RoundsFillRanks(frost, T, front, M);
      DrawnIsSound(frost, xs + round, T);
      LedgerGrows(frost, xs, round);
      forall k | k in M && Rank(k) < |rounds| ensures k in LedgerOf(frost, xs + round) {
        NextRankEnabled(frost, T, M, k, xs);
        if k !in LedgerOf(frost, xs) {
          RoundFillsEnabled(frost, T, xs, round, k);
        }
      }
    }
  }

  lemma NotEnabledAnyMore(frost: Frost, T: Ledger, rounds: seq<seq<Tx>>, k: Slot)
    requires ConflictFree(T) && AllComplete(rounds, T) && |rounds| >= RANKS && k in T
    requires Admissible(LedgerOf(frost, Flatten(rounds))) && SubLedger(LedgerOf(frost, Flatten(rounds)), T)
    ensures !Extends(LedgerOf(frost, Flatten(rounds)), T[k])
  {
    var A := LedgerOf(frost, Flatten(rounds));
    if Extends(A, T[k]) {
      assert SlotOf(T[k]) == k && Rank(k) < RANKS;
      RoundsFillRanks(frost, T, rounds, A[k := T[k]]);
    }
  }

  /** Eventual delivery suffices: any seven complete rounds, each in any order,
      reach quiescence. */
  lemma RoundsQuiesce(frost: Frost, T: Ledger, rounds: seq<seq<Tx>>)
    requires ConflictFree(T) && AllComplete(rounds, T) && |rounds| >= RANKS
    ensures Quiescent(frost, Deliver(frost, GENESIS, Flatten(rounds)), T)
  {
    var xs := Flatten(rounds);
    FlattenDrawn(rounds, T);
    DrawnIsSound(frost, xs, T);
    DrawnLedger(frost, xs, T);
    forall k | k in T ensures !ApplyTx(frost, Deliver(frost, GENESIS, xs), T[k]).Accepted? {
      AcceptedIffExtends(frost, xs, T[k]);
      NotEnabledAnyMore(frost, T, rounds, k);
    }
  }

  // ------------------------------------------------------ six are not enough

  /** In a set with a ceremony, an acceptable transaction has one of the rank just
      below it in the ledger. */
  lemma RankBelowIsThere(L: Ledger, tx: Tx) returns (k: Slot)
    requires Admissible(L) && L != map[] && IsDkg(L) && Extends(L, tx)
    ensures k in L && Rank(k) + 1 == Rank(SlotOf(tx))
  {
    var L' := L[SlotOf(tx) := tx];
    assert Justified(L', SlotOf(tx)) && Justified(L, Setup);
    SetupKept(L, tx);
    assert |Members(L)| >= 2;
    var a :| a in Members(L);
    assert |Members(L) - {a}| >= 1;
    var b :| b in Members(L) - {a};
    match tx
    case DkgRound1(_, _) => k := Setup;
    case DkgRound2(_, _, _) => k := R1(a);
    case DkgFinalize(_, _) => k := R2(a, b);
    case SubmitRequest(_, _, _) => k := Fin(a);
    case SubmitCommitment(id, _, _) => k := Req(id);
    case SubmitShare(id, v, _) => k := Com(id, v);
  }

  /** Delivered in falling order of rank. */
  ghost predicate Falling(txs: seq<Tx>) {
    forall i, j :: 0 <= i < j < |txs| ==> Rank(SlotOf(txs[i])) >= Rank(SlotOf(txs[j]))
  }

  /** Nothing of rank `n` or above, except rank-`n` entries from `txs`. */
  ghost predicate ReachedBy(A: Ledger, n: nat, txs: seq<Tx>) {
    forall k :: k in A ==> Rank(k) < n || (Rank(k) == n && exists j :: 0 <= j < |txs| && SlotOf(txs[j]) == k)
  }

  /** A round in falling order gets at most one rank further. */
  lemma {:induction false} SlowRound(frost: Frost, T: Ledger, xs: seq<Tx>, round: seq<Tx>, n: nat)
    requires ConflictFree(T) && DrawnFrom(xs + round, T) && Setup in T && T[Setup].DkgBegin? && Falling(round)
    requires forall k :: k in LedgerOf(frost, xs) ==> Rank(k) < n
    ensures ReachedBy(LedgerOf(frost, xs + round), n, round)
  {
    if round == [] {
      assert xs + round == xs;
    } else {
      var front, tx := round[..|round| - 1], round[|round| - 1];
      DrawnFront(T, xs, front, tx, round);
      SlowRound(frost, T, xs, front, n);
      DrawnIsSound(frost, xs + round, T);
      NextDelivery(frost, xs + round);
      DrawnLedger(frost, xs + front, T);
      SlowStep(LedgerOf(frost, xs + front), LedgerOf(frost, xs + round), T, n, front, tx, round);
    }
  }

  lemma DrawnFront(T: Ledger, xs: seq<Tx>, front: seq<Tx>, tx: Tx, round: seq<Tx>)
    requires round == front + [tx] && DrawnFrom(xs + round, T)
    ensures (xs + round)[..|xs + round| - 1] == xs + front && DrawnFrom(xs + front, T)
    ensures (xs + round)[|xs + round| - 1] == tx
  {
    assert forall i :: 0 <= i < |xs + front| ==> (xs + front)[i] == (xs + round)[i];
  }

  lemma SlowStep(A: Ledger, A': Ledger, T: Ledger, n: nat, front: seq<Tx>, tx: Tx, round: seq<Tx>)
    requires Admissible(A) && SubLedger(A, T) && Setup in T && T[Setup].DkgBegin?
    requires round == front + [tx] && Falling(round) && ReachedBy(A, n, front)
    requires A' == if Extends(A, tx) then A[SlotOf(tx) := tx] else A
    ensures ReachedBy(A', n, round)
  {
    forall k | k in A ensures Rank(k) < n || (Rank(k) == n && exists j :: 0 <= j < |round| && SlotOf(round[j]) == k) {
      if Rank(k) >= n {
        var j :| 0 <= j < |front| && SlotOf(front[j]) == k;
        assert round[j] == front[j];
      }
    }
    if Extends(A, tx) {
      assert round[|front|] == tx;
      NotThatFar(A, T, n, front, tx, round);
    }
  }

  lemma NotThatFar(A: Ledger, T: Ledger, n: nat, front: seq<Tx>, tx: Tx, round: seq<Tx>)
    requires Admissible(A) && SubLedger(A, T) && Setup in T && T[Setup].DkgBegin?
    requires round == front + [tx] && Falling(round) && ReachedBy(A, n, front) && Extends(A, tx)
    ensures Rank(SlotOf(tx)) <= n
  {
    assert round[|front|] == tx && forall j :: 0 <= j < |front| ==> round[j] == front[j];
    if A == map[] {
      FirstIsSetup(tx);
    } else if Rank(SlotOf(tx)) > 0 {
      var k := RankBelowIsThere(A, tx);
    }
  }

  ghost predicate AllFalling(rounds: seq<seq<Tx>>) {
    forall i :: 0 <= i < |rounds| ==> Falling(rounds[i])
  }

  lemma {:induction false} SlowRounds(frost: Frost, T: Ledger, rounds: seq<seq<Tx>>)
    requires ConflictFree(T) && AllComplete(rounds, T) && AllFalling(rounds) && Setup in T && T[Setup].DkgBegin?
    ensures forall k :: k in LedgerOf(frost, Flatten(rounds)) ==> Rank(k) < |rounds|
  {
    if rounds == [] {
    } else {
      var front, round := rounds[..|rounds| - 1], rounds[|rounds| - 1];
      FrontComplete(rounds, T);
      SlowRounds(frost, T, front);
      FlattenDrawn(rounds, T);
      SlowRound(frost, T, Flatten(front), round, |front|);
    }
  }

  lemma AdmissibleIsConflictFree(T: Ledger)
    requires Admissible(T)
    ensures ConflictFree(T)
  {
    if T != map[] {
      forall k | k in T ensures SoundSetup(T[k]) {
        assert Justified(T, k);
      }
      forall f, g | Fin(f) in T && Fin(g) in T ensures SamePkp(FinalizeOf(T)[f], FinalizeOf(T)[g]) {
        assert Justified(T, Fin(g));
      }
      forall id ensures |CommitmentsOf(T, id).Keys * Members(T)| <= Params(T).threshold {
        SharesNeedQuorum(T, id);
        SubsetCardinality(CommitmentsOf(T, id).Keys * Members(T), CommitmentsOf(T, id).Keys);
      }
    }
  }

  /** With a ceremony and a share in the set, six rounds in falling order leave
      something acceptable. */
  lemma SixRoundsFallShort(frost: Frost, T: Ledger, rounds: seq<seq<Tx>>, last: Slot)
    requires Admissible(T) && last in T && last.Shr? && T[Setup].DkgBegin?
    requires AllComplete(rounds, T) && AllFalling(rounds) && |rounds| < RANKS
    ensures ConflictFree(T) && !Quiescent(frost, Deliver(frost, GENESIS, Flatten(rounds)), T)
  {
    AdmissibleIsConflictFree(T);
    SlowRounds(frost, T, rounds);
    FlattenDrawn(rounds, T);
    if Quiescent(frost, Deliver(frost, GENESIS, Flatten(rounds)), T) {
      var txs := Linearize(frost, T);
      QuiescentIsMaximal(frost, T, txs, Flatten(rounds));
    }
  }

  /** `n` complete rounds always reach quiescence. */
  ghost predicate AlwaysQuiesce(frost: Frost, n: nat) {
    forall T, rounds {:trigger AllComplete(rounds, T)} ::
      ConflictFree(T) && AllComplete(rounds, T) && |rounds| == n ==>
        Quiescent(frost, Deliver(frost, GENESIS, Flatten(rounds)), T)
  }

  // Two participants, one request, one commitment, one share.

  predicate OnShow(k: Slot) {
    match k
    case Setup => true
    case R1(f) => f == 1 || f == 2
    case R2(f, t) => (f == 1 && t == 2) || (f == 2 && t == 1)
    case Fin(f) => f == 1 || f == 2
    case Req(id) => id == 7
    case Com(id, v) => id == 7 && v == 1
    case Shr(id, v) => id == 7 && v == 1
  }

  function Shown(k: Slot): (tx: Tx)
    ensures SlotOf(tx) == k
  {
    match k
    case Setup => DkgBegin(MpcParams(1, 2), map[1 := EncPublicKey(0), 2 := EncPublicKey(0)])
    case R1(f) => DkgRound1(f, Round1Package(0))
    case R2(f, t) => DkgRound2(f, t, Sealed([]))
    case Fin(f) => DkgFinalize(f, PublicKeyPackage(VerifyingKey(0), map[], 0))
    case Req(id) => SubmitRequest(id, [], Randomizer(0))
    case Com(id, v) => SubmitCommitment(id, v, Commitments(0))
    case Shr(id, v) => SubmitShare(id, v, Share(0))
  }

  const SHOW_ORDER: seq<Slot> :=
    [Shr(7, 1), Com(7, 1), Req(7), Fin(1), Fin(2), R2(1, 2), R2(2, 1), R1(1), R1(2), Setup]

  lemma ShowOrder(k: Slot)
    ensures OnShow(k) <==> k in SHOW_ORDER
  {
    var o := SHOW_ORDER;
    assert o[0] == Shr(7, 1) && o[1] == Com(7, 1) && o[2] == Req(7) && o[3] == Fin(1) && o[4] == Fin(2);
    assert o[5] == R2(1, 2) && o[6] == R2(2, 1) && o[7] == R1(1) && o[8] == R1(2) && o[9] == Setup;
  }

  ghost function Showcase(): (T: Ledger)
    ensures forall k :: k in T <==> OnShow(k)
    ensures forall k :: k in T ==> T[k] == Shown(k)
  {
    assert forall k :: OnShow(k) <==> k in SHOW_ORDER by {
      forall k ensures OnShow(k) <==> k in SHOW_ORDER { ShowOrder(k); }
    }
    map k | k in SHOW_ORDER :: Shown(k)
  }

  lemma ShowcaseSetup()
    ensures var T := Showcase();
      && HasSetup(T) && IsDkg(T) && Members(T) == {1, 2} && Params(T) == MpcParams(1, 2) && SetupJustified(T[Setup])
  {
    var T := Showcase();
    var vs := map[1 := EncPublicKey(0), 2 := EncPublicKey(0)];
    assert T[Setup] == Shown(Setup) && vs.Keys == {1, 2} && |vs| == |vs.Keys|;
  }

  lemma ShowcaseQuorum()
    ensures Keyed(Showcase()) && |CommitmentsOf(Showcase(), 7)| == 1
  {
    var cs := CommitmentsOf(Showcase(), 7);
    assert cs.Keys == {1} && |cs| == |cs.Keys|;
  }

  lemma ShowcaseAdmissible()
    ensures Admissible(Showcase())
  {
    ShowcaseSetup();
    ShowcaseQuorum();
    forall k | k in Showcase() ensures Justified(Showcase(), k) {
      ShowcaseJustified(Showcase(), k);
    }
  }

  lemma ShowcaseJustified(T: Ledger, k: Slot)
    requires (forall j :: j in T <==> OnShow(j)) && (forall j :: j in T ==> T[j] == Shown(j)) && k in T
    requires HasSetup(T) && IsDkg(T) && Members(T) == {1, 2} && Params(T) == MpcParams(1, 2) && SetupJustified(T[Setup])
    requires |CommitmentsOf(T, 7)| == 1
    ensures Justified(T, k)
  {
    match k
    case Setup =>
    case R1(_) =>
    case R2(_, _) => assert Round1Full(T);
    case Fin(_) => assert Round2Full(T);
    case Req(_) => assert FinalizeFull(T);
    case Com(_, _) =>
    case Shr(_, _) =>
  }

  ghost function ShowRound(): (txs: seq<Tx>)
    ensures |txs| == |SHOW_ORDER| && forall i :: 0 <= i < |txs| ==> txs[i] == Shown(SHOW_ORDER[i])
  {
    seq(|SHOW_ORDER|, i requires 0 <= i < |SHOW_ORDER| => Shown(SHOW_ORDER[i]))
  }

  lemma ShowRoundComplete()
    ensures CompleteRound(ShowRound(), Showcase())
  {
    var T, txs := Showcase(), ShowRound();
    forall i | 0 <= i < |txs| ensures SlotOf(txs[i]) in T && T[SlotOf(txs[i])] == txs[i] {
      ShowOrder(SHOW_ORDER[i]);
    }
    forall k | k in T ensures T[k] in txs {
      ShowOrder(k);
      var i :| 0 <= i < |SHOW_ORDER| && SHOW_ORDER[i] == k;
      assert txs[i] == Shown(k);
    }
  }

  lemma ShowRoundFalls()
    ensures Falling(ShowRound())
  {
    var txs := ShowRound();
    forall i | 0 <= i < |txs| ensures Rank(SlotOf(txs[i])) == [6, 5, 4, 3, 3, 2, 2, 1, 1, 0][i] {}
  }

  /** The number of complete rounds that always suffices is seven, no fewer. */
  lemma SevenRounds(frost: Frost, n: nat)
    ensures AlwaysQuiesce(frost, n) <==> n >= 7
  {
    if n >= 7 {
      forall T, rounds | ConflictFree(T) && AllComplete(rounds, T) && |rounds| == n
        ensures Quiescent(frost, Deliver(frost, GENESIS, Flatten(rounds)), T)
      {
        RoundsQuiesce(frost, T, rounds);
      }
    } else {
      var rounds := seq(n, _ => ShowRound());
      ShowcaseAdmissible();
      ShowRoundComplete();
      ShowRoundFalls();
      assert AllComplete(rounds, Showcase());
      SixRoundsFallShort(frost, Showcase(), rounds, Shr(7, 1));
    }
  }
}
