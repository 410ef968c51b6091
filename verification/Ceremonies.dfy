/** Key generation ceremonies on every run, whatever parameters they were begun with. */
module Ceremonies {
  import opened Core
  import opened FrostSuite
  import opened Chain
  import opened Runs
  import PanicFreedom

  // ------------------------------------------------------ an open ceremony

  /** Everything in `c` was accepted from its validators, and a later round has
      begun only if the earlier one was complete. */
  ghost predicate Logged(c: DkgCeremony, kept: seq<Tx>) {
    && DkgBegin(c.params, c.validators) in kept && |c.validators| == c.params.total
    && Round1From(c.round1, c.validators.Keys, kept)
    && Round2From(c.round2, c.validators.Keys, kept)
    && FinalizeFrom(c.finalize, c.validators.Keys, kept)
    && (c.round2 != map[] ==> c.R1Complete())
    && (c.finalize != map[] ==> c.params.total != 0 && c.R2Complete())
  }

  ghost predicate Round1From(round1: map<Identifier, Round1Package>, validators: set<Identifier>, kept: seq<Tx>) {
    forall v {:trigger round1[v]} :: v in round1 ==> v in validators && DkgRound1(v, round1[v]) in kept
  }

  ghost predicate Round2From(round2: map<(Identifier, Identifier), Sealed>, validators: set<Identifier>,
                             kept: seq<Tx>) {
    forall p {:trigger round2[p]} :: p in round2 ==> Routed(validators, p) && DkgRound2(p.0, p.1, round2[p]) in kept
  }

  ghost predicate FinalizeFrom(finalize: map<Identifier, PublicKeyPackage>, validators: set<Identifier>,
                               kept: seq<Tx>) {
    && (forall v {:trigger finalize[v]} :: v in finalize ==> v in validators && DkgFinalize(v, finalize[v]) in kept)
    && (forall v, w {:trigger finalize[v], finalize[w]} :: v in finalize && w in finalize ==>
          SamePkp(finalize[v], finalize[w]))
  }

  lemma KeysFrom(c: DkgCeremony, kept: seq<Tx>)
    requires Logged(c, kept)
    ensures c.round1.Keys <= c.validators.Keys && c.finalize.Keys <= c.validators.Keys
    ensures forall p :: p in c.round2 ==> Routed(c.validators.Keys, p)
  {
    forall v | v in c.round1 ensures v in c.validators { assert DkgRound1(v, c.round1[v]) in kept; }
    forall v | v in c.finalize ensures v in c.validators { assert DkgFinalize(v, c.finalize[v]) in kept; }
    forall p | p in c.round2 ensures Routed(c.validators.Keys, p) {
      assert DkgRound2(p.0, p.1, c.round2[p]) in kept;
    }
  }

  predicate Routed(validators: set<Identifier>, p: (Identifier, Identifier)) {
    p.0 in validators && p.1 in validators && p.0 != p.1
  }

  /** The counting barriers, said without counting. */
  ghost predicate BarriersMeanCoverage(c: DkgCeremony) {
    && (c.R1Complete() <==> c.round1.Keys == c.validators.Keys)
    && (c.FinalizeComplete() <==> c.finalize.Keys == c.validators.Keys)
    && (c.params.total != 0 ==>
          && c.params.total * (c.params.total - 1) < 0x1_0000_0000
          && (c.R2Complete() <==> forall p :: Routed(c.validators.Keys, p) ==> p in c.round2))
  }

  lemma LoggedBarriers(c: DkgCeremony, kept: seq<Tx>)
    requires Logged(c, kept)
    ensures BarriersMeanCoverage(c)
  {
    KeysFrom(c, kept);
    SubsetCardinality(c.round1.Keys, c.validators.Keys);
    SubsetCardinality(c.finalize.Keys, c.validators.Keys);
    if c.params.total != 0 {
      PanicFreedom.ProductBound(c.params.total);
      Round2Counted(c);
    }
  }

  lemma Round2Counted(c: DkgCeremony)
    requires |c.validators| == c.params.total && c.params.total != 0
    requires forall p :: p in c.round2 ==> Routed(c.validators.Keys, p)
    ensures c.R2Complete() <==> forall p :: Routed(c.validators.Keys, p) ==> p in c.round2
  {
    EnvelopesCounted(c.validators.Keys, c.round2.Keys);
    assert |c.validators.Keys| == c.params.total && |c.round2.Keys| == |c.round2|;
  }

  lemma EnvelopesCounted(validators: set<Identifier>, sent: set<(Identifier, Identifier)>)
    requires forall p :: p in sent ==> Routed(validators, p)
    ensures |sent| == |validators| * (|validators| - 1) <==> forall p :: Routed(validators, p) ==> p in sent
  {
    var pairs := OrderedPairs(validators);
    OrderedPairsCount(validators);
    forall p: (Identifier, Identifier) ensures p in pairs <==> Routed(validators, p) {
      assert p == (p.0, p.1);
    }
    SubsetCardinality(sent, pairs);
  }

  // ------------------------------------------------------ a concluded ceremony

  ghost predicate Round1Covered(kept: seq<Tx>, validators: set<Identifier>) {
    forall v :: v in validators ==> exists p :: DkgRound1(v, p) in kept
  }

  ghost predicate Round2Covered(kept: seq<Tx>, validators: set<Identifier>) {
    forall v, w :: v in validators && w in validators && v != w ==> exists e :: DkgRound2(v, w, e) in kept
  }

  /** Everyone finalized an agreeing package, and `pkp` is the smallest identifier's. */
  ghost predicate Unanimous(kept: seq<Tx>, validators: set<Identifier>, pkp: PublicKeyPackage) {
    && validators != {}
    && (forall v :: v in validators ==>
          exists p :: DkgFinalize(v, p) in kept && p.verifyingKey == pkp.verifyingKey
                      && p.verifyingShares == pkp.verifyingShares)
    && DkgFinalize(Min(validators), pkp) in kept
  }

  /** The group `g` is what the ceremony of `validators` came to. */
  ghost predicate Concluded(kept: seq<Tx>, params: MpcParams, validators: set<Identifier>, g: GroupConfig) {
    && g.params == params && g.validators == validators && |validators| == params.total
    && Unanimous(kept, validators, g.pkp) && Round2Covered(kept, validators)
    && (params.total != 1 ==> Round1Covered(kept, validators))
  }

  lemma StaysConcluded(kept: seq<Tx>, tx: Tx, params: MpcParams, validators: set<Identifier>, g: GroupConfig)
    requires Concluded(kept, params, validators, g)
    ensures Concluded(kept + [tx], params, validators, g)
  {
    assert forall t :: t in kept ==> t in kept + [tx];
    forall v | v in validators
      ensures exists p :: DkgFinalize(v, p) in kept + [tx] && p.verifyingKey == g.pkp.verifyingKey
                          && p.verifyingShares == g.pkp.verifyingShares
    {
      var p :| DkgFinalize(v, p) in kept
        && p.verifyingKey == g.pkp.verifyingKey && p.verifyingShares == g.pkp.verifyingShares;
    }
    forall v, w | v in validators && w in validators && v != w ensures exists e :: DkgRound2(v, w, e) in kept + [tx] {
      var e :| DkgRound2(v, w, e) in kept;
    }
    forall v | v in validators && params.total != 1 ensures exists p :: DkgRound1(v, p) in kept + [tx] {
      var p :| DkgRound1(v, p) in kept;
    }
  }

  lemma Concludes(c: DkgCeremony, kept: seq<Tx>)
    requires Logged(c, kept) && c.FinalizeComplete() && c.finalize != map[]
    ensures Concluded(kept, c.params, c.validators.Keys,
                      GroupConfig(c.params, c.finalize[Min(c.finalize.Keys)], c.validators.Keys))
  {
    LoggedBarriers(c, kept);
    RoundsCovered(c, kept);
    FinalizedByAll(c.finalize, c.validators.Keys, kept);
  }

  lemma RoundsCovered(c: DkgCeremony, kept: seq<Tx>)
    requires Logged(c, kept) && BarriersMeanCoverage(c) && c.finalize != map[]
    ensures Round2Covered(kept, c.validators.Keys)
    ensures c.params.total != 1 ==> Round1Covered(kept, c.validators.Keys)
  {
    var vs := c.validators.Keys;
    forall v, w | v in vs && w in vs && v != w ensures exists e :: DkgRound2(v, w, e) in kept {
      assert Routed(vs, (v, w)) && (v, w) in c.round2;
    }
    if c.params.total != 1 {
      assert |vs| >= 2;
      var a :| a in vs;
      assert |vs - {a}| >= 1;
      var b :| b in vs - {a};
      assert Routed(vs, (a, b)) && (a, b) in c.round2;
    }
  }

  lemma FinalizedByAll(finalize: map<Identifier, PublicKeyPackage>, validators: set<Identifier>, kept: seq<Tx>)
    requires FinalizeFrom(finalize, validators, kept) && finalize.Keys == validators && finalize != map[]
    ensures Unanimous(kept, validators, finalize[Min(finalize.Keys)])
  {
    var least := Min(finalize.Keys);
    forall v | v in validators
      ensures exists p :: DkgFinalize(v, p) in kept && p.verifyingKey == finalize[least].verifyingKey
                          && p.verifyingShares == finalize[least].verifyingShares
    {
      assert DkgFinalize(v, finalize[v]) in kept;
    }
  }

  // ------------------------------------------------------ every run

  /** The one setup transaction a run accepted is what its state goes back to. */
  ghost predicate GoesBack(s: State, kept: seq<Tx>) {
    && (s.ceremony.Some? ==> s.group.None? && Logged(s.ceremony.value, kept))
    && (forall i {:trigger SetUpBy(s, kept, kept[i])} :: 0 <= i < |kept| ==> SetUpBy(s, kept, kept[i]))
  }

  ghost predicate SetUpBy(s: State, kept: seq<Tx>, tx: Tx) {
    match tx
    case InitGroup(params, pkp, members) =>
      s.ceremony.None? && s.group == Some(GroupConfig(params, pkp, ToSet(members)))
    case DkgBegin(params, validators) =>
      if s.ceremony.Some? then s.ceremony.value.params == params && s.ceremony.value.validators == validators
      else s.group.Some? && Concluded(kept, params, validators.Keys, s.group.value)
    case _ => true
  }

  lemma LoggedMore(c: DkgCeremony, kept: seq<Tx>, tx: Tx)
    requires Logged(c, kept)
    ensures Logged(c, kept + [tx])
  {
    assert forall t :: t in kept ==> t in kept + [tx];
  }

  lemma Round1Logged(c: DkgCeremony, kept: seq<Tx>, from: Identifier, package: Round1Package)
    requires Logged(c, kept) && from in c.validators && from !in c.round1
    ensures Logged(c.(round1 := c.round1[from := package]), kept + [DkgRound1(from, package)])
  {
    var tx := DkgRound1(from, package);
    LoggedMore(c, kept, tx);
    KeysFrom(c, kept);
    SubsetCardinality(c.round1.Keys, c.validators.Keys);
    assert c.round2 == map[];
    assert tx in kept + [tx];
  }

  lemma Round2Logged(c: DkgCeremony, kept: seq<Tx>, from: Identifier, to: Identifier, sealed: Sealed)
    requires Logged(c, kept) && c.R1Complete() && Routed(c.validators.Keys, (from, to)) && (from, to) !in c.round2
    ensures Logged(c.(round2 := c.round2[(from, to) := sealed]), kept + [DkgRound2(from, to, sealed)])
  {
    var tx := DkgRound2(from, to, sealed);
    LoggedMore(c, kept, tx);
    assert c.finalize == map[] by {
      LoggedBarriers(c, kept);
    }
    assert tx in kept + [tx];
  }

  lemma FinalizeLogged(c: DkgCeremony, kept: seq<Tx>, from: Identifier, pkp: PublicKeyPackage)
    requires Logged(c, kept) && c.params.total != 0 && c.R2Complete() && from in c.validators && from !in c.finalize
    requires c.finalize != map[] ==> SamePkp(c.finalize[Min(c.finalize.Keys)], pkp)
    ensures Logged(c.(finalize := c.finalize[from := pkp]), kept + [DkgFinalize(from, pkp)])
  {
    var tx := DkgFinalize(from, pkp);
    LoggedMore(c, kept, tx);
    assert tx in kept + [tx];
    forall v | v in c.finalize ensures SamePkp(c.finalize[v], pkp) {
      assert SamePkp(c.finalize[v], c.finalize[Min(c.finalize.Keys)]);
    }
  }

  /** One accepted ceremony transaction: the ceremony goes on, or it concludes. */
  lemma CeremonyMoves(frost: Frost, s: State, kept: seq<Tx>, tx: Tx)
    requires s.ceremony.Some? && Logged(s.ceremony.value, kept)
    requires (tx.DkgRound1? || tx.DkgRound2? || tx.DkgFinalize?) && ApplyTx(frost, s, tx).Accepted?
    ensures var c, next := s.ceremony.value, ApplyTx(frost, s, tx).state;
      if next.ceremony.Some? then
        && next.group == s.group && Logged(next.ceremony.value, kept + [tx])
        && next.ceremony.value.params == c.params && next.ceremony.value.validators == c.validators
      else next.group.Some? && Concluded(kept + [tx], c.params, c.validators.Keys, next.group.value)
  {
    var c := s.ceremony.value;
    match tx
    case DkgRound1(from, package) => Round1Logged(c, kept, from, package);
    case DkgRound2(from, to, sealed) => Round2Logged(c, kept, from, to, sealed);
    case DkgFinalize(from, pkp) =>
      FinalizeLogged(c, kept, from, pkp);
      var c' := c.(finalize := c.finalize[from := pkp]);
      assert from in c'.finalize;
      if c'.FinalizeComplete() {
        Concludes(c', kept + [tx]);
      }
  }

  lemma GoesBackNext(frost: Frost, s: State, kept: seq<Tx>, tx: Tx)
    requires GoesBack(s, kept) && ApplyTx(frost, s, tx).Accepted?
    ensures GoesBack(ApplyTx(frost, s, tx).state, kept + [tx])
  {
    var next, all := ApplyTx(frost, s, tx).state, kept + [tx];
    assert all[|kept|] == tx;
    match tx {
      case DkgRound1(_, _) => CeremonyMoves(frost, s, kept, tx);
      case DkgRound2(_, _, _) => CeremonyMoves(frost, s, kept, tx);
      case DkgFinalize(_, _) => CeremonyMoves(frost, s, kept, tx);
      case _ =>
    }
    forall i | 0 <= i < |all| ensures SetUpBy(next, all, all[i]) {
      if i < |kept| {
        assert SetUpBy(s, kept, kept[i]);
        StillSetUp(frost, s, kept, tx, kept[i]);
      }
    }
  }

  lemma StillSetUp(frost: Frost, s: State, kept: seq<Tx>, tx: Tx, setup: Tx)
    requires GoesBack(s, kept) && ApplyTx(frost, s, tx).Accepted? && SetUpBy(s, kept, setup)
    ensures SetUpBy(ApplyTx(frost, s, tx).state, kept + [tx], setup)
  {
    match setup
    case InitGroup(_, _, _) =>
    case DkgBegin(params, validators) =>
      if s.ceremony.None? {
        StaysConcluded(kept, tx, params, validators.Keys, s.group.value);
      } else if tx.DkgRound1? || tx.DkgRound2? || tx.DkgFinalize? {
        CeremonyMoves(frost, s, kept, tx);
      }
    case _ =>
  }

  lemma {:induction false} AlwaysGoesBack(frost: Frost, txs: seq<Tx>)
    ensures GoesBack(Deliver(frost, GENESIS, txs), Kept(frost, GENESIS, txs))
  {
    if txs == [] {
      assert GoesBack(GENESIS, []);
    } else {
      var front, tx := txs[..|txs| - 1], txs[|txs| - 1];
      AlwaysGoesBack(frost, front);
      if ApplyTx(frost, Deliver(frost, GENESIS, front), tx).Accepted? {
        GoesBackNext(frost, Deliver(frost, GENESIS, front), Kept(frost, GENESIS, front), tx);
      }
    }
  }

  /** The counting comparisons mean what they stand for: in every reachable ceremony
      each is true exactly when everyone, or every ordered pair of distinct
      validators, is covered; and the product stays below 2^32. */
  lemma CountsMeanCoverage(frost: Frost, txs: seq<Tx>)
    ensures var s := Deliver(frost, GENESIS, txs);
      s.ceremony.Some? ==> BarriersMeanCoverage(s.ceremony.value)
  {
    AlwaysGoesBack(frost, txs);
    var s := Deliver(frost, GENESIS, txs);
    if s.ceremony.Some? {
      LoggedBarriers(s.ceremony.value, Kept(frost, GENESIS, txs));
    }
  }

  /** Rounds 1 and 2 take one package from each member and, once round 1 is covered, one
      envelope for each pair of distinct members, and record exactly that. */
  lemma RoundsIff(frost: Frost, txs: seq<Tx>, tx: Tx)
    requires Deliver(frost, GENESIS, txs).ceremony.Some? && (tx.DkgRound1? || tx.DkgRound2?)
    ensures var s := Deliver(frost, GENESIS, txs); var c, r := s.ceremony.value, ApplyTx(frost, s, tx);
      if tx.DkgRound1? then
        && (r.Accepted? <==> tx.from in c.validators && tx.from !in c.round1)
        && (r.Accepted? ==> r.state == s.(ceremony := Some(c.(round1 := c.round1[tx.from := tx.package]))))
      else
        && (r.Accepted? <==> c.round1.Keys == c.validators.Keys && Routed(c.validators.Keys, (tx.from, tx.to))
                             && (tx.from, tx.to) !in c.round2)
        && (r.Accepted? ==> r.state == s.(ceremony := Some(c.(round2 := c.round2[(tx.from, tx.to) := tx.sealed]))))
  {
    CountsMeanCoverage(frost, txs);
  }

  /** `from` may still finalize: round 2 is full, and its own slot is free. */
  ghost predicate MayFinalize(c: DkgCeremony, from: Identifier) {
    && c.params.total != 0 && (forall p :: Routed(c.validators.Keys, p) ==> p in c.round2)
    && from in c.validators && from !in c.finalize
  }

  /** Every package finalized so far has the verifying key and the verifying shares of `pkp`. */
  ghost predicate AgreesWithAll(c: DkgCeremony, pkp: PublicKeyPackage) {
    forall v :: v in c.finalize ==>
      c.finalize[v].verifyingKey == pkp.verifyingKey && c.finalize[v].verifyingShares == pkp.verifyingShares
  }

  /** A finalization is accepted exactly when it is its sender's turn and it agrees
      with all earlier ones in key and shares, whatever else the packages hold. */
  lemma FinalizeIff(frost: Frost, txs: seq<Tx>, from: Identifier, pkp: PublicKeyPackage)
    requires Deliver(frost, GENESIS, txs).ceremony.Some?
    ensures var s := Deliver(frost, GENESIS, txs);
      var c, r := s.ceremony.value, ApplyTx(frost, s, DkgFinalize(from, pkp));
      && (r.Accepted? <==> MayFinalize(c, from) && AgreesWithAll(c, pkp))
      && (r == Rejected(PkpMismatch(from)) <==> MayFinalize(c, from) && !AgreesWithAll(c, pkp))
  {
    AlwaysGoesBack(frost, txs);
    CountsMeanCoverage(frost, txs);
    var c := Deliver(frost, GENESIS, txs).ceremony.value;
    if c.finalize != map[] {
      var least := Min(c.finalize.Keys);
      assert forall v :: v in c.finalize ==> SamePkp(c.finalize[v], c.finalize[least]);
    }
  }

  /** A promoted ceremony collected all of round 2 and a unanimous finalize, and all
      of round 1 unless it was for one participant; the group key is the smallest
      identifier's package. */
  lemma PromotionIsUnanimous(frost: Frost, txs: seq<Tx>, params: MpcParams, validators: map<Identifier, EncPublicKey>)
    requires DkgBegin(params, validators) in Kept(frost, GENESIS, txs)
    requires Deliver(frost, GENESIS, txs).group.Some?
    ensures Concluded(Kept(frost, GENESIS, txs), params, validators.Keys, Deliver(frost, GENESIS, txs).group.value)
  {
    AlwaysGoesBack(frost, txs);
    var s, kept := Deliver(frost, GENESIS, txs), Kept(frost, GENESIS, txs);
    var i :| 0 <= i < |kept| && kept[i] == DkgBegin(params, validators);
    assert SetUpBy(s, kept, kept[i]);
  }

  // ------------------------------------------------------ does promotion imply round 1

  /** `txs` accepts a ceremony for `total` participants and promotes it. */
  ghost predicate Promotes(frost: Frost, txs: seq<Tx>, params: MpcParams, validators: map<Identifier, EncPublicKey>) {
    DkgBegin(params, validators) in Kept(frost, GENESIS, txs) && Deliver(frost, GENESIS, txs).group.Some?
  }

  /** Every promoted ceremony for `total` participants has a full round 1. */
  ghost predicate PromotionImpliesRound1(frost: Frost, total: u16) {
    forall txs, params, validators {:trigger Promotes(frost, txs, params, validators)} ::
      Promotes(frost, txs, params, validators) && params.total == total ==>
        Round1Covered(Kept(frost, GENESIS, txs), validators.Keys)
  }

  /** With a single participant the round-2 barrier is empty: for every threshold the
      ceremony can be finalized, and promoted, before any round-1 package arrives. */
  lemma LoneCeremonySkipsRound1(frost: Frost, threshold: u16, id: Identifier, key: EncPublicKey, pkp: PublicKeyPackage)
    ensures var params, vs := MpcParams(threshold, 1), map[id := key];
      var txs := [DkgBegin(params, vs), DkgFinalize(id, pkp)];
      && Deliver(frost, GENESIS, txs) == State(None, Some(GroupConfig(params, pkp, {id})), map[])
      && Kept(frost, GENESIS, txs) == txs
  {
    var params, vs := MpcParams(threshold, 1), map[id := key];
    var begin, fin := DkgBegin(params, vs), DkgFinalize(id, pkp);
    var c := DkgCeremony(params, vs, map[], map[], map[]);
    assert vs.Keys == {id} && |vs| == |vs.Keys|;
    assert Step(frost, GENESIS, begin) == State(Some(c), None, map[]);
    LoneFinalize(c, id, pkp);
    DeliverTwo(frost, GENESIS, begin, fin);
    KeptTwo(frost, GENESIS, begin, fin);
  }

  lemma LoneFinalize(c: DkgCeremony, id: Identifier, pkp: PublicKeyPackage)
    requires c.params.total == 1 && c.validators.Keys == {id} && c.round2 == map[] && c.finalize == map[]
    ensures ApplyFinalize(State(Some(c), None, map[]), id, pkp) ==
      Accepted(State(None, Some(GroupConfig(c.params, pkp, {id})), map[]))
  {
    assert map[][id := pkp] == map[id := pkp];
    assert map[id := pkp].Keys == {id};
  }

  lemma KeptTwo(frost: Frost, s: State, a: Tx, b: Tx)
    requires ApplyTx(frost, s, a).Accepted? && ApplyTx(frost, Step(frost, s, a), b).Accepted?
    ensures Kept(frost, s, [a, b]) == [a, b]
  {
    var one, two := [a], [a, b];
    assert one[..|one| - 1] == [] && two[..|two| - 1] == one;
    assert Deliver(frost, s, one) == Step(frost, s, a);
    assert Kept(frost, s, []) == [] && Deliver(frost, s, []) == s;
    assert Kept(frost, s, one) == [] + [a];
  }

  lemma NoRound1In(a: Tx, b: Tx, validators: set<Identifier>)
    requires !a.DkgRound1? && !b.DkgRound1? && 1 in validators
    ensures !Round1Covered([a, b], validators)
  {
    forall p ensures DkgRound1(1, p) !in [a, b] {}
  }

  /** Promotion implies a full round 1 for every number of participants but one,
      although the finalize branch looks only at round 2. */
  lemma Round1ImpliedIff(frost: Frost, total: u16)
    ensures PromotionImpliesRound1(frost, total) <==> total != 1
  {
    if total == 1 {
      var params, vs, pkp := MpcParams(1, 1), map[1 := EncPublicKey(0)], PublicKeyPackage(VerifyingKey(0), map[], 0);
      var txs := [DkgBegin(params, vs), DkgFinalize(1, pkp)];
      LoneCeremonySkipsRound1(frost, 1, 1, EncPublicKey(0), pkp);
      assert Promotes(frost, txs, params, vs) by { assert txs[0] in txs; }
      NoRound1In(txs[0], txs[1], vs.Keys);
    } else {
      forall txs, params, validators | Promotes(frost, txs, params, validators) && params.total == total
        ensures Round1Covered(Kept(frost, GENESIS, txs), validators.Keys)
      {
        PromotionIsUnanimous(frost, txs, params, validators);
      }
    }
  }
}
