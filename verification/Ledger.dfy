/** What a set of accepted transactions means, independent of their order.

    Every transaction fills one slot. A ledger is a set of transactions with at
    most one per slot; `Admissible` says which ledgers make sense and `View`
    reads the chain state off a ledger declaratively. `AcceptIff` ties both to
    the transition function: at `View(L)` it accepts exactly the transactions
    that extend `L` to a larger admissible ledger, and moves to that ledger's
    view. */
module Ledgers {
  import opened Core
  import opened FrostSuite
  import opened Chain

  datatype Slot =
    | Setup
    | R1(from: Identifier)
    | R2(from: Identifier, to: Identifier)
    | Fin(from: Identifier)
    | Req(id: Uuid)
    | Com(id: Uuid, validator: Identifier)
    | Shr(id: Uuid, validator: Identifier)

  function SlotOf(tx: Tx): Slot {
    match tx
    case InitGroup(_, _, _) => Setup
    case DkgBegin(_, _) => Setup
    case DkgRound1(from, _) => R1(from)
    case DkgRound2(from, to, _) => R2(from, to)
    case DkgFinalize(from, _) => Fin(from)
    case SubmitRequest(id, _, _) => Req(id)
    case SubmitCommitment(id, v, _) => Com(id, v)
    case SubmitShare(id, v, _) => Shr(id, v)
  }

  /** What is assumed of setup transactions: deserialized parameters bypass
      `NewParams`, and a one-participant ceremony has no round 2 to wait for. */
  predicate SoundSetup(tx: Tx) {
    && (tx.InitGroup? ==> tx.params.threshold >= 1)
    && (tx.DkgBegin? ==> tx.params.threshold >= 1 && tx.params.total >= 2)
  }

  type Ledger = map<Slot, Tx>

  ghost predicate Keyed(L: Ledger) {
    forall k {:trigger L[k]} :: k in L ==> SlotOf(L[k]) == k
  }

  ghost function Round1Of(L: Ledger): (r: map<Identifier, Round1Package>)
    requires Keyed(L)
    ensures forall f :: f in r <==> R1(f) in L
    ensures forall f :: f in r ==> r[f] == L[R1(f)].package
  {
    var ids := set k | k in L.Keys && k.R1? :: k.from;
    assert forall f :: f in ids ==> R1(f) in L && SlotOf(L[R1(f)]) == R1(f);
    assert forall f :: R1(f) in L ==> R1(f).R1? && f in ids;
    map f | f in ids :: L[R1(f)].package
  }

  ghost function Round2Of(L: Ledger): (r: map<(Identifier, Identifier), Sealed>)
    requires Keyed(L)
    ensures forall a: Identifier, b: Identifier :: (a, b) in r <==> R2(a, b) in L
    ensures forall a: Identifier, b: Identifier :: (a, b) in r ==> r[(a, b)] == L[R2(a, b)].sealed
  {
    var ids := set k | k in L.Keys && k.R2? :: (k.from, k.to);
    assert forall a: Identifier, b: Identifier :: (a, b) in ids ==> R2(a, b) in L && SlotOf(L[R2(a, b)]) == R2(a, b);
    assert forall a: Identifier, b: Identifier :: R2(a, b) in L ==> R2(a, b).R2? && (a, b) in ids;
    map p | p in ids :: L[R2(p.0, p.1)].sealed
  }

  ghost function FinalizeOf(L: Ledger): (r: map<Identifier, PublicKeyPackage>)
    requires Keyed(L)
    ensures forall f :: f in r <==> Fin(f) in L
    ensures forall f :: f in r ==> r[f] == L[Fin(f)].pkp
  {
    var ids := set k | k in L.Keys && k.Fin? :: k.from;
    assert forall f :: f in ids ==> Fin(f) in L && SlotOf(L[Fin(f)]) == Fin(f);
    assert forall f :: Fin(f) in L ==> Fin(f).Fin? && f in ids;
    map f | f in ids :: L[Fin(f)].pkp
  }

  ghost function RequestIds(L: Ledger): (r: set<Uuid>)
    ensures forall id :: id in r <==> Req(id) in L
  {
    var ids := set k | k in L.Keys && k.Req? :: k.id;
    assert forall id :: Req(id) in L ==> Req(id).Req? && id in ids;
    ids
  }

  ghost function CommitmentsOf(L: Ledger, id: Uuid): (r: map<Identifier, Commitments>)
    requires Keyed(L)
    ensures forall v :: v in r <==> Com(id, v) in L
    ensures forall v :: v in r ==> r[v] == L[Com(id, v)].commitments
  {
    var vs := set k | k in L.Keys && k.Com? && k.id == id :: k.validator;
    assert forall v :: v in vs ==> Com(id, v) in L && SlotOf(L[Com(id, v)]) == Com(id, v);
    assert forall v :: Com(id, v) in L ==> Com(id, v).Com? && v in vs;
    map v | v in vs :: L[Com(id, v)].commitments
  }

  ghost function SharesOf(L: Ledger, id: Uuid): (r: map<Identifier, Share>)
    requires Keyed(L)
    ensures forall v :: v in r <==> Shr(id, v) in L
    ensures forall v :: v in r ==> r[v] == L[Shr(id, v)].share
  {
    var vs := set k | k in L.Keys && k.Shr? && k.id == id :: k.validator;
    assert forall v :: v in vs ==> Shr(id, v) in L && SlotOf(L[Shr(id, v)]) == Shr(id, v);
    assert forall v :: Shr(id, v) in L ==> Shr(id, v).Shr? && v in vs;
    map v | v in vs :: L[Shr(id, v)].share
  }

  ghost predicate HasSetup(L: Ledger) {
    Keyed(L) && Setup in L
  }

  ghost function Params(L: Ledger): MpcParams
    requires HasSetup(L)
  {
    assert SlotOf(L[Setup]) == Setup;
    L[Setup].params
  }

  ghost function Members(L: Ledger): set<Identifier>
    requires HasSetup(L)
  {
    assert SlotOf(L[Setup]) == Setup;
    if L[Setup].InitGroup? then set v | v in L[Setup].members else L[Setup].validators.Keys
  }

  ghost predicate IsDkg(L: Ledger)
    requires HasSetup(L)
  {
    L[Setup].DkgBegin?
  }

  ghost predicate Round1Full(L: Ledger)
    requires HasSetup(L)
  {
    forall v :: v in Members(L) ==> R1(v) in L
  }

  ghost predicate Round2Full(L: Ledger)
    requires HasSetup(L)
  {
    forall a, b :: a in Members(L) && b in Members(L) && a != b ==> R2(a, b) in L
  }

  ghost predicate FinalizeFull(L: Ledger)
    requires HasSetup(L)
  {
    forall v :: v in Members(L) ==> Fin(v) in L
  }

  ghost predicate HasGroup(L: Ledger)
    requires HasSetup(L)
  {
    IsDkg(L) ==> FinalizeFull(L)
  }

  ghost predicate SetupJustified(tx: Tx) {
    && SoundSetup(tx)
    && (tx.InitGroup? ==> forall v :: v in tx.pkp.verifyingShares <==> v in tx.members)
    && (tx.DkgBegin? ==> |tx.validators| == tx.params.total)
  }

  /** The reason slot `k` may be filled, in terms of the rest of the ledger. */
  ghost predicate Justified(L: Ledger, k: Slot)
    requires HasSetup(L)
    requires k in L
  {
    match k
    case Setup => SetupJustified(L[k])
    case R1(f) => IsDkg(L) && f in Members(L)
    case R2(f, t) => IsDkg(L) && f != t && f in Members(L) && t in Members(L) && Round1Full(L)
    case Fin(f) =>
      && SlotOf(L[k]) == k
      && IsDkg(L) && f in Members(L) && Round2Full(L)
      && forall g :: Fin(g) in L ==>
           && SlotOf(L[Fin(g)]) == Fin(g)
           && L[Fin(g)].pkp.verifyingKey == L[k].pkp.verifyingKey
           && L[Fin(g)].pkp.verifyingShares == L[k].pkp.verifyingShares
    case Req(id) => HasGroup(L)
    case Com(id, v) => Req(id) in L && v in Members(L) && |CommitmentsOf(L, id)| <= Params(L).threshold
    case Shr(id, v) => Com(id, v) in L && |CommitmentsOf(L, id)| == Params(L).threshold
  }

  ghost predicate Admissible(L: Ledger) {
    && Keyed(L)
    && (L != map[] ==> Setup in L)
    && forall k {:trigger Justified(L, k)} :: k in L ==> Justified(L, k)
  }

  ghost function GroupOf(L: Ledger): GroupConfig
    requires Admissible(L) && L != map[]
    requires HasGroup(L)
  {
    assert Justified(L, Setup);
    if IsDkg(L) then
      DkgGroup(L)
    else
      GroupConfig(Params(L), L[Setup].pkp, Members(L))
  }

  /** A ceremony promotes the package its smallest identifier finalized. */
  ghost function DkgGroup(L: Ledger): GroupConfig
    requires Admissible(L) && L != map[]
    requires IsDkg(L) && FinalizeFull(L)
  {
    assert Justified(L, Setup);
    assert |L[Setup].validators.Keys| >= 2;
    assert Members(L) != {};
    var least := Min(Members(L));
    assert SlotOf(L[Fin(least)]) == Fin(least);
    GroupConfig(Params(L), L[Fin(least)].pkp, Members(L))
  }

  /** The status that `cs` and `ss` amount to. */
  ghost function StatusFrom(frost: Frost, g: GroupConfig, cs: map<Identifier, Commitments>, ss: map<Identifier, Share>,
                            message: Message, randomizer: Randomizer): RequestStatus
  {
    var pkg := SigningPackage(cs, message);
    if |cs| < g.params.threshold then AwaitingCommitments(cs)
    else if |ss| < |cs| then Signing(pkg, cs.Keys, ss)
    else
      match frost.aggregate(pkg, ss, g.pkp, randomizer)
      case Ok(signature) => Completed(cs.Keys, signature)
      case Err(reason) => Failed(reason)
  }

  ghost function StatusOf(frost: Frost, g: GroupConfig, L: Ledger, id: Uuid): RequestStatus
    requires Keyed(L) && Req(id) in L
  {
    assert SlotOf(L[Req(id)]) == Req(id);
    StatusFrom(frost, g, CommitmentsOf(L, id), SharesOf(L, id), L[Req(id)].message, L[Req(id)].randomizer)
  }

  ghost function EntryOf(frost: Frost, g: GroupConfig, L: Ledger, id: Uuid): RequestEntry
    requires Keyed(L) && Req(id) in L
  {
    assert SlotOf(L[Req(id)]) == Req(id);
    RequestEntry(id, L[Req(id)].message, L[Req(id)].randomizer, StatusOf(frost, g, L, id))
  }

  ghost function RequestsOf(frost: Frost, g: GroupConfig, L: Ledger): map<Uuid, RequestEntry>
    requires Keyed(L)
  {
    map id | id in RequestIds(L) :: EntryOf(frost, g, L, id)
  }

  ghost function CeremonyOf(L: Ledger): DkgCeremony
    requires HasSetup(L) && IsDkg(L)
  {
    DkgCeremony(Params(L), L[Setup].validators, Round1Of(L), Round2Of(L), FinalizeOf(L))
  }

  /** The chain state that a ledger stands for. */
  ghost function View(frost: Frost, L: Ledger): State
    requires Admissible(L)
  {
    if L == map[] then GENESIS
    else if HasGroup(L) then State(None, Some(GroupOf(L)), RequestsOf(frost, GroupOf(L), L))
    else State(Some(CeremonyOf(L)), None, map[])
  }

  // ---------------------------------------------------------------- counting

  /** The three counting barriers of a ceremony are equivalent to fullness. */
  lemma {:induction false} Barriers(L: Ledger)
    requires Admissible(L) && L != map[] && IsDkg(L)
    ensures CeremonyOf(L).params.total >= 2
    ensures CeremonyOf(L).R1Complete() <==> Round1Full(L)
    ensures CeremonyOf(L).R2Complete() <==> Round2Full(L)
    ensures CeremonyOf(L).FinalizeComplete() <==> FinalizeFull(L)
  {
    assert Justified(L, Setup);
    var V := Members(L);
    var c := CeremonyOf(L);
    assert |V| == c.params.total;
    forall f | f in c.round1 ensures f in V { assert Justified(L, R1(f)); }
    forall f | f in c.finalize ensures f in V { assert Justified(L, Fin(f)); }
    SubsetCardinality(c.round1.Keys, V);
    SubsetCardinality(c.finalize.Keys, V);
    Round2Barrier(L);
  }

  lemma Round2Barrier(L: Ledger)
    requires Admissible(L) && L != map[] && IsDkg(L)
    ensures |Round2Of(L)| == |Members(L)| * (|Members(L)| - 1) <==> Round2Full(L)
  {
    var V := Members(L);
    var pairs := OrderedPairs(V);
    var sent := Round2Of(L).Keys;
    forall p | p in sent ensures p in pairs {
      assert p == (p.0, p.1);
      assert Justified(L, R2(p.0, p.1));
    }
    SubsetCardinality(sent, pairs);
    OrderedPairsCount(V);
    if sent == pairs {
      forall a, b | a in V && b in V && a != b ensures R2(a, b) in L {
        assert (a, b) in pairs;
      }
    }
    if Round2Full(L) {
      forall p | p in pairs ensures p in sent {
        assert p == (p.0, p.1);
      }
    }
  }
}
