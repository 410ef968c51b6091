/** The length of the accepted log, read off the state and the kind of setup. */
module Accounting {
  import opened Core
  import opened FrostSuite
  import opened Chain
  import opened Ledgers
  import opened Acceptance
  import opened Runs

  /** Accepted transactions a request has consumed so far. */
  function Weight(threshold: nat, status: RequestStatus): nat {
    match status
    case AwaitingCommitments(cs) => 1 + |cs|
    case Signing(_, _, shares) => 1 + threshold + |shares|
    case Completed(_, _) => 1 + 2 * threshold
    case Failed(_) => 1 + 2 * threshold
  }

  ghost function TotalWeight(threshold: nat, m: map<Uuid, RequestEntry>): nat
    decreases |m|
  {
    if m == map[] then 0
    else
      var k := Min(m.Keys);
      assert (m - {k}).Keys == m.Keys - {k};
      Weight(threshold, m[k].status) + TotalWeight(threshold, m - {k})
  }

  lemma {:induction false} WeightOfOne(threshold: nat, m: map<Uuid, RequestEntry>, k: Uuid)
    requires k in m
    ensures TotalWeight(threshold, m) == Weight(threshold, m[k].status) + TotalWeight(threshold, m - {k})
    decreases |m|
  {
    var least := Min(m.Keys);
    if k != least {
      var rest := m - {least};
      assert rest.Keys == m.Keys - {least};
      WeightOfOne(threshold, rest, k);
      var other := m - {k};
      assert other.Keys == m.Keys - {k};
      assert least in other && Min(other.Keys) in m.Keys;
      assert Min(other.Keys) == least;
      assert rest - {k} == other - {least};
    }
  }

  lemma WeightUpdate(threshold: nat, m: map<Uuid, RequestEntry>, k: Uuid, e: RequestEntry)
    ensures TotalWeight(threshold, m[k := e]) ==
      TotalWeight(threshold, m) + Weight(threshold, e.status)
      - (if k in m then Weight(threshold, m[k].status) else 0)
  {
    WeightOfOne(threshold, m[k := e], k);
    assert m[k := e] - {k} == m - {k};
    if k in m {
      WeightOfOne(threshold, m, k);
    } else {
      assert m - {k} == m;
    }
  }

  /** Accepted transactions behind a state; `dkg` says how the group was set up. */
  ghost function Size(s: State, dkg: bool): nat {
    if s.ceremony.Some? then
      var c := s.ceremony.value;
      1 + |c.round1| + |c.round2| + |c.finalize|
    else if s.group.Some? then
      var p := s.group.value.params;
      (if dkg then p.total * p.total + p.total + 1 else 1) + TotalWeight(p.threshold, s.requests)
    else 0
  }

  ghost predicate ByDkg(L: Ledger) {
    Keyed(L) && Setup in L && L[Setup].DkgBegin?
  }

  lemma SizeStep(frost: Frost, L: Ledger, tx: Tx)
    requires Admissible(L) && Extends(L, tx)
    ensures Size(View(frost, L[SlotOf(tx) := tx]), ByDkg(L[SlotOf(tx) := tx])) == Size(View(frost, L), ByDkg(L)) + 1
  {
    if L == map[] {
      FirstEntry(frost, tx);
    } else {
      assert Justified(L[SlotOf(tx) := tx], SlotOf(tx));
      match tx
      case DkgRound1(_, _) => PromotedIsFull(L); CeremonyStep(frost, L, tx);
      case DkgRound2(_, _, _) => PromotedIsFull(L); CeremonyStep(frost, L, tx);
      case DkgFinalize(_, _) => FinalizeSize(frost, L, tx);
      case _ => RequestSize(frost, L, tx);
    }
  }

  lemma FirstEntry(frost: Frost, tx: Tx)
    requires Extends(map[], tx)
    ensures Size(View(frost, map[SlotOf(tx) := tx]), ByDkg(map[SlotOf(tx) := tx])) == 1
    ensures map[][SlotOf(tx) := tx] == map[SlotOf(tx) := tx]
  {
    assert map[][SlotOf(tx) := tx] == map[SlotOf(tx) := tx];
    assert SlotOf(tx) in map[SlotOf(tx) := tx];
    assert Justified(map[SlotOf(tx) := tx], Setup);
    SetupStep(frost, map[], tx);
  }

  lemma FinalizeSize(frost: Frost, L: Ledger, tx: Tx)
    requires Admissible(L) && L != map[] && IsDkg(L) && tx.DkgFinalize? && Extends(L, tx)
    ensures Size(View(frost, L[SlotOf(tx) := tx]), true) == Size(View(frost, L), true) + 1
  {
    Round2BeforeFinalize(L, tx);
    FinalizeViews(frost, L, tx);
    PromotionSize(View(frost, L), View(frost, L[SlotOf(tx) := tx]), CeremonyOf(L), tx.from, tx.pkp);
  }

  lemma PromotionSize(s: State, s': State, c: DkgCeremony, from: Identifier, pkp: PublicKeyPackage)
    requires s.ceremony == Some(c) && from !in c.finalize && c.params.total >= 1
    requires c.R1Complete() && c.R2Complete()
    requires s' == Finalized(c, from, pkp)
    ensures Size(s', true) == Size(s, true) + 1
  {
    SquareCount(c.params.total);
    assert TotalWeight(c.params.threshold, map[]) == 0;
  }

  lemma Round2BeforeFinalize(L: Ledger, tx: Tx)
    requires Admissible(L) && L != map[] && IsDkg(L) && tx.DkgFinalize? && Extends(L, tx)
    ensures !FinalizeFull(L)
    ensures var c := CeremonyOf(L);
      c.params.total >= 1 && c.R1Complete() && c.R2Complete() && tx.from !in c.finalize
  {
    var L' := L[SlotOf(tx) := tx];
    assert Justified(L', Fin(tx.from));
    assert Round2Full(L) by {
      assert forall a, b :: R2(a, b) in L' <==> R2(a, b) in L;
    }
    PromotedIsFull(L);
    Barriers(L);
  }

  lemma SquareCount(n: nat)
    ensures n + n * (n - 1) + n == n * n + n
  {
  }

  lemma RequestSize(frost: Frost, L: Ledger, tx: Tx)
    requires Admissible(L) && L != map[] && Extends(L, tx)
    requires tx.SubmitRequest? || tx.SubmitCommitment? || tx.SubmitShare?
    ensures Size(View(frost, L[SlotOf(tx) := tx]), ByDkg(L)) == Size(View(frost, L), ByDkg(L)) + 1
  {
    RequestIsOpen(L, tx);
    var L', id, g := L[SlotOf(tx) := tx], tx.requestId, GroupOf(L);
    RequestInView(frost, L, View(frost, L), id);
    if tx.SubmitRequest? {
      RequestViews(frost, L, tx, View(frost, L));
      UpdateSize(View(frost, L), id, RequestEntry(id, tx.message, tx.randomizer, AwaitingCommitments(map[])), ByDkg(L));
    } else {
      NextView(frost, L, tx);
      EntryWeight(frost, g, L, tx);
      UpdateSize(View(frost, L), id, EntryOf(frost, g, L', id), ByDkg(L));
    }
  }

  lemma RequestIsOpen(L: Ledger, tx: Tx)
    requires Admissible(L) && L != map[] && Extends(L, tx)
    requires tx.SubmitRequest? || tx.SubmitCommitment? || tx.SubmitShare?
    ensures HasGroup(L) && (Req(tx.requestId) in L <==> !tx.SubmitRequest?)
  {
    var L', id := L[SlotOf(tx) := tx], tx.requestId;
    assert Justified(L', SlotOf(tx));
    SameGroup(L, tx);
    if !tx.SubmitRequest? {
      assert Com(id, tx.validator) in L' && Justified(L', Com(id, tx.validator));
      assert Justified(L, Req(id));
    }
  }

  lemma UpdateSize(s: State, id: Uuid, e: RequestEntry, dkg: bool)
    requires s.ceremony.None? && s.group.Some?
    ensures var t := s.group.value.params.threshold;
      Size(s.(requests := s.requests[id := e]), dkg) == Size(s, dkg) + Weight(t, e.status)
        - (if id in s.requests then Weight(t, s.requests[id].status) else 0)
  {
    WeightUpdate(s.group.value.params.threshold, s.requests, id, e);
  }

  lemma EntryWeight(frost: Frost, g: GroupConfig, L: Ledger, tx: Tx)
    requires Admissible(L) && L != map[] && Extends(L, tx) && g.params == Params(L)
    requires (tx.SubmitCommitment? || tx.SubmitShare?) && Req(tx.requestId) in L
    ensures Req(tx.requestId) in L[SlotOf(tx) := tx]
    ensures Weight(g.params.threshold, EntryOf(frost, g, L[SlotOf(tx) := tx], tx.requestId).status) ==
      1 + Weight(g.params.threshold, EntryOf(frost, g, L, tx.requestId).status)
  {
    if tx.SubmitCommitment? {
      var e := CommitmentEntry(frost, L, tx, g);
      CommitmentCount(L, tx);
      CommitmentWeight(g.params, e.message, CommitmentsOf(L, tx.requestId), tx.validator, tx.commitments);
    } else {
      var e := ShareEntry(frost, L, tx, g);
      ShareCount(frost, L, tx, g, e);
      ShareWeight(frost, g, e, tx.validator, tx.share);
    }
  }

  lemma CommitmentCount(L: Ledger, tx: Tx)
    requires Admissible(L) && L != map[] && Extends(L, tx) && tx.SubmitCommitment?
    ensures tx.validator !in CommitmentsOf(L, tx.requestId) && |CommitmentsOf(L, tx.requestId)| < Params(L).threshold
  {
    NewCommitter(L, tx);
    assert Justified(L[SlotOf(tx) := tx], SlotOf(tx));
    SetupKept(L, tx);
    CommitmentsProjection(L, tx, tx.requestId);
  }

  lemma CommitmentWeight(params: MpcParams, message: Message, cs: map<Identifier, Commitments>, v: Identifier,
                         c: Commitments)
    requires v !in cs && |cs| < params.threshold
    ensures Weight(params.threshold, AfterCommitment(params, message, cs[v := c])) == |cs| + 2
  {
    WholeQuorumIsTaken(params, message, cs[v := c]);
  }

  lemma ShareCount(frost: Frost, L: Ledger, tx: Tx, g: GroupConfig, e: RequestEntry)
    requires Admissible(L) && L != map[] && Extends(L, tx) && tx.SubmitShare? && g.params == Params(L)
    requires Req(tx.requestId) in L && e == EntryOf(frost, g, L, tx.requestId)
    ensures e.status.Signing? && tx.validator !in e.status.shares && |e.status.participants| == g.params.threshold
  {
    ShareStatus(frost, g, L, tx);
    assert Justified(L[SlotOf(tx) := tx], SlotOf(tx));
    SetupKept(L, tx);
    CommitmentsProjection(L, tx, tx.requestId);
    assert Shr(tx.requestId, tx.validator) !in L;
  }

  lemma ShareWeight(frost: Frost, g: GroupConfig, e: RequestEntry, v: Identifier, share: Share)
    requires e.status.Signing? && v !in e.status.shares && |e.status.participants| == g.params.threshold
    ensures Weight(g.params.threshold, AfterShare(frost, g.pkp, e.randomizer, e.status.signingPackage,
                                                  e.status.participants, e.status.shares[v := share]))
            == 1 + Weight(g.params.threshold, e.status)
  {
  }

  /** Log accounting: the number of accepted transactions is the state's size. */
  lemma {:induction false} LogLength(frost: Frost, txs: seq<Tx>)
    requires SoundRun(frost, txs)
    ensures |Kept(frost, GENESIS, txs)| == Size(Deliver(frost, GENESIS, txs), ByDkg(LedgerOf(frost, txs)))
  {
    if txs == [] {
    } else {
      var prefix, tx := txs[..|txs| - 1], txs[|txs| - 1];
      NextDelivery(frost, txs);
      RunIsView(frost, prefix);
      LogLength(frost, prefix);
      RunIsView(frost, txs);
      var L := LedgerOf(frost, prefix);
      if Extends(L, tx) {
        SizeStep(frost, L, tx);
      }
    }
  }

  /** Hence lifetimes are bounded: an open ceremony has accepted at most n^2 + n
      transactions, a promoted one n^2 + n + 1, a trusted setup one, and each request
      adds at most 1 + 2t. */
  ghost predicate WithinBound(s: State, dkg: bool, accepted: nat) {
    && (s.ceremony.Some? ==>
          var n: nat := s.ceremony.value.params.total;
          accepted <= n * n + n)
    && (s.group.Some? ==>
          var n: nat, t: nat := s.group.value.params.total, s.group.value.params.threshold;
          accepted <= (if dkg then n * n + n + 1 else 1) + Scale(|s.requests|, 1 + 2 * t))
  }

  /** `a` summands of `b`. */
  function Scale(a: nat, b: nat): nat {
    if a == 0 then 0 else Scale(a - 1, b) + b
  }

  lemma LogBound(frost: Frost, txs: seq<Tx>)
    requires SoundRun(frost, txs)
    ensures WithinBound(Deliver(frost, GENESIS, txs), ByDkg(LedgerOf(frost, txs)), |Kept(frost, GENESIS, txs)|)
  {
    LogLength(frost, txs);
    RunIsView(frost, txs);
    ViewBound(frost, LedgerOf(frost, txs), Deliver(frost, GENESIS, txs));
  }

  lemma ViewBound(frost: Frost, L: Ledger, s: State)
    requires Admissible(L) && s == View(frost, L)
    ensures WithinBound(s, ByDkg(L), Size(s, ByDkg(L)))
  {
    if s.group.Some? {
      ViewWeights(frost, L, s);
      SizeBound(s, ByDkg(L));
    } else if s.ceremony.Some? {
      Barriers(L);
      CeremonySize(L);
      OpenSize(s.ceremony.value);
    }
  }

  lemma OpenSize(c: DkgCeremony)
    requires CeremonyBounded(c) && !c.FinalizeComplete() && c.params.total >= 1
    ensures var n: nat := c.params.total; 1 + |c.round1| + |c.round2| + |c.finalize| <= n * n + n
  {
    SquareCount(c.params.total);
  }

  ghost predicate CeremonyBounded(c: DkgCeremony) {
    && |c.round1| <= c.params.total && |c.finalize| <= c.params.total
    && |c.round2| <= c.params.total * (c.params.total - 1)
  }

  lemma CeremonySize(L: Ledger)
    requires Admissible(L) && L != map[] && IsDkg(L)
    ensures Params(L).total >= 2
    ensures CeremonyBounded(CeremonyOf(L))
  {
    assert Justified(L, Setup);
    var V := Members(L);
    forall f | f in Round1Of(L) ensures f in V { assert Justified(L, R1(f)); }
    forall f | f in FinalizeOf(L) ensures f in V { assert Justified(L, Fin(f)); }
    SubsetCardinality(Round1Of(L).Keys, V);
    SubsetCardinality(FinalizeOf(L).Keys, V);
    Round2Bound(L, V);
  }

  lemma Round2Bound(L: Ledger, V: set<Identifier>)
    requires Admissible(L) && L != map[] && IsDkg(L) && V == Members(L)
    ensures |Round2Of(L)| <= |V| * (|V| - 1)
  {
    forall p | p in Round2Of(L) ensures p in OrderedPairs(V) {
      assert p == (p.0, p.1);
      assert Justified(L, R2(p.0, p.1));
    }
    OrderedPairsCount(V);
    SubsetCardinality(Round2Of(L).Keys, OrderedPairs(V));
  }

  lemma ViewWeights(frost: Frost, L: Ledger, s: State)
    requires Admissible(L) && s == View(frost, L) && s.group.Some?
    ensures s.ceremony.None?
    ensures forall id :: id in s.requests ==>
      Weight(s.group.value.params.threshold, s.requests[id].status) <= 1 + 2 * s.group.value.params.threshold as nat
  {
    forall id | id in s.requests
      ensures Weight(s.group.value.params.threshold, s.requests[id].status) <=
        1 + 2 * s.group.value.params.threshold as nat
    {
      EntryBound(frost, s.group.value, L, id);
      assert s.requests[id] == EntryOf(frost, s.group.value, L, id);
    }
  }

  lemma SizeBound(s: State, dkg: bool)
    requires s.group.Some? && s.ceremony.None?
    requires forall id :: id in s.requests ==>
      Weight(s.group.value.params.threshold, s.requests[id].status) <= 1 + 2 * s.group.value.params.threshold as nat
    ensures WithinBound(s, dkg, Size(s, dkg))
  {
    WeightBound(s.group.value.params.threshold, s.requests);
  }

  lemma EntryBound(frost: Frost, g: GroupConfig, L: Ledger, id: Uuid)
    requires Admissible(L) && Req(id) in L && g.params == Params(L)
    ensures Weight(g.params.threshold, EntryOf(frost, g, L, id).status) <= 1 + 2 * g.params.threshold as nat
  {
    SharesNeedQuorum(L, id);
  }

  lemma {:induction false} WeightBound(t: nat, m: map<Uuid, RequestEntry>)
    requires forall id :: id in m ==> Weight(t, m[id].status) <= 1 + 2 * t
    ensures TotalWeight(t, m) <= Scale(|m|, 1 + 2 * t)
    decreases |m|
  {
    if m == map[] {
      assert Scale(0, 1 + 2 * t) == 0;
    } else {
      var k := Min(m.Keys);
      var rest := m - {k};
      assert rest.Keys == m.Keys - {k};
      WeightBound(t, rest);
      assert |m| == |rest| + 1;
    }
  }
}
