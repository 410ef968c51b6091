/** The transition function accepts exactly the extensions of an admissible
    ledger. One lemma per transaction kind, then the summary `AcceptIff`. */
module Acceptance {
  import opened Core
  import opened FrostSuite
  import opened Chain
  import opened Ledgers

  ghost predicate Extends(L: Ledger, tx: Tx) {
    SlotOf(tx) !in L && Admissible(L[SlotOf(tx) := tx])
  }

  ghost predicate AcceptsExactlyExtensions(frost: Frost, L: Ledger, tx: Tx)
    requires Admissible(L)
  {
    var r := ApplyTx(frost, View(frost, L), tx);
    && !r.Panicked?
    && (r.Accepted? <==> Extends(L, tx))
    && (Extends(L, tx) ==> r.state == View(frost, L[SlotOf(tx) := tx]))
  }

  /** Only a setup transaction that the empty chain accepts has to be sound. */
  ghost predicate SoundIfAccepted(frost: Frost, L: Ledger, tx: Tx) {
    L == map[] && ApplyTx(frost, GENESIS, tx).Accepted? ==> SoundSetup(tx)
  }

  lemma ExtensionIsSound(L: Ledger, tx: Tx)
    requires Extends(L, tx)
    ensures SoundSetup(tx)
  {
    if SlotOf(tx) == Setup {
      assert Justified(L[SlotOf(tx) := tx], Setup);
    }
  }

  lemma SetupStep(frost: Frost, L: Ledger, tx: Tx)
    requires Admissible(L)
    requires tx.InitGroup? || tx.DkgBegin?
    requires SoundIfAccepted(frost, L, tx)
    ensures AcceptsExactlyExtensions(frost, L, tx)
  {
    var L' := L[Setup := tx];
    if L == map[] {
      assert Admissible(L') ==> SetupJustified(tx) by {
        if Admissible(L') { assert Justified(L', Setup); }
      }
      if SetupJustified(tx) {
        assert forall k :: k in L' ==> k == Setup;
        assert Justified(L', Setup);
        assert Admissible(L');
        if tx.DkgBegin? {
          assert |Members(L')| >= 2;
          var v :| v in Members(L');
          assert Fin(v) !in L';
          assert View(frost, L').ceremony == Some(DkgCeremony(tx.params, tx.validators, map[], map[], map[]));
        } else {
          assert RequestsOf(frost, GroupOf(L'), L') == map[];
        }
      }
    }
  }

  // Filling a slot updates one projection of the ledger and leaves the others alone.

  lemma Round1Projection(L: Ledger, tx: Tx)
    requires Keyed(L) && SlotOf(tx) !in L
    ensures Keyed(L[SlotOf(tx) := tx])
    ensures Round1Of(L[SlotOf(tx) := tx]) ==
      if tx.DkgRound1? then Round1Of(L)[tx.from := tx.package] else Round1Of(L)
  {
  }

  lemma Round2Projection(L: Ledger, tx: Tx)
    requires Keyed(L) && SlotOf(tx) !in L
    ensures Keyed(L[SlotOf(tx) := tx])
    ensures Round2Of(L[SlotOf(tx) := tx]) ==
      if tx.DkgRound2? then Round2Of(L)[(tx.from, tx.to) := tx.sealed] else Round2Of(L)
  {
    var L' := L[SlotOf(tx) := tx];
    var expected := if tx.DkgRound2? then Round2Of(L)[(tx.from, tx.to) := tx.sealed] else Round2Of(L);
    forall p: (Identifier, Identifier)
      ensures p in Round2Of(L') <==> p in expected
      ensures p in expected ==> Round2Of(L')[p] == expected[p]
    {
      assert p == (p.0, p.1);
    }
  }

  lemma FinalizeProjection(L: Ledger, tx: Tx)
    requires Keyed(L) && SlotOf(tx) !in L
    ensures Keyed(L[SlotOf(tx) := tx])
    ensures FinalizeOf(L[SlotOf(tx) := tx]) ==
      if tx.DkgFinalize? then FinalizeOf(L)[tx.from := tx.pkp] else FinalizeOf(L)
  {
  }

  lemma CommitmentsProjection(L: Ledger, tx: Tx, id: Uuid)
    requires Keyed(L) && SlotOf(tx) !in L
    ensures Keyed(L[SlotOf(tx) := tx])
    ensures CommitmentsOf(L[SlotOf(tx) := tx], id) ==
      if tx.SubmitCommitment? && tx.requestId == id
      then CommitmentsOf(L, id)[tx.validator := tx.commitments] else CommitmentsOf(L, id)
  {
  }

  lemma SharesProjection(L: Ledger, tx: Tx, id: Uuid)
    requires Keyed(L) && SlotOf(tx) !in L
    ensures Keyed(L[SlotOf(tx) := tx])
    ensures SharesOf(L[SlotOf(tx) := tx], id) ==
      if tx.SubmitShare? && tx.requestId == id
      then SharesOf(L, id)[tx.validator := tx.share] else SharesOf(L, id)
  {
  }

  lemma SetupKept(L: Ledger, tx: Tx)
    requires HasSetup(L) && SlotOf(tx) !in L
    ensures HasSetup(L[SlotOf(tx) := tx])
    ensures Members(L[SlotOf(tx) := tx]) == Members(L) && Params(L[SlotOf(tx) := tx]) == Params(L)
  {
  }

  /** A new entry that is itself justified disturbs no older justification. */
  lemma StillJustified(L: Ledger, tx: Tx, L': Ledger, k: Slot)
    requires Admissible(L) && L != map[] && SlotOf(tx) !in L
    requires L' == L[SlotOf(tx) := tx] && Keyed(L') && Justified(L', SlotOf(tx))
    requires k in L
    ensures Justified(L', k)
  {
    assert Justified(L, k);
    match k
    case Setup =>
    case R1(_) =>
    case R2(_, _) => assert Round1Full(L');
    case Fin(_) => StillAgreed(L, tx, L', k);
    case Req(_) => assert HasGroup(L');
    case Com(id, _) => CommitmentsProjection(L, tx, id);
    case Shr(id, _) => CommitmentsProjection(L, tx, id);
  }

  lemma StillAgreed(L: Ledger, tx: Tx, L': Ledger, k: Slot)
    requires Admissible(L) && L != map[] && SlotOf(tx) !in L
    requires L' == L[SlotOf(tx) := tx] && Keyed(L') && Justified(L', SlotOf(tx))
    requires k in L && k.Fin?
    ensures Justified(L', k)
  {
    assert Justified(L, k);
    assert Round2Full(L');
    forall g | Fin(g) in L'
      ensures SlotOf(L'[Fin(g)]) == Fin(g) && SamePkp(L'[Fin(g)].pkp, L'[k].pkp)
    {
      if Fin(g) in L { assert L'[Fin(g)] == L[Fin(g)]; }
    }
  }

  lemma ExtendsIff(L: Ledger, tx: Tx)
    requires Admissible(L) && L != map[] && SlotOf(tx) !in L
    ensures Keyed(L[SlotOf(tx) := tx])
    ensures Extends(L, tx) <==> Justified(L[SlotOf(tx) := tx], SlotOf(tx))
  {
    var L' := L[SlotOf(tx) := tx];
    if Justified(L', SlotOf(tx)) {
      forall k | k in L' ensures Justified(L', k) {
        if k in L { StillJustified(L, tx, L', k); }
      }
    }
  }

  /** Before setup nothing but a setup transaction is accepted. */
  lemma NothingBeforeSetup(frost: Frost, tx: Tx)
    requires SlotOf(tx) != Setup
    ensures AcceptsExactlyExtensions(frost, map[], tx)
  {
    assert SlotOf(tx) in map[SlotOf(tx) := tx];
  }

  lemma Round1Step(frost: Frost, L: Ledger, tx: Tx)
    requires Admissible(L) && L != map[] && tx.DkgRound1?
    ensures AcceptsExactlyExtensions(frost, L, tx)
  {
    if IsDkg(L) && !FinalizeFull(L) {
      if R1(tx.from) !in L {
        ExtendsIff(L, tx);
        SetupKept(L, tx);
        if Extends(L, tx) {
          CeremonyStep(frost, L, tx);
        }
      }
    } else {
      Round1TooLate(L, tx);
    }
  }

  lemma Round1TooLate(L: Ledger, tx: Tx)
    requires Admissible(L) && L != map[] && tx.DkgRound1? && HasGroup(L)
    ensures !Extends(L, tx)
  {
    if Extends(L, tx) {
      assert Justified(L[SlotOf(tx) := tx], SlotOf(tx));
      SetupKept(L, tx);
      PromotedIsFull(L);
    }
  }

  /** Promotion implies that all three rounds are full, although the finalize
      branch checks only round 2. */
  lemma PromotedIsFull(L: Ledger)
    requires Admissible(L) && L != map[] && IsDkg(L)
    ensures FinalizeFull(L) ==> Round2Full(L)
    ensures Round2Full(L) ==> Round1Full(L)
  {
    assert Justified(L, Setup);
    assert |Members(L)| >= 2;
    var a :| a in Members(L);
    if Fin(a) in L {
      assert Justified(L, Fin(a));
    }
    if Round2Full(L) {
      assert |Members(L) - {a}| >= 1;
      var b :| b in Members(L) - {a};
      assert Justified(L, R2(a, b));
    }
  }

  lemma CeremonyStep(frost: Frost, L: Ledger, tx: Tx)
    requires Admissible(L) && L != map[] && IsDkg(L) && !FinalizeFull(L)
    requires tx.DkgRound1? || tx.DkgRound2?
    requires Extends(L, tx)
    ensures View(frost, L).ceremony == Some(CeremonyOf(L))
    ensures View(frost, L[SlotOf(tx) := tx]) == State(Some(CeremonyOf(L[SlotOf(tx) := tx])), None, map[])
    ensures CeremonyOf(L[SlotOf(tx) := tx]) ==
      if tx.DkgRound1? then CeremonyOf(L).(round1 := CeremonyOf(L).round1[tx.from := tx.package])
      else CeremonyOf(L).(round2 := CeremonyOf(L).round2[(tx.from, tx.to) := tx.sealed])
  {
    Round1Projection(L, tx);
    Round2Projection(L, tx);
    FinalizeProjection(L, tx);
    var v :| v in Members(L) && Fin(v) !in L;
    assert Fin(v) !in L[SlotOf(tx) := tx];
  }

  lemma Round2Step(frost: Frost, L: Ledger, tx: Tx)
    requires Admissible(L) && L != map[] && tx.DkgRound2?
    ensures AcceptsExactlyExtensions(frost, L, tx)
  {
    if IsDkg(L) && !FinalizeFull(L) {
      Barriers(L);
      if R2(tx.from, tx.to) !in L {
        Round2ExtendsIff(L, tx);
        if Extends(L, tx) {
          CeremonyStep(frost, L, tx);
        }
      }
    } else {
      Round2TooLate(L, tx);
    }
  }

  lemma Round2ExtendsIff(L: Ledger, tx: Tx)
    requires Admissible(L) && L != map[] && IsDkg(L) && tx.DkgRound2? && SlotOf(tx) !in L
    ensures Extends(L, tx) <==>
      tx.from != tx.to && tx.from in Members(L) && tx.to in Members(L) && Round1Full(L)
  {
    ExtendsIff(L, tx);
    SetupKept(L, tx);
    assert forall v :: R1(v) in L[SlotOf(tx) := tx] <==> R1(v) in L;
  }

  lemma Round2TooLate(L: Ledger, tx: Tx)
    requires Admissible(L) && L != map[] && tx.DkgRound2? && HasGroup(L)
    ensures !Extends(L, tx)
  {
    if Extends(L, tx) {
      assert Justified(L[SlotOf(tx) := tx], SlotOf(tx));
      PromotedIsFull(L);
    }
  }

  lemma FinalizeStep(frost: Frost, L: Ledger, tx: Tx)
    requires Admissible(L) && L != map[] && tx.DkgFinalize?
    ensures AcceptsExactlyExtensions(frost, L, tx)
  {
    if IsDkg(L) && !FinalizeFull(L) {
      Barriers(L);
      FinalizeRule(View(frost, L), CeremonyOf(L), tx.from, tx.pkp);
      if Fin(tx.from) !in L {
        FinalizeExtendsIff(L, tx);
        if Extends(L, tx) {
          FinalizeViews(frost, L, tx);
        }
      }
    } else {
      FinalizeTooLate(L, tx);
    }
  }

  /** The state after the finalize branch has recorded a package in `c`. */
  function Finalized(c: DkgCeremony, from: Identifier, pkp: PublicKeyPackage): State {
    var fin := c.finalize[from := pkp];
    assert from in fin;
    if |fin| == c.params.total
    then State(None, Some(GroupConfig(c.params, fin[Min(fin.Keys)], c.validators.Keys)), map[])
    else State(Some(c.(finalize := fin)), None, map[])
  }

  /** The finalize branch in one view: when it accepts, and what it leads to. */
  lemma FinalizeRule(s: State, c: DkgCeremony, from: Identifier, pkp: PublicKeyPackage)
    requires s == State(Some(c), None, map[]) && c.params.total >= 2
    ensures var r := ApplyFinalize(s, from, pkp);
      && !r.Panicked?
      && (r.Accepted? <==>
            && c.R2Complete() && from in c.validators && from !in c.finalize
            && (c.finalize == map[] || SamePkp(c.finalize[Min(c.finalize.Keys)], pkp)))
      && (r.Accepted? ==> r.state == Finalized(c, from, pkp))
  {
  }

  lemma FinalizeExtendsIff(L: Ledger, tx: Tx)
    requires Admissible(L) && L != map[] && IsDkg(L) && tx.DkgFinalize? && SlotOf(tx) !in L
    ensures var fin := FinalizeOf(L);
      Extends(L, tx) <==>
        tx.from in Members(L) && Round2Full(L) && (fin == map[] || SamePkp(fin[Min(fin.Keys)], tx.pkp))
  {
    ExtendsIff(L, tx);
    SetupKept(L, tx);
    AgreementCheck(L, tx);
    assert Round2Full(L[SlotOf(tx) := tx]) <==> Round2Full(L) by {
      assert forall a, b :: R2(a, b) in L[SlotOf(tx) := tx] <==> R2(a, b) in L;
    }
  }

  lemma FinalizeTooLate(L: Ledger, tx: Tx)
    requires Admissible(L) && L != map[] && tx.DkgFinalize? && HasGroup(L)
    ensures !Extends(L, tx)
  {
    if Extends(L, tx) {
      assert Justified(L[SlotOf(tx) := tx], SlotOf(tx));
      SetupKept(L, tx);
    }
  }

  /** Checking against one earlier package checks against all of them. */
  lemma AgreementCheck(L: Ledger, tx: Tx)
    requires Admissible(L) && L != map[] && IsDkg(L)
    requires tx.DkgFinalize? && Fin(tx.from) !in L
    requires Keyed(L[SlotOf(tx) := tx])
    ensures var fin := FinalizeOf(L);
      (fin == map[] || SamePkp(fin[Min(fin.Keys)], tx.pkp)) <==>
      forall g :: Fin(g) in L[SlotOf(tx) := tx] ==>
        SlotOf(L[SlotOf(tx) := tx][Fin(g)]) == Fin(g) && SamePkp(L[SlotOf(tx) := tx][Fin(g)].pkp, tx.pkp)
  {
    var fin := FinalizeOf(L);
    if fin != map[] {
      var m := Min(fin.Keys);
      assert Justified(L, Fin(m));
      assert Fin(m) in L[SlotOf(tx) := tx];
    }
  }

  lemma FinalizeViews(frost: Frost, L: Ledger, tx: Tx)
    requires Admissible(L) && L != map[] && IsDkg(L) && !FinalizeFull(L)
    requires tx.DkgFinalize? && Extends(L, tx)
    ensures View(frost, L[SlotOf(tx) := tx]) == Finalized(CeremonyOf(L), tx.from, tx.pkp)
  {
    var L' := L[SlotOf(tx) := tx];
    Round1Projection(L, tx);
    Round2Projection(L, tx);
    FinalizeProjection(L, tx);
    Barriers(L');
    assert CeremonyOf(L') == CeremonyOf(L).(finalize := CeremonyOf(L).finalize[tx.from := tx.pkp]);
    NoRequestsBeforeGroup(L);
    if FinalizeFull(L') {
      FinalizersAreMembers(L');
      assert RequestIds(L') == RequestIds(L);
      assert RequestsOf(frost, GroupOf(L'), L') == map[];
    }
  }

  lemma NoRequestsBeforeGroup(L: Ledger)
    requires Admissible(L) && L != map[] && !HasGroup(L)
    ensures RequestIds(L) == {}
  {
    forall id ensures Req(id) !in L { assert Req(id) in L ==> Justified(L, Req(id)); }
  }

  lemma FinalizersAreMembers(L: Ledger)
    requires Admissible(L) && L != map[] && IsDkg(L) && FinalizeFull(L)
    ensures FinalizeOf(L).Keys == Members(L)
  {
    forall f | f in FinalizeOf(L) ensures f in Members(L) { assert Justified(L, Fin(f)); }
  }

  lemma RequestStep(frost: Frost, L: Ledger, tx: Tx)
    requires Admissible(L) && L != map[] && tx.SubmitRequest?
    ensures AcceptsExactlyExtensions(frost, L, tx)
  {
    if Req(tx.requestId) in L {
      assert Justified(L, Req(tx.requestId));
    } else {
      ExtendsIff(L, tx);
      SameGroup(L, tx);
      if HasGroup(L) {
        RequestViews(frost, L, tx, View(frost, L));
      }
    }
  }

  lemma RequestViews(frost: Frost, L: Ledger, tx: Tx, s: State)
    requires Admissible(L) && L != map[] && tx.SubmitRequest? && Extends(L, tx) && HasGroup(L) && s == View(frost, L)
    ensures View(frost, L[SlotOf(tx) := tx]) == s.(requests := s.requests[tx.requestId :=
      RequestEntry(tx.requestId, tx.message, tx.randomizer, AwaitingCommitments(map[]))])
  {
    SameGroup(L, tx);
    RequestsUpdate(frost, GroupOf(L), L, tx);
    FreshEntry(frost, GroupOf(L), L, tx);
  }

  lemma FreshEntry(frost: Frost, g: GroupConfig, L: Ledger, tx: Tx)
    requires Admissible(L) && L != map[] && tx.SubmitRequest? && Extends(L, tx) && g.params == Params(L)
    ensures EntryOf(frost, g, L[SlotOf(tx) := tx], tx.requestId) ==
      RequestEntry(tx.requestId, tx.message, tx.randomizer, AwaitingCommitments(map[]))
  {
    CommitmentsProjection(L, tx, tx.requestId);
    NoRequestNoCommitments(L, tx.requestId);
    assert Justified(L, Setup);
  }

  lemma NoRequestNoCommitments(L: Ledger, id: Uuid)
    requires Admissible(L) && L != map[] && Req(id) !in L
    ensures CommitmentsOf(L, id) == map[]
    ensures SharesOf(L, id) == map[]
  {
    forall v ensures Com(id, v) !in L { assert Com(id, v) in L ==> Justified(L, Com(id, v)); }
    forall v ensures Shr(id, v) !in L { assert Shr(id, v) in L ==> Justified(L, Shr(id, v)); }
  }

  /** Request traffic neither creates nor changes the group. */
  lemma SameGroup(L: Ledger, tx: Tx)
    requires Admissible(L) && L != map[] && SlotOf(tx) !in L
    requires tx.SubmitRequest? || tx.SubmitCommitment? || tx.SubmitShare?
    ensures Keyed(L[SlotOf(tx) := tx])
    ensures HasGroup(L[SlotOf(tx) := tx]) <==> HasGroup(L)
    ensures Extends(L, tx) && HasGroup(L) ==> GroupOf(L[SlotOf(tx) := tx]) == GroupOf(L)
  {
    assert forall v :: Fin(v) in L[SlotOf(tx) := tx] <==> Fin(v) in L;
  }

  /** Entries of other requests are untouched. */
  lemma EntriesFrame(frost: Frost, g: GroupConfig, L: Ledger, tx: Tx, own: Uuid)
    requires Admissible(L) && L != map[] && SlotOf(tx) !in L && Keyed(L[SlotOf(tx) := tx])
    requires (tx.SubmitRequest? || tx.SubmitCommitment? || tx.SubmitShare?) && tx.requestId == own
    ensures forall id :: id in RequestIds(L) && id != own ==>
      EntryOf(frost, g, L[SlotOf(tx) := tx], id) == EntryOf(frost, g, L, id)
  {
    forall id | id in RequestIds(L) && id != own
      ensures EntryOf(frost, g, L[SlotOf(tx) := tx], id) == EntryOf(frost, g, L, id)
    {
      CommitmentsProjection(L, tx, id);
      SharesProjection(L, tx, id);
    }
  }

  lemma RequestsUpdate(frost: Frost, g: GroupConfig, L: Ledger, tx: Tx)
    requires Admissible(L) && L != map[] && SlotOf(tx) !in L && Keyed(L[SlotOf(tx) := tx])
    requires tx.SubmitRequest? || ((tx.SubmitCommitment? || tx.SubmitShare?) && Req(tx.requestId) in L)
    ensures Req(tx.requestId) in L[SlotOf(tx) := tx]
    ensures RequestsOf(frost, g, L[SlotOf(tx) := tx]) ==
      RequestsOf(frost, g, L)[tx.requestId := EntryOf(frost, g, L[SlotOf(tx) := tx], tx.requestId)]
  {
    var id, L' := tx.requestId, L[SlotOf(tx) := tx];
    EntriesFrame(frost, g, L, tx, id);
    IdsUpdate(L, tx);
    SameRequests(RequestsOf(frost, g, L'), RequestsOf(frost, g, L)[id := EntryOf(frost, g, L', id)]);
  }

  lemma IdsUpdate(L: Ledger, tx: Tx)
    requires tx.SubmitRequest? || ((tx.SubmitCommitment? || tx.SubmitShare?) && Req(tx.requestId) in L)
    ensures RequestIds(L[SlotOf(tx) := tx]) == RequestIds(L) + {tx.requestId}
  {
  }

  lemma SameRequests(a: map<Uuid, RequestEntry>, b: map<Uuid, RequestEntry>)
    requires a.Keys == b.Keys && forall id :: id in a ==> a[id] == b[id]
    ensures a == b
  {
  }

  /** `s` shows request `id` and the group as the ledger has them. */
  ghost predicate Shows(frost: Frost, s: State, g: GroupConfig, L: Ledger, id: Uuid)
    requires HasSetup(L)
  {
    && s.group == Some(g) && g.validators == Members(L) && g.params == Params(L)
    && (id in s.requests <==> Req(id) in L)
    && (Req(id) in L ==> s.requests[id] == EntryOf(frost, g, L, id))
  }

  lemma RequestInView(frost: Frost, L: Ledger, s: State, id: Uuid)
    requires Admissible(L) && L != map[] && HasGroup(L) && s == View(frost, L)
    ensures Shows(frost, s, GroupOf(L), L, id)
  {
  }

  lemma CommitmentStep(frost: Frost, L: Ledger, tx: Tx)
    requires Admissible(L) && L != map[] && tx.SubmitCommitment?
    ensures AcceptsExactlyExtensions(frost, L, tx)
  {
    if Extends(L, tx) {
      assert Justified(L[SlotOf(tx) := tx], SlotOf(tx));
      assert Justified(L, Req(tx.requestId));
      CommitmentViews(frost, L, tx);
    } else {
      CommitmentRefused(frost, L, tx, View(frost, L));
    }
  }

  lemma CommitmentRefused(frost: Frost, L: Ledger, tx: Tx, s: State)
    requires Admissible(L) && L != map[] && tx.SubmitCommitment? && !Extends(L, tx) && s == View(frost, L)
    ensures ApplyTx(frost, s, tx).Rejected?
  {
    if HasGroup(L) {
      RequestInView(frost, L, s, tx.requestId);
      BadCommitment(frost, L, tx, s, GroupOf(L));
    }
  }

  lemma BadCommitment(frost: Frost, L: Ledger, tx: Tx, s: State, g: GroupConfig)
    requires Admissible(L) && L != map[] && tx.SubmitCommitment? && !Extends(L, tx)
    requires Shows(frost, s, g, L, tx.requestId)
    ensures ApplyTx(frost, s, tx).Rejected?
  {
    var id, v := tx.requestId, tx.validator;
    if Req(id) in L && v in Members(L) && Com(id, v) !in L {
      FullQuorum(L, tx);
      assert s.requests[id].status == StatusOf(frost, g, L, id);
    }
  }

  /** A member's commitment to a known request fails to extend only a full quorum. */
  lemma FullQuorum(L: Ledger, tx: Tx)
    requires Admissible(L) && L != map[] && tx.SubmitCommitment? && !Extends(L, tx)
    requires Req(tx.requestId) in L && tx.validator in Members(L) && SlotOf(tx) !in L
    ensures |CommitmentsOf(L, tx.requestId)| == Params(L).threshold
  {
    ExtendsIff(L, tx);
    CommitmentsProjection(L, tx, tx.requestId);
    SharesNeedQuorum(L, tx.requestId);
  }

  /** Shares arrive only from the committers of a full quorum. */
  lemma SharesNeedQuorum(L: Ledger, id: Uuid)
    requires Admissible(L) && L != map[]
    ensures SharesOf(L, id).Keys <= CommitmentsOf(L, id).Keys
    ensures |SharesOf(L, id)| <= |CommitmentsOf(L, id)| <= Params(L).threshold
    ensures SharesOf(L, id) != map[] ==> |CommitmentsOf(L, id)| == Params(L).threshold
  {
    forall v | v in SharesOf(L, id) ensures v in CommitmentsOf(L, id) { assert Justified(L, Shr(id, v)); }
    SubsetCardinality(SharesOf(L, id).Keys, CommitmentsOf(L, id).Keys);
    if SharesOf(L, id) != map[] {
      var v :| v in SharesOf(L, id);
      assert Justified(L, Shr(id, v));
    }
    if CommitmentsOf(L, id) != map[] {
      var v :| v in CommitmentsOf(L, id);
      assert Justified(L, Com(id, v));
    }
  }

  lemma CommittersAreMembers(L: Ledger, id: Uuid)
    requires Admissible(L) && L != map[]
    ensures CommitmentsOf(L, id).Keys <= Members(L)
  {
    forall v | v in CommitmentsOf(L, id) ensures v in Members(L) { assert Justified(L, Com(id, v)); }
  }

  lemma CommitmentViews(frost: Frost, L: Ledger, tx: Tx)
    requires Admissible(L) && L != map[] && tx.SubmitCommitment? && Req(tx.requestId) in L
    requires Extends(L, tx) && HasGroup(L)
    ensures ApplyTx(frost, View(frost, L), tx) == Accepted(View(frost, L[SlotOf(tx) := tx]))
  {
    RequestInView(frost, L, View(frost, L), tx.requestId);
    GoodCommitment(frost, L, tx, View(frost, L), GroupOf(L));
    NextView(frost, L, tx);
  }

  lemma GoodCommitment(frost: Frost, L: Ledger, tx: Tx, s: State, g: GroupConfig)
    requires Admissible(L) && L != map[] && tx.SubmitCommitment? && Req(tx.requestId) in L
    requires Extends(L, tx) && Shows(frost, s, g, L, tx.requestId)
    ensures Req(tx.requestId) in L[SlotOf(tx) := tx]
    ensures ApplyTx(frost, s, tx) ==
      Accepted(s.(requests := s.requests[tx.requestId := EntryOf(frost, g, L[SlotOf(tx) := tx], tx.requestId)]))
  {
    var e := CommitmentEntry(frost, L, tx, g);
    CommitmentAccepted(s, tx.requestId, tx.validator, tx.commitments, e.status.commitments);
  }

  lemma CommitmentEntry(frost: Frost, L: Ledger, tx: Tx, g: GroupConfig) returns (e: RequestEntry)
    requires Admissible(L) && L != map[] && tx.SubmitCommitment? && Req(tx.requestId) in L
    requires Extends(L, tx) && g.params == Params(L)
    ensures e == EntryOf(frost, g, L, tx.requestId)
    ensures tx.validator in Members(L) && e.status.AwaitingCommitments? && tx.validator !in e.status.commitments
    ensures Req(tx.requestId) in L[SlotOf(tx) := tx]
    ensures EntryOf(frost, g, L[SlotOf(tx) := tx], tx.requestId) ==
      e.(status := AfterCommitment(g.params, e.message, e.status.commitments[tx.validator := tx.commitments]))
  {
    e := EntryOf(frost, g, L, tx.requestId);
    NewCommitter(L, tx);
    CommitmentStatus(frost, g, L, tx);
  }

  lemma NewCommitter(L: Ledger, tx: Tx)
    requires Admissible(L) && L != map[] && tx.SubmitCommitment? && Extends(L, tx)
    ensures tx.validator in Members(L) && tx.validator !in CommitmentsOf(L, tx.requestId)
  {
    assert Justified(L[SlotOf(tx) := tx], SlotOf(tx));
    SetupKept(L, tx);
  }

  lemma CommitmentAccepted(s: State, id: Uuid, v: Identifier, c: Commitments, cs: map<Identifier, Commitments>)
    requires s.group.Some? && v in s.group.value.validators && id in s.requests
    requires s.requests[id].status == AwaitingCommitments(cs) && v !in cs
    ensures var entry := s.requests[id];
      ApplyCommitment(s, id, v, c) == Accepted(s.(requests := s.requests[id := entry.(status :=
        AfterCommitment(s.group.value.params, entry.message, cs[v := c]))]))
  {
  }

  /** Request traffic changes the entry of its own request and nothing else. */
  lemma NextView(frost: Frost, L: Ledger, tx: Tx)
    requires Admissible(L) && L != map[] && (tx.SubmitCommitment? || tx.SubmitShare?) && Req(tx.requestId) in L
    requires Extends(L, tx) && HasGroup(L)
    ensures var s := View(frost, L); var L' := L[SlotOf(tx) := tx];
      && Req(tx.requestId) in L'
      && View(frost, L') == s.(requests := s.requests[tx.requestId := EntryOf(frost, GroupOf(L), L', tx.requestId)])
  {
    SameGroup(L, tx);
    RequestsUpdate(frost, GroupOf(L), L, tx);
  }

  /** Up to the threshold the `as u16` cast is exact and `take` keeps every entry. */
  lemma WholeQuorumIsTaken(params: MpcParams, message: Message, cs: map<Identifier, Commitments>)
    requires |cs| <= params.threshold
    ensures AfterCommitment(params, message, cs) ==
      if |cs| == params.threshold then Signing(SigningPackage(cs, message), cs.Keys, map[])
      else AwaitingCommitments(cs)
  {
    TakeAll(cs, params.threshold);
    SmallModulus(|cs|);
  }

  lemma SmallModulus(n: nat)
    requires n < 0x1_0000
    ensures n % 0x1_0000 == n
  {
  }

  lemma CommitmentStatus(frost: Frost, g: GroupConfig, L: Ledger, tx: Tx)
    requires Admissible(L) && L != map[] && tx.SubmitCommitment? && Req(tx.requestId) in L
    requires Extends(L, tx) && g.params == Params(L)
    ensures StatusOf(frost, g, L, tx.requestId) == AwaitingCommitments(CommitmentsOf(L, tx.requestId))
    ensures StatusOf(frost, g, L[SlotOf(tx) := tx], tx.requestId) ==
      AfterCommitment(g.params, L[Req(tx.requestId)].message,
                      CommitmentsOf(L, tx.requestId)[tx.validator := tx.commitments])
  {
    var id := tx.requestId;
    var L' := L[SlotOf(tx) := tx];
    CommitmentsProjection(L, tx, id);
    SharesProjection(L, tx, id);
    SharesNeedQuorum(L, id);
    SharesNeedQuorum(L', id);
    assert Justified(L, Setup);
    assert |CommitmentsOf(L', id)| == |CommitmentsOf(L, id)| + 1;
    WholeQuorumIsTaken(g.params, L[Req(id)].message, CommitmentsOf(L', id));
  }

  lemma ShareStep(frost: Frost, L: Ledger, tx: Tx)
    requires Admissible(L) && L != map[] && tx.SubmitShare?
    ensures AcceptsExactlyExtensions(frost, L, tx)
  {
    if Extends(L, tx) {
      assert Justified(L[SlotOf(tx) := tx], SlotOf(tx));
      assert Justified(L, Com(tx.requestId, tx.validator)) && Justified(L, Req(tx.requestId));
      ShareViews(frost, L, tx);
    } else {
      ShareRefused(frost, L, tx, View(frost, L));
    }
  }

  lemma ShareRefused(frost: Frost, L: Ledger, tx: Tx, s: State)
    requires Admissible(L) && L != map[] && tx.SubmitShare? && !Extends(L, tx) && s == View(frost, L)
    ensures ApplyTx(frost, s, tx).Rejected?
  {
    if HasGroup(L) {
      RequestInView(frost, L, s, tx.requestId);
      BadShare(frost, L, tx, s, GroupOf(L));
    }
  }

  lemma BadShare(frost: Frost, L: Ledger, tx: Tx, s: State, g: GroupConfig)
    requires Admissible(L) && L != map[] && tx.SubmitShare? && !Extends(L, tx)
    requires Shows(frost, s, g, L, tx.requestId)
    ensures ApplyTx(frost, s, tx).Rejected?
  {
    var id, v := tx.requestId, tx.validator;
    if Req(id) in L {
      assert s.requests[id].status == StatusOf(frost, g, L, id);
      if Com(id, v) in L && Shr(id, v) !in L {
        NoQuorum(L, tx);
      }
    }
  }

  /** A committer's new share fails to extend only a ledger short of a quorum. */
  lemma NoQuorum(L: Ledger, tx: Tx)
    requires Admissible(L) && L != map[] && tx.SubmitShare? && !Extends(L, tx)
    requires Com(tx.requestId, tx.validator) in L && SlotOf(tx) !in L
    ensures |CommitmentsOf(L, tx.requestId)| < Params(L).threshold
  {
    ExtendsIff(L, tx);
    CommitmentsProjection(L, tx, tx.requestId);
    SharesNeedQuorum(L, tx.requestId);
  }

  lemma ShareViews(frost: Frost, L: Ledger, tx: Tx)
    requires Admissible(L) && L != map[] && tx.SubmitShare? && Req(tx.requestId) in L
    requires Extends(L, tx) && HasGroup(L)
    ensures ApplyTx(frost, View(frost, L), tx) == Accepted(View(frost, L[SlotOf(tx) := tx]))
  {
    RequestInView(frost, L, View(frost, L), tx.requestId);
    GoodShare(frost, L, tx, View(frost, L), GroupOf(L));
    NextView(frost, L, tx);
  }

  lemma GoodShare(frost: Frost, L: Ledger, tx: Tx, s: State, g: GroupConfig)
    requires Admissible(L) && L != map[] && tx.SubmitShare? && Req(tx.requestId) in L
    requires Extends(L, tx) && Shows(frost, s, g, L, tx.requestId)
    ensures Req(tx.requestId) in L[SlotOf(tx) := tx]
    ensures ApplyTx(frost, s, tx) ==
      Accepted(s.(requests := s.requests[tx.requestId := EntryOf(frost, g, L[SlotOf(tx) := tx], tx.requestId)]))
  {
    var e := ShareEntry(frost, L, tx, g);
    ShareAccepted(frost, s, tx.requestId, tx.validator, tx.share);
  }

  lemma ShareEntry(frost: Frost, L: Ledger, tx: Tx, g: GroupConfig) returns (e: RequestEntry)
    requires Admissible(L) && L != map[] && tx.SubmitShare? && Req(tx.requestId) in L
    requires Extends(L, tx) && g.params == Params(L)
    ensures e == EntryOf(frost, g, L, tx.requestId)
    ensures tx.validator in Members(L) && e.status.Signing?
    ensures tx.validator in e.status.participants && tx.validator !in e.status.shares
    ensures Req(tx.requestId) in L[SlotOf(tx) := tx]
    ensures EntryOf(frost, g, L[SlotOf(tx) := tx], tx.requestId) ==
      e.(status := AfterShare(frost, g.pkp, e.randomizer, e.status.signingPackage, e.status.participants,
                              e.status.shares[tx.validator := tx.share]))
  {
    e := EntryOf(frost, g, L, tx.requestId);
    assert Justified(L[SlotOf(tx) := tx], SlotOf(tx));
    assert Shr(tx.requestId, tx.validator) !in L && Com(tx.requestId, tx.validator) in L;
    CommittersAreMembers(L, tx.requestId);
    ShareStatus(frost, g, L, tx);
  }

  lemma ShareAccepted(frost: Frost, s: State, id: Uuid, v: Identifier, share: Share)
    requires s.group.Some? && v in s.group.value.validators && id in s.requests
    requires s.requests[id].status.Signing? && v in s.requests[id].status.participants
      && v !in s.requests[id].status.shares
    ensures var entry := s.requests[id];
      ApplyShare(frost, s, id, v, share) == Accepted(s.(requests := s.requests[id := entry.(status :=
        AfterShare(frost, s.group.value.pkp, entry.randomizer, entry.status.signingPackage, entry.status.participants,
                   entry.status.shares[v := share]))]))
  {
  }

  lemma ShareStatus(frost: Frost, g: GroupConfig, L: Ledger, tx: Tx)
    requires Admissible(L) && L != map[] && tx.SubmitShare? && Req(tx.requestId) in L
    requires Extends(L, tx) && g.params == Params(L)
    ensures var cs := CommitmentsOf(L, tx.requestId);
      var pkg := SigningPackage(cs, L[Req(tx.requestId)].message);
      && StatusOf(frost, g, L, tx.requestId) == Signing(pkg, cs.Keys, SharesOf(L, tx.requestId))
      && StatusOf(frost, g, L[SlotOf(tx) := tx], tx.requestId) ==
         AfterShare(frost, g.pkp, L[Req(tx.requestId)].randomizer, pkg, cs.Keys,
                    SharesOf(L, tx.requestId)[tx.validator := tx.share])
  {
    var id := tx.requestId;
    var L' := L[SlotOf(tx) := tx];
    CommitmentsProjection(L, tx, id);
    SharesProjection(L, tx, id);
    SharesNeedQuorum(L', id);
    assert Justified(L', Shr(id, tx.validator));
    assert |SharesOf(L', id)| == |SharesOf(L, id)| + 1;
  }

  /** The state machine accepts exactly the transactions that extend the ledger
      to a larger admissible one, moves to the view of that ledger, and never
      panics. */
  lemma AcceptIff(frost: Frost, L: Ledger, tx: Tx)
    requires Admissible(L)
    requires SoundIfAccepted(frost, L, tx)
    ensures var r := ApplyTx(frost, View(frost, L), tx);
      && !r.Panicked?
      && (r.Accepted? <==> SlotOf(tx) !in L && Admissible(L[SlotOf(tx) := tx]))
      && (r.Accepted? ==> r.state == View(frost, L[SlotOf(tx) := tx]))
  {
    if SlotOf(tx) == Setup { SetupStep(frost, L, tx); }
    else if L == map[] { NothingBeforeSetup(frost, tx); }
    else {
      match tx
      case DkgRound1(_, _) => Round1Step(frost, L, tx);
      case DkgRound2(_, _, _) => Round2Step(frost, L, tx);
      case DkgFinalize(_, _) => FinalizeStep(frost, L, tx);
      case SubmitRequest(_, _, _) => RequestStep(frost, L, tx);
      case SubmitCommitment(_, _, _) => CommitmentStep(frost, L, tx);
      case SubmitShare(_, _, _) => ShareStep(frost, L, tx);
    }
  }
}
