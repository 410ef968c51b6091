/** What every run of the chain guarantees about its states: lifecycle safety,
    participant selection and signature provenance. */
module History {
  import opened Core
  import opened FrostSuite
  import opened Chain
  import opened Ledgers
  import opened Acceptance
  import opened Runs

  // ------------------------------------------------------ lifecycle

  ghost predicate SubMap<K, V>(a: map<K, V>, b: map<K, V>) {
    forall k :: k in a ==> k in b && a[k] == b[k]
  }

  /** Statuses only move forward, and carry their evidence with them. */
  ghost predicate Advances(a: RequestStatus, b: RequestStatus) {
    match a
    case AwaitingCommitments(cs) =>
      (b.AwaitingCommitments? ==> SubMap(cs, b.commitments))
      && (b.Signing? ==> SubMap(cs, b.signingPackage.commitments))
      && (b.Completed? ==> cs.Keys <= b.participants)
    case Signing(pkg, ps, ss) =>
      !b.AwaitingCommitments?
      && (b.Signing? ==> b.signingPackage == pkg && b.participants == ps && SubMap(ss, b.shares))
      && (b.Completed? ==> b.participants == ps)
    case Completed(_, _) => b == a
    case Failed(_) => b == a
  }

  ghost predicate WellFormedState(s: State) {
    && !(s.ceremony.Some? && s.group.Some?)
    && (s.requests != map[] ==> s.group.Some?)
    && forall id :: id in s.requests ==> WellFormedEntry(s, id)
  }

  ghost predicate WellFormedEntry(s: State, id: Uuid)
    requires id in s.requests
  {
    && s.requests[id].requestId == id
    && s.group.Some?
    && var t := s.group.value.params.threshold;
       match s.requests[id].status
       case AwaitingCommitments(cs) => |cs| < t && cs.Keys <= s.group.value.validators
       case Signing(pkg, ps, ss) =>
         && pkg.message == s.requests[id].message && pkg.commitments.Keys == ps
         && |ps| == t && ps <= s.group.value.validators && ss.Keys < ps
       case Completed(ps, _) => |ps| == t && ps <= s.group.value.validators
       case Failed(_) => true
  }

  ghost predicate Later(s: State, s': State) {
    && (s.group.Some? ==> s'.group == s.group)
    && forall id :: id in s.requests ==>
      && id in s'.requests
      && s'.requests[id].message == s.requests[id].message
      && s'.requests[id].randomizer == s.requests[id].randomizer
      && Advances(s.requests[id].status, s'.requests[id].status)
  }

  /** Lifecycle safety over all runs: every state is well formed, and every
      later state of the run continues it. */
  lemma Lifecycle(frost: Frost, xs: seq<Tx>, ys: seq<Tx>)
    requires SoundRun(frost, xs + ys)
    ensures WellFormedState(Deliver(frost, GENESIS, xs))
    ensures Later(Deliver(frost, GENESIS, xs), Deliver(frost, GENESIS, xs + ys))
  {
    LedgerGrows(frost, xs, ys);
    RunIsView(frost, xs);
    RunIsView(frost, xs + ys);
    ViewWellFormed(frost, LedgerOf(frost, xs));
    ViewsAdvance(frost, LedgerOf(frost, xs), LedgerOf(frost, xs + ys));
  }

  lemma ViewWellFormed(frost: Frost, L: Ledger)
    requires Admissible(L)
    ensures WellFormedState(View(frost, L))
  {
    if L != map[] && HasGroup(L) {
      var s := View(frost, L);
      forall id | id in s.requests ensures WellFormedEntry(s, id) {
        SharesNeedQuorum(L, id);
        CommittersAreMembers(L, id);
        SubsetCardinality(SharesOf(L, id).Keys, CommitmentsOf(L, id).Keys);
      }
    }
  }

  lemma ViewsAdvance(frost: Frost, L: Ledger, L': Ledger)
    requires Admissible(L) && Admissible(L') && SubMap(L, L')
    ensures Later(View(frost, L), View(frost, L'))
  {
    if L != map[] && HasGroup(L) {
      assert HasGroup(L');
      assert GroupOf(L') == GroupOf(L);
      var g := GroupOf(L);
      forall id | id in RequestIds(L)
        ensures id in RequestIds(L')
        ensures Advances(StatusOf(frost, g, L, id), StatusOf(frost, g, L', id))
      {
        StatusAdvances(frost, g, L, L', id);
      }
    }
  }

  lemma StatusAdvances(frost: Frost, g: GroupConfig, L: Ledger, L': Ledger, id: Uuid)
    requires Admissible(L) && Admissible(L') && SubMap(L, L') && L != map[]
    requires g.params == Params(L) && Req(id) in L
    ensures Req(id) in L'
    ensures Advances(StatusOf(frost, g, L, id), StatusOf(frost, g, L', id))
  {
    SharesNeedQuorum(L, id);
    SharesNeedQuorum(L', id);
    var cs, cs', ss, ss' := CommitmentsOf(L, id), CommitmentsOf(L', id), SharesOf(L, id), SharesOf(L', id);
    assert SubMap(cs, cs') && SubMap(ss, ss');
    assert Params(L') == Params(L) && L'[Req(id)] == L[Req(id)];
    assert Justified(L, Setup);
    FromAdvances(frost, g, cs, ss, cs', ss', L[Req(id)].message, L[Req(id)].randomizer);
  }

  lemma FromAdvances(frost: Frost, g: GroupConfig, cs: map<Identifier, Commitments>, ss: map<Identifier, Share>,
                     cs': map<Identifier, Commitments>, ss': map<Identifier, Share>, message: Message, r: Randomizer)
    requires SubMap(cs, cs') && SubMap(ss, ss') && ss'.Keys <= cs'.Keys && |cs'| <= g.params.threshold
    requires |ss| <= |cs| && g.params.threshold >= 1
    ensures Advances(StatusFrom(frost, g, cs, ss, message, r), StatusFrom(frost, g, cs', ss', message, r))
  {
    SubsetCardinality(cs.Keys, cs'.Keys);
    if |cs| == g.params.threshold {
      assert cs == cs';
      SubsetCardinality(ss.Keys, ss'.Keys);
      SubsetCardinality(ss'.Keys, cs'.Keys);
      if |ss| == |cs| {
        assert ss == ss';
      }
    }
  }

  // ------------------------------------------------------ signing

  /** Validators whose commitments to `id` were accepted, in order of acceptance. */
  ghost function Committers(kept: seq<Tx>, id: Uuid): seq<Identifier> {
    if kept == [] then []
    else
      var tx := kept[|kept| - 1];
      var rest := Committers(kept[..|kept| - 1], id);
      if tx.SubmitCommitment? && tx.requestId == id then rest + [tx.validator] else rest
  }

  ghost predicate SameCommitters(L: Ledger, kept: seq<Tx>, id: Uuid) {
    && Keyed(L)
    && |Committers(kept, id)| == |CommitmentsOf(L, id)|
    && ToSet(Committers(kept, id)) == CommitmentsOf(L, id).Keys
  }

  lemma SameCommittersStep(L: Ledger, kept: seq<Tx>, tx: Tx, id: Uuid)
    requires SameCommitters(L, kept, id) && SlotOf(tx) !in L
    ensures SameCommitters(L[SlotOf(tx) := tx], kept + [tx], id)
  {
    CommittersAppend(kept, tx, id);
    CommitmentsProjection(L, tx, id);
  }

  lemma {:induction false} CommittersMatchLedger(frost: Frost, txs: seq<Tx>, id: Uuid)
    requires SoundRun(frost, txs)
    ensures SameCommitters(LedgerOf(frost, txs), Kept(frost, GENESIS, txs), id)
  {
    RunIsView(frost, txs);
    if txs == [] {
      assert CommitmentsOf(map[], id) == map[];
    } else {
      var prefix, tx := txs[..|txs| - 1], txs[|txs| - 1];
      NextDelivery(frost, txs);
      CommittersMatchLedger(frost, prefix, id);
      var before := Kept(frost, GENESIS, prefix);
      if Extends(LedgerOf(frost, prefix), tx) {
        SameCommittersStep(LedgerOf(frost, prefix), before, tx, id);
      }
    }
  }

  lemma CommittersAppend(kept: seq<Tx>, tx: Tx, id: Uuid)
    ensures var cs := Committers(kept, id);
      && Committers(kept + [tx], id) ==
         (if tx.SubmitCommitment? && tx.requestId == id then cs + [tx.validator] else cs)
      && ToSet(Committers(kept + [tx], id)) ==
         (if tx.SubmitCommitment? && tx.requestId == id then ToSet(cs) + {tx.validator} else ToSet(cs))
  {
    assert (kept + [tx])[..|kept + [tx]| - 1] == kept;
    if tx.SubmitCommitment? && tx.requestId == id {
      AppendToSet(Committers(kept, id), tx.validator);
    }
  }

  lemma AppendToSet(s: seq<Identifier>, x: Identifier)
    ensures ToSet(s + [x]) == ToSet(s) + {x}
  {
    assert x in s + [x];
    assert forall y :: y in s ==> y in s + [x];
  }

  /** The participants of a request are the validators of its first `threshold`
      accepted commitments; no run ever accepts more than that. */
  lemma FirstCommittersParticipate(frost: Frost, txs: seq<Tx>, id: Uuid)
    requires SoundRun(frost, txs)
    requires id in Deliver(frost, GENESIS, txs).requests
    ensures var s := Deliver(frost, GENESIS, txs);
      && s.group.Some?
      && var status, t := s.requests[id].status, s.group.value.params.threshold;
         var committers := Committers(Kept(frost, GENESIS, txs), id);
         && |committers| <= t
         && |ToSet(committers)| == |committers|
         && (status.AwaitingCommitments? <==> |committers| < t)
         && (status.AwaitingCommitments? ==> status.commitments.Keys == ToSet(committers))
         && (status.Signing? || status.Completed? ==> status.participants == ToSet(committers[..t]))
  {
    RunIsView(frost, txs);
    CommittersMatchLedger(frost, txs, id);
    SharesNeedQuorum(LedgerOf(frost, txs), id);
    var committers := Committers(Kept(frost, GENESIS, txs), id);
    var t := Deliver(frost, GENESIS, txs).group.value.params.threshold;
    if |committers| == t {
      assert committers[..t] == committers;
    }
  }

  /** `sig` is the aggregate of the given shares, one per participant, over the
      given commitments, all of them accepted transactions of the run. */
  ghost predicate Aggregates(frost: Frost, kept: seq<Tx>, g: GroupConfig, e: RequestEntry,
                             cs: map<Identifier, Commitments>, ss: map<Identifier, Share>)
    requires e.status.Completed?
  {
    && SubmitRequest(e.requestId, e.message, e.randomizer) in kept
    && cs.Keys == ss.Keys == e.status.participants && |ss| == g.params.threshold
    && (forall v :: v in cs ==> SubmitCommitment(e.requestId, v, cs[v]) in kept)
    && (forall v :: v in ss ==> SubmitShare(e.requestId, v, ss[v]) in kept)
    && frost.aggregate(SigningPackage(cs, e.message), ss, g.pkp, e.randomizer) == Ok(e.status.signature)
  }

  /** A completed signature is the aggregate of exactly `threshold` accepted
      shares over the accepted commitments, for the submitted message and
      randomizer and the group's key, and so verifies under the rerandomized key. */
  lemma SignatureProvenance(frost: Frost, txs: seq<Tx>, id: Uuid)
    returns (cs: map<Identifier, Commitments>, ss: map<Identifier, Share>)
    requires SoundRun(frost, txs)
    requires id in Deliver(frost, GENESIS, txs).requests
    requires Deliver(frost, GENESIS, txs).requests[id].status.Completed?
    ensures var s := Deliver(frost, GENESIS, txs);
      && s.group.Some?
      && Aggregates(frost, Kept(frost, GENESIS, txs), s.group.value, s.requests[id], cs, ss)
    ensures var s := Deliver(frost, GENESIS, txs); var e := s.requests[id];
      AggregateSound(frost) ==>
        frost.verifies(s.group.value.pkp.verifyingKey, e.randomizer, e.message, e.status.signature)
  {
    RunIsView(frost, txs);
    LedgerHoldsKept(frost, txs);
    var L := LedgerOf(frost, txs);
    cs, ss := CommitmentsOf(L, id), SharesOf(L, id);
    CompletedLedger(frost, L, Kept(frost, GENESIS, txs), id);
  }

  lemma CompletedLedger(frost: Frost, L: Ledger, kept: seq<Tx>, id: Uuid)
    requires Admissible(L) && L != map[] && HasGroup(L) && Req(id) in L
    requires forall k :: k in L ==> L[k] in kept
    requires EntryOf(frost, GroupOf(L), L, id).status.Completed?
    ensures Aggregates(frost, kept, GroupOf(L), EntryOf(frost, GroupOf(L), L, id),
                       CommitmentsOf(L, id), SharesOf(L, id))
  {
    SharesNeedQuorum(L, id);
    SubsetCardinality(SharesOf(L, id).Keys, CommitmentsOf(L, id).Keys);
    assert L[Req(id)] == SubmitRequest(id, L[Req(id)].message, L[Req(id)].randomizer);
    forall v | Com(id, v) in L ensures SubmitCommitment(id, v, CommitmentsOf(L, id)[v]) in kept {
      assert L[Com(id, v)] == SubmitCommitment(id, v, CommitmentsOf(L, id)[v]);
    }
    forall v | Shr(id, v) in L ensures SubmitShare(id, v, SharesOf(L, id)[v]) in kept {
      assert L[Shr(id, v)] == SubmitShare(id, v, SharesOf(L, id)[v]);
    }
  }
}
