/** Honest nodes and arbitrary other parties around one chain.

    Transactions travel through a pool from which the chain may be handed any
    transaction, in any order, any number of times. Honest nodes react to the
    current or any earlier state of the chain. Everyone else may inject any
    transaction, sound or not, except a commitment in the name of an honest node. */
module SigningWorld {
  import opened Core
  import opened FrostSuite
  import opened Chain
  import opened Ledgers
  import opened Acceptance
  import opened Runs
  import opened History
  import opened Escrow
  import opened Nodes

  datatype World = World(log: seq<Tx>, pool: set<Tx>, nodes: map<Identifier, NodeState>, draw: nat)

  datatype Event =
    | Inject(tx: Tx)
    | Arrive(tx: Tx)
    | Observe(v: Identifier, at: nat)

  ghost function StateAt(frost: Frost, w: World, at: nat): State
    requires at <= |w.log|
  {
    Deliver(frost, GENESIS, w.log[..at])
  }

  ghost function Current(frost: Frost, w: World): State {
    Deliver(frost, GENESIS, w.log)
  }

  predicate MayInject(w: World, tx: Tx) {
    !(tx.SubmitCommitment? && tx.validator in w.nodes)
  }

  ghost function TxSet(txs: seq<Tx>): set<Tx> {
    set tx | tx in txs
  }

  /** Events that are not possible are ignored. */
  ghost function Exec(frost: Frost, w: World, e: Event): World {
    match e
    case Inject(tx) => if MayInject(w, tx) then w.(pool := w.pool + {tx}) else w
    case Arrive(tx) => if tx in w.pool then w.(log := w.log + [tx]) else w
    case Observe(v, at) =>
      if v in w.nodes && at <= |w.log| then
        var p := React(frost, w.nodes[v], StateAt(frost, w, at), w.draw);
        w.(nodes := w.nodes[v := p.node], draw := p.draw, pool := w.pool + TxSet(p.Emitted()))
      else w
  }

  ghost function Run(frost: Frost, w: World, events: seq<Event>): World {
    if events == [] then w
    else Exec(frost, Run(frost, w, events[..|events| - 1]), events[|events| - 1])
  }

  ghost predicate Initial(w: World) {
    && w.log == [] && w.pool == {}
    && forall v :: v in w.nodes ==>
      w.nodes[v].identifier == v && w.nodes[v].pending == map[] && w.nodes[v].committed == {} && w.nodes[v].shared == {}
  }

  // ------------------------------------------------------ the policy gate

  ghost predicate SameNodes(w: World, w': World) {
    && w.nodes.Keys == w'.nodes.Keys
    && forall v :: v in w.nodes ==>
      && w.nodes[v].identifier == w'.nodes[v].identifier == v
      && w.nodes[v].policy == w'.nodes[v].policy
      && w.nodes[v].keyPackage == w'.nodes[v].keyPackage
  }

  /** Every commitment in an honest node's name is for a request it approves. */
  ghost predicate Gated(frost: Frost, w: World) {
    && (forall i :: 0 <= i < |w.log| ==> w.log[i] in w.pool)
    && (forall id, v, c :: SubmitCommitment(id, v, c) in w.pool && v in w.nodes ==>
          Vouched(Current(frost, w), w.nodes[v].policy, id))
  }

  predicate Vouched(s: State, policy: Policy, id: Uuid) {
    id in s.requests && policy.Approves(s.requests[id].message)
  }

  /** Every event leaves the log alone or appends to it. */
  lemma LogGrows(frost: Frost, w: World, events: seq<Event>)
    requires events != []
    ensures var before, after := Run(frost, w, events[..|events| - 1]).log, Run(frost, w, events).log;
      && |before| <= |after| && after[..|before|] == before
      && (SoundRun(frost, after) ==> SoundRun(frost, before))
  {
    var before, after := Run(frost, w, events[..|events| - 1]).log, Run(frost, w, events).log;
    assert after == before + after[|before|..];
    if SoundRun(frost, after) {
      SoundPrefix(frost, before, after[|before|..]);
    }
  }

  /** What a reaction keeps and what it may emit. */
  ghost predicate Emits(n: NodeState, s: State, p: Progress) {
    && p.node.identifier == n.identifier && p.node.policy == n.policy && p.node.keyPackage == n.keyPackage
    && forall i :: 0 <= i < |p.out| ==>
      && (p.out[i].SubmitCommitment? || p.out[i].SubmitShare?)
      && p.out[i].validator == n.identifier
      && (p.out[i].SubmitCommitment? ==> Vouched(s, n.policy, p.out[i].requestId))
  }

  lemma {:induction false} LoopEmits(frost: Frost, n: NodeState, s: State, p: Progress, rest: set<Uuid>)
    requires rest <= s.requests.Keys && Emits(n, s, p)
    ensures Emits(n, s, OnRequests(frost, p, s.requests, rest))
    decreases |rest|
  {
    if rest == {} {
    } else {
      var id := Min(rest);
      var q := OnRequest(frost, p, s.requests[id], id);
      assert Emits(n, s, q);
      LoopEmits(frost, n, s, q, rest - {id});
    }
  }

  lemma ReactEmits(frost: Frost, n: NodeState, s: State, draw: nat)
    ensures Emits(n, s, React(frost, n, s, draw))
  {
    LoopEmits(frost, n, s, Progress(n, draw, [], [], None), s.requests.Keys);
  }

  /** Requests keep their message, so a vouched request stays vouched. */
  lemma VouchedStays(frost: Frost, xs: seq<Tx>, ys: seq<Tx>, policy: Policy, id: Uuid)
    requires SoundRun(frost, xs + ys)
    requires Vouched(Deliver(frost, GENESIS, xs), policy, id)
    ensures Vouched(Deliver(frost, GENESIS, xs + ys), policy, id)
  {
    Lifecycle(frost, xs, ys);
  }

  lemma StepKeepsGate(frost: Frost, w: World, e: Event)
    requires Gated(frost, w) && SameNodes(w, w) && SoundRun(frost, Exec(frost, w, e).log)
    ensures Gated(frost, Exec(frost, w, e)) && SameNodes(w, Exec(frost, w, e))
  {
    var w' := Exec(frost, w, e);
    match e
    case Inject(tx) =>
    case Arrive(tx) =>
      if tx in w.pool {
        forall id, v, c | SubmitCommitment(id, v, c) in w'.pool && v in w'.nodes
          ensures Vouched(Current(frost, w'), w'.nodes[v].policy, id)
        {
          VouchedStays(frost, w.log, [tx], w.nodes[v].policy, id);
        }
      }
    case Observe(v, at) =>
      if v in w.nodes && at <= |w.log| {
        ObserveKeepsGate(frost, w, v, at);
      }
  }

  lemma ObserveKeepsGate(frost: Frost, w: World, v: Identifier, at: nat)
    requires Gated(frost, w) && SameNodes(w, w) && SoundRun(frost, w.log) && v in w.nodes && at <= |w.log|
    ensures Gated(frost, Exec(frost, w, Observe(v, at))) && SameNodes(w, Exec(frost, w, Observe(v, at)))
  {
    var w' := Exec(frost, w, Observe(v, at));
    var s := StateAt(frost, w, at);
    var p := React(frost, w.nodes[v], s, w.draw);
    ReactEmits(frost, w.nodes[v], s, w.draw);
    assert w.log == w.log[..at] + w.log[at..];
    forall id, u, c | SubmitCommitment(id, u, c) in w'.pool && u in w'.nodes
      ensures Vouched(Current(frost, w'), w'.nodes[u].policy, id)
    {
      if SubmitCommitment(id, u, c) !in w.pool {
        var i :| 0 <= i < |p.out| && p.out[i] == SubmitCommitment(id, u, c);
        VouchedStays(frost, w.log[..at], w.log[at..], w.nodes[v].policy, id);
      }
    }
  }

  lemma {:induction false} AlwaysGated(frost: Frost, w: World, events: seq<Event>)
    requires Initial(w) && SoundRun(frost, Run(frost, w, events).log)
    ensures Gated(frost, Run(frost, w, events))
    ensures SameNodes(w, Run(frost, w, events))
  {
    if events == [] {
    } else {
      var front := events[..|events| - 1];
      LogGrows(frost, w, events);
      AlwaysGated(frost, w, front);
      StepKeepsGate(frost, Run(frost, w, front), events[|events| - 1]);
    }
  }

  /** Escrow quorum gate: once a request has left `AwaitingCommitments`, at least
      `threshold` minus the number of validators outside the honest set are
      honest nodes whose own policy approves its message; while the participants
      are on record they are among them. */
  lemma QuorumGate(frost: Frost, w: World, events: seq<Event>, id: Uuid) returns (approvers: set<Identifier>)
    requires Initial(w) && SoundRun(frost, Run(frost, w, events).log)
    requires id in Current(frost, Run(frost, w, events)).requests
    requires !Current(frost, Run(frost, w, events)).requests[id].status.AwaitingCommitments?
    ensures var s := Current(frost, Run(frost, w, events));
      && s.group.Some?
      && approvers <= w.nodes.Keys * s.group.value.validators
      && |approvers| + |s.group.value.validators - w.nodes.Keys| >= s.group.value.params.threshold
      && (forall v :: v in approvers ==> w.nodes[v].policy.Approves(s.requests[id].message))
      && (s.requests[id].status.Signing? || s.requests[id].status.Completed? ==>
            approvers <= s.requests[id].status.participants)
  {
    var w' := Run(frost, w, events);
    AlwaysGated(frost, w, events);
    var committers := QuorumOnRecord(frost, w'.log, id);
    approvers := committers * w.nodes.Keys;
    forall v | v in approvers ensures w.nodes[v].policy.Approves(Current(frost, w').requests[id].message) {
      var c :| SubmitCommitment(id, v, c) in w'.log;
      assert Vouched(Current(frost, w'), w'.nodes[v].policy, id);
    }
    QuorumCount(committers, w.nodes.Keys, Current(frost, w').group.value.validators);
  }

  /** Behind a request past `AwaitingCommitments` there is a full quorum of
      delivered commitments; the participants on record are its committers. */
  lemma QuorumOnRecord(frost: Frost, log: seq<Tx>, id: Uuid) returns (committers: set<Identifier>)
    requires SoundRun(frost, log)
    requires id in Deliver(frost, GENESIS, log).requests
    requires !Deliver(frost, GENESIS, log).requests[id].status.AwaitingCommitments?
    ensures var s := Deliver(frost, GENESIS, log);
      && s.group.Some? && |committers| == s.group.value.params.threshold
      && committers <= s.group.value.validators
      && (s.requests[id].status.Signing? || s.requests[id].status.Completed? ==>
            s.requests[id].status.participants == committers)
    ensures forall v :: v in committers ==> exists c :: SubmitCommitment(id, v, c) in log
  {
    RunIsView(frost, log);
    LedgerHoldsKept(frost, log);
    KeptWasDelivered(frost, GENESIS, log);
    var L := LedgerOf(frost, log);
    committers := CommitmentsOf(L, id).Keys;
    QuorumInView(frost, L, Deliver(frost, GENESIS, log), id);
    forall v | v in committers ensures exists c :: SubmitCommitment(id, v, c) in log {
      CommitmentInLog(L, log, id, v);
    }
  }

  lemma QuorumInView(frost: Frost, L: Ledger, s: State, id: Uuid)
    requires Admissible(L) && s == View(frost, L)
    requires id in s.requests && !s.requests[id].status.AwaitingCommitments?
    ensures s.group.Some?
    ensures |CommitmentsOf(L, id)| == s.group.value.params.threshold
    ensures CommitmentsOf(L, id).Keys <= s.group.value.validators
    ensures s.requests[id].status.Signing? || s.requests[id].status.Completed? ==>
      s.requests[id].status.participants == CommitmentsOf(L, id).Keys
    ensures s.requests[id].status.Signing? ==>
      s.requests[id].status.signingPackage.commitments == CommitmentsOf(L, id)
  {
    SharesNeedQuorum(L, id);
    CommittersAreMembers(L, id);
    assert s.requests[id] == EntryOf(frost, s.group.value, L, id);
  }

  lemma CommitmentInLog(L: Ledger, log: seq<Tx>, id: Uuid, v: Identifier)
    requires Keyed(L) && (forall k :: k in L ==> L[k] in log)
    requires v in CommitmentsOf(L, id)
    ensures SubmitCommitment(id, v, CommitmentsOf(L, id)[v]) in log
  {
    assert L[Com(id, v)] == SubmitCommitment(id, v, CommitmentsOf(L, id)[v]);
  }

  lemma QuorumCount(committers: set<Identifier>, honest: set<Identifier>, validators: set<Identifier>)
    requires committers <= validators
    ensures |committers * honest| + |validators - honest| >= |committers|
  {
    assert committers == committers * honest + (committers - honest);
    SubsetCardinality(committers - honest, validators - honest);
  }

  /** Hence, with fewer faulty validators than the threshold and every honest
      node running an escrow policy, nothing is signed unless some honest node
      holds terms that the signed message pays exactly, to the agreed payee,
      with a witness it accepted. */
  lemma NoSignatureWithoutHonouredTerms(frost: Frost, w: World, events: seq<Event>, id: Uuid)
    returns (v: Identifier, terms: EscrowTerms, intent: SettlementIntent)
    requires Initial(w) && SoundRun(frost, Run(frost, w, events).log)
    requires forall u :: u in w.nodes ==> w.nodes[u].policy.EscrowPolicy? && w.nodes[u].policy.Filed()
    requires id in Current(frost, Run(frost, w, events)).requests
    requires !Current(frost, Run(frost, w, events)).requests[id].status.AwaitingCommitments?
    requires Current(frost, Run(frost, w, events)).group.Some? ==>
      |Current(frost, Run(frost, w, events)).group.value.validators - w.nodes.Keys|
      < Current(frost, Run(frost, w, events)).group.value.params.threshold
    ensures v in w.nodes
    ensures var policy := w.nodes[v].policy;
      && policy.parse(Current(frost, Run(frost, w, events)).requests[id].message)
         == Some(ReleaseProposal(terms.escrowId, intent))
      && terms.escrowId in policy.escrows && policy.escrows[terms.escrowId] == terms
      && intent.payment == PaymentLeg(terms.amount, terms.payee)
      && policy.verify(terms, intent.evidence)
  {
    var approvers := QuorumGate(frost, w, events, id);
    assert approvers != {};
    v :| v in approvers;
    var message := Current(frost, Run(frost, w, events)).requests[id].message;
    ApproveIff(w.nodes[v].policy, message);
    terms, intent :|
      && w.nodes[v].policy.parse(message) == Some(ReleaseProposal(terms.escrowId, intent))
      && terms.escrowId in w.nodes[v].policy.escrows && w.nodes[v].policy.escrows[terms.escrowId] == terms
      && Honours(terms, intent, w.nodes[v].policy.verify);
  }
}
