/** Between committing and signing, a selected node still holds its nonces. */
module NonceCustody {
  import opened Core
  import opened FrostSuite
  import opened Chain
  import opened Runs
  import opened History
  import opened Nodes
  import opened SigningWorld

  /** Signing succeeds on a package that carries the commitment to the nonces and
      as many commitments as the key requires signers. */
  ghost predicate SignsOwnCommitment(frost: Frost) {
    forall pkg: SigningPackage, nonces, key: KeyPackage, r ::
      Carries(frost, pkg, key, nonces) && |pkg.commitments| >= key.minSigners ==> frost.sign(pkg, nonces, key, r).Ok?
  }

  predicate Carries(frost: Frost, pkg: SigningPackage, key: KeyPackage, nonces: Nonces) {
    key.identifier in pkg.commitments && pkg.commitments[key.identifier] == frost.commit(key, nonces)
  }

  /** `c` is the commitment to nonces the node still holds for `id`, or the node
      has already used them for its share. */
  predicate Backed(frost: Frost, n: NodeState, id: Uuid, c: Commitments) {
    && id in n.committed
    && (id in n.shared || (id in n.pending && c == frost.commit(n.keyPackage, n.pending[id])))
  }

  ghost predicate HoldsNonces(frost: Frost, n: NodeState, txs: set<Tx>) {
    && n.identifier == n.keyPackage.identifier
    && n.pending.Keys <= n.committed
    && forall id, c :: SubmitCommitment(id, n.identifier, c) in txs ==> Backed(frost, n, id, c)
  }

  /** The node's key is for the group's threshold or a lower one. */
  predicate FitsGroup(n: NodeState, s: State) {
    s.group.Some? ==> n.keyPackage.minSigners <= s.group.value.params.threshold
  }

  /** Signing packages are assembled from a quorum of transactions in `txs`. */
  ghost predicate PackagesFrom(s: State, txs: set<Tx>) {
    forall id :: id in s.requests && s.requests[id].status.Signing? ==>
      var e := s.requests[id].status;
      && s.group.Some? && |e.signingPackage.commitments| == s.group.value.params.threshold
      && forall v :: v in e.participants ==>
        v in e.signingPackage.commitments && SubmitCommitment(id, v, e.signingPackage.commitments[v]) in txs
  }

  lemma StepKeepsNonces(frost: Frost, p: Progress, s: State, id: Uuid, pool: set<Tx>)
    requires SignsOwnCommitment(frost) && PackagesFrom(s, pool) && FitsGroup(p.node, s)
    requires id in s.requests && p.error.None?
    requires HoldsNonces(frost, p.node, pool + TxSet(p.out))
    ensures var q := OnRequest(frost, p, s.requests[id], id);
      && q.error.None? && q.node.identifier == p.node.identifier && q.node.keyPackage == p.node.keyPackage
      && HoldsNonces(frost, q.node, pool + TxSet(q.out))
  {
    var q := OnRequest(frost, p, s.requests[id], id);
    var n := p.node;
    match s.requests[id].status
    case AwaitingCommitments(cs) =>
      forall i, c | SubmitCommitment(i, n.identifier, c) in pool + TxSet(q.out) ensures Backed(frost, q.node, i, c) {
        if SubmitCommitment(i, n.identifier, c) in pool + TxSet(p.out) {
          assert Backed(frost, n, i, c);
        }
      }
    case Signing(pkg, ps, shares) =>
      if n.identifier in ps {
        assert SubmitCommitment(id, n.identifier, pkg.commitments[n.identifier]) in pool + TxSet(p.out);
        assert Backed(frost, n, id, pkg.commitments[n.identifier]);
      }
      forall i, c | SubmitCommitment(i, n.identifier, c) in pool + TxSet(q.out) ensures Backed(frost, q.node, i, c) {
        assert SubmitCommitment(i, n.identifier, c) in pool + TxSet(p.out);
        assert Backed(frost, n, i, c);
      }
    case Completed(_, _) =>
    case Failed(_) =>
  }

  lemma {:induction false} LoopKeepsNonces(frost: Frost, p: Progress, s: State, rest: set<Uuid>, pool: set<Tx>)
    requires SignsOwnCommitment(frost) && PackagesFrom(s, pool) && FitsGroup(p.node, s)
    requires rest <= s.requests.Keys && p.error.None?
    requires HoldsNonces(frost, p.node, pool + TxSet(p.out))
    ensures var q := OnRequests(frost, p, s.requests, rest);
      && q.error.None? && q.node.identifier == p.node.identifier && q.node.keyPackage == p.node.keyPackage
      && HoldsNonces(frost, q.node, pool + TxSet(q.out))
    decreases |rest|
  {
    if rest == {} {
    } else {
      var id := Min(rest);
      StepKeepsNonces(frost, p, s, id, pool);
      LoopKeepsNonces(frost, OnRequest(frost, p, s.requests[id], id), s, rest - {id}, pool);
    }
  }

  ghost predicate AllHold(frost: Frost, w: World) {
    forall v :: v in w.nodes ==> w.nodes[v].identifier == v && HoldsNonces(frost, w.nodes[v], w.pool)
  }

  /** Every state the nodes can be shown builds its packages from the pool. */
  lemma SnapshotPackages(frost: Frost, w: World, at: nat)
    requires Gated(frost, w) && SoundRun(frost, w.log) && at <= |w.log|
    ensures PackagesFrom(StateAt(frost, w, at), w.pool)
  {
    var log := w.log[..at];
    assert w.log == log + w.log[at..];
    SoundPrefix(frost, log, w.log[at..]);
    RunIsView(frost, log);
    LedgerHoldsKept(frost, log);
    KeptWasDelivered(frost, GENESIS, log);
    var L := LedgerOf(frost, log);
    var s := StateAt(frost, w, at);
    forall id, v | id in s.requests && s.requests[id].status.Signing? && v in s.requests[id].status.participants
      ensures v in s.requests[id].status.signingPackage.commitments
      ensures SubmitCommitment(id, v, s.requests[id].status.signingPackage.commitments[v]) in w.pool
    {
      QuorumInView(frost, L, s, id);
      CommitmentInLog(L, log, id, v);
    }
    forall id | id in s.requests && s.requests[id].status.Signing?
      ensures s.group.Some? && |s.requests[id].status.signingPackage.commitments| == s.group.value.params.threshold
    {
      QuorumInView(frost, L, s, id);
    }
  }

  /** Once set, the group a node is shown is the group of the whole log. */
  lemma FitsSnapshot(frost: Frost, n: NodeState, xs: seq<Tx>, ys: seq<Tx>)
    requires SoundRun(frost, xs + ys) && FitsGroup(n, Deliver(frost, GENESIS, xs + ys))
    ensures FitsGroup(n, Deliver(frost, GENESIS, xs))
  {
    Lifecycle(frost, xs, ys);
  }

  /** All nodes hold keys of the group's threshold. */
  ghost predicate AllFit(frost: Frost, w: World) {
    forall v :: v in w.nodes ==> FitsGroup(w.nodes[v], Current(frost, w))
  }

  lemma ReactKeepsNonces(frost: Frost, w: World, v: Identifier, at: nat)
    requires SignsOwnCommitment(frost) && Gated(frost, w) && SoundRun(frost, w.log) && AllHold(frost, w)
      && AllFit(frost, w)
    requires v in w.nodes && at <= |w.log|
    ensures var p := React(frost, w.nodes[v], StateAt(frost, w, at), w.draw);
      && p.error.None? && p.node.identifier == v
      && HoldsNonces(frost, p.node, w.pool + TxSet(p.out))
  {
    SnapshotPackages(frost, w, at);
    assert w.log == w.log[..at] + w.log[at..];
    FitsSnapshot(frost, w.nodes[v], w.log[..at], w.log[at..]);
    var p := Progress(w.nodes[v], w.draw, [], [], None);
    assert w.pool + TxSet(p.out) == w.pool;
    var s := StateAt(frost, w, at);
    LoopKeepsNonces(frost, p, s, s.requests.Keys, w.pool);
  }

  lemma StepKeepsHolding(frost: Frost, w: World, e: Event)
    requires SignsOwnCommitment(frost) && Gated(frost, w) && SameNodes(w, w) && AllHold(frost, w)
    requires SoundRun(frost, w.log) && AllFit(frost, w)
    ensures AllHold(frost, Exec(frost, w, e))
  {
    match e
    case Inject(tx) =>
    case Arrive(tx) =>
    case Observe(v, at) =>
      if v in w.nodes && at <= |w.log| {
        var w' := Exec(frost, w, e);
        var p := React(frost, w.nodes[v], StateAt(frost, w, at), w.draw);
        ReactKeepsNonces(frost, w, v, at);
        ReactEmits(frost, w.nodes[v], StateAt(frost, w, at), w.draw);
        forall u | u in w'.nodes && u != v ensures HoldsNonces(frost, w'.nodes[u], w'.pool) {
          forall id, c | SubmitCommitment(id, u, c) in w'.pool ensures Backed(frost, w.nodes[u], id, c) {
            assert SubmitCommitment(id, u, c) in w.pool;
          }
        }
      }
  }

  lemma {:induction false} AlwaysHolding(frost: Frost, w: World, events: seq<Event>)
    requires SignsOwnCommitment(frost) && Initial(w)
    requires SoundRun(frost, Run(frost, w, events).log) && AllFit(frost, Run(frost, w, events))
    requires forall v :: v in w.nodes ==> w.nodes[v].keyPackage.identifier == v
    ensures AllHold(frost, Run(frost, w, events))
  {
    if events == [] {
    } else {
      var front := events[..|events| - 1];
      LogGrows(frost, w, events);
      AlwaysGated(frost, w, front);
      AlwaysGated(frost, w, events);
      FitsEarlier(frost, w, events);
      AlwaysHolding(frost, w, front);
      StepKeepsHolding(frost, Run(frost, w, front), events[|events| - 1]);
    }
  }

  lemma FitsEarlier(frost: Frost, w: World, events: seq<Event>)
    requires events != [] && AllFit(frost, Run(frost, w, events)) && SoundRun(frost, Run(frost, w, events).log)
    requires SameNodes(w, Run(frost, w, events)) && SameNodes(w, Run(frost, w, events[..|events| - 1]))
    ensures AllFit(frost, Run(frost, w, events[..|events| - 1]))
  {
    var before, after := Run(frost, w, events[..|events| - 1]), Run(frost, w, events);
    var rest := after.log[|before.log|..];
    LogGrows(frost, w, events);
    assert after.log == before.log + rest;
    forall v | v in before.nodes ensures FitsGroup(before.nodes[v], Current(frost, before)) {
      FitsSnapshot(frost, after.nodes[v], before.log, rest);
    }
  }

  /** `n` was selected for request `id` and has not produced its share. */
  predicate AwaitsShareOf(s: State, n: NodeState, id: Uuid) {
    && id in s.requests && s.requests[id].status.Signing?
    && n.identifier in s.requests[id].status.participants && id !in n.shared
  }

  /** Nonce custody: in every run, for every state a node may be shown, a selected
      participant that has not shared yet holds exactly the nonces whose
      commitment is in the signing package. So the `SessionNotFound` branch is
      never taken, and no reaction fails. */
  lemma SelectedNodesHoldTheirNonces(frost: Frost, w: World, events: seq<Event>, v: Identifier, at: nat)
    requires SignsOwnCommitment(frost) && Initial(w)
    requires SoundRun(frost, Run(frost, w, events).log) && AllFit(frost, Run(frost, w, events))
    requires forall u :: u in w.nodes ==> w.nodes[u].keyPackage.identifier == u
    requires v in w.nodes && at <= |Run(frost, w, events).log|
    ensures var w' := Run(frost, w, events); var s := StateAt(frost, w', at);
      && v in w'.nodes
      && React(frost, w'.nodes[v], s, w'.draw).error.None?
      && forall id :: AwaitsShareOf(s, w'.nodes[v], id) ==>
          && id in w'.nodes[v].pending
          && Carries(frost, s.requests[id].status.signingPackage, w'.nodes[v].keyPackage, w'.nodes[v].pending[id])
  {
    var w' := Run(frost, w, events);
    AlwaysGated(frost, w, events);
    AlwaysHolding(frost, w, events);
    ReactKeepsNonces(frost, w', v, at);
    SnapshotPackages(frost, w', at);
    var s := StateAt(frost, w', at);
    forall id | AwaitsShareOf(s, w'.nodes[v], id)
      ensures v in s.requests[id].status.signingPackage.commitments
      ensures Backed(frost, w'.nodes[v], id, s.requests[id].status.signingPackage.commitments[v])
    {
      assert HoldsNonces(frost, w'.nodes[v], w'.pool);
    }
  }
}
