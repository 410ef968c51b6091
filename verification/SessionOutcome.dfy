/** What a signing session over a settled chain comes to. */
module SessionOutcome {
  import opened Core
  import opened FrostSuite
  import opened Chain
  import opened Escrow
  import opened Runs
  import opened Sim
  import opened Nodes
  import opened NonceCustody
  import opened Sessions

  predicate Terminal(status: RequestStatus) {
    status.Completed? || status.Failed?
  }

  ghost predicate OthersTerminal(s: State, id: Uuid) {
    forall other :: other in s.requests && other != id ==> Terminal(s.requests[other].status)
  }

  predicate SeatOf(n: NodeState, g: GroupConfig) {
    && n.identifier in g.validators && n.identifier == n.keyPackage.identifier
    && n.keyPackage.minSigners <= g.params.threshold
  }

  predicate Apart(a: NodeState, b: NodeState) {
    a.identifier != b.identifier
  }

  /** The nodes hold distinct seats of the group, with keys of its threshold. */
  ghost predicate Seated(nodes: seq<NodeState>, g: GroupConfig) {
    && (forall i {:trigger SeatOf(nodes[i], g)} :: 0 <= i < |nodes| ==> SeatOf(nodes[i], g))
    && (forall i, j {:trigger Apart(nodes[i], nodes[j])} :: 0 <= i < |nodes| && 0 <= j < |nodes| && i != j ==>
          Apart(nodes[i], nodes[j]))
  }

  predicate Unseen(n: NodeState, id: Uuid) {
    id !in n.pending && id !in n.committed && id !in n.shared
  }

  ghost predicate FreshId(x: Session, id: Uuid) {
    id !in x.state.requests && forall i :: 0 <= i < |x.nodes| ==> Unseen(x.nodes[i], id)
  }

  /** Nothing in flight: where a session may start. */
  ghost predicate Settled(x: Session) {
    && x.mempool == []
    && x.state.group.Some? && x.state.group.value.params.threshold >= 1
    && Seated(x.nodes, x.state.group.value)
    && forall id :: id in x.state.requests ==> Terminal(x.state.requests[id].status)
  }

  /** Identifiers among the first `k` nodes whose policy approves `message`. */
  ghost function Approvers(nodes: seq<NodeState>, k: nat, message: Message): set<Identifier>
    requires k <= |nodes|
  {
    set i | 0 <= i < k && nodes[i].policy.Approves(message) :: nodes[i].identifier
  }

  // ------------------------------------------------ one active request

  lemma {:induction false} LoopSeesOne(frost: Frost, p: Progress, s: State, rest: set<Uuid>, id: Uuid)
    requires rest <= s.requests.Keys && id in s.requests && OthersTerminal(s, id)
    ensures OnRequests(frost, p, s.requests, rest) == if id in rest then OnRequest(frost, p, s.requests[id], id) else p
    decreases |rest|
  {
    if rest == {} {
    } else {
      var least := Min(rest);
      LoopSeesOne(frost, OnRequest(frost, p, s.requests[least], least), s, rest - {least}, id);
    }
  }

  lemma ReactsToOne(frost: Frost, n: NodeState, s: State, draw: nat, id: Uuid)
    requires id in s.requests && OthersTerminal(s, id) && IsMember(s, n.identifier)
    ensures React(frost, n, s, draw) == OnRequest(frost, Progress(n, draw, [], [], None), s.requests[id], id)
  {
    LoopSeesOne(frost, Progress(n, draw, [], [], None), s, s.requests.Keys, id);
  }

  function WithStatus(s: State, id: Uuid, status: RequestStatus): State
    requires id in s.requests
  {
    s.(requests := s.requests[id := s.requests[id].(status := status)])
  }

  // ------------------------------------------------ the commitment block

  /** `n'` is `n` after it offered a commitment, if it approves. */
  ghost predicate Offered(n: NodeState, n': NodeState, id: Uuid, message: Message) {
    if n.policy.Approves(message) then
      id in n'.pending && n' == n.(pending := n.pending[id := n'.pending[id]], committed := n.committed + {id})
    else
      n' == n
  }

  /** Where the request stands once the approvers' commitments are delivered. */
  ghost predicate Tallied(status: RequestStatus, approvers: set<Identifier>, threshold: nat, message: Message) {
    match status
    case AwaitingCommitments(cs) => cs.Keys == approvers && |approvers| < threshold
    case Signing(pkg, participants, shares) =>
      && pkg.message == message && pkg.commitments.Keys == participants
      && participants <= approvers && |participants| == threshold && shares == map[]
    case _ => false
  }

  ghost function CommitmentsIn(status: RequestStatus): map<Identifier, Commitments> {
    match status
    case AwaitingCommitments(cs) => cs
    case Signing(pkg, _, _) => pkg.commitments
    case _ => map[]
  }

  predicate Backs(frost: Frost, n: NodeState, id: Uuid, cs: map<Identifier, Commitments>) {
    n.identifier in cs ==> id in n.pending && cs[n.identifier] == frost.commit(n.keyPackage, n.pending[id])
  }

  /** Every counted commitment is to nonces its node holds. */
  ghost predicate AllBacked(frost: Frost, nodes: seq<NodeState>, id: Uuid, cs: map<Identifier, Commitments>) {
    forall i {:trigger Backs(frost, nodes[i], id, cs)} :: 0 <= i < |nodes| ==> Backs(frost, nodes[i], id, cs)
  }

  /** The chain has just accepted the request. */
  ghost predicate JustRequested(s: State, id: Uuid) {
    && s.group.Some? && s.group.value.params.threshold >= 1
    && id in s.requests && s.requests[id].status == AwaitingCommitments(map[])
    && OthersTerminal(s, id)
  }

  /** The status a new commitment leads to while all commitments fit the quorum. */
  lemma TallyOf(params: MpcParams, message: Message, cs: map<Identifier, Commitments>)
    requires 1 <= params.threshold && |cs| <= params.threshold
    ensures Tallied(AfterCommitment(params, message, cs), cs.Keys, params.threshold, message)
    ensures CommitmentsIn(AfterCommitment(params, message, cs)) == cs
  {
    TakeAll(cs, params.threshold);
    assert |cs.Keys| == |cs|;
  }

  lemma CommitmentStep(frost: Frost, s: State, id: Uuid, cs: map<Identifier, Commitments>, v: Identifier,
                       c: Commitments)
    requires s.group.Some? && v in s.group.value.validators && id in s.requests && v !in cs
    ensures Step(frost, WithStatus(s, id, AwaitingCommitments(cs)), SubmitCommitment(id, v, c))
      == WithStatus(s, id, AfterCommitment(s.group.value.params, s.requests[id].message, cs[v := c]))
  {
    var s' := WithStatus(s, id, AwaitingCommitments(cs));
    var next := AfterCommitment(s.group.value.params, s.requests[id].message, cs[v := c]);
    assert ApplyCommitment(s', id, v, c) ==
      Accepted(s'.(requests := s'.requests[id := s'.requests[id].(status := next)]));
    assert s'.requests[id := s'.requests[id].(status := next)] == WithStatus(s, id, next).requests;
  }

  lemma LateCommitment(frost: Frost, s: State, id: Uuid, status: RequestStatus, v: Identifier, c: Commitments)
    requires s.group.Some? && id in s.requests && !status.AwaitingCommitments?
    ensures Step(frost, WithStatus(s, id, status), SubmitCommitment(id, v, c)) == WithStatus(s, id, status)
  {
  }

  lemma CommitmentCounts(frost: Frost, s: State, id: Uuid, status: RequestStatus, approvers: set<Identifier>,
                         v: Identifier, c: Commitments) returns (next: RequestStatus)
    requires JustRequested(s, id) && v in s.group.value.validators && v !in approvers
    requires Tallied(status, approvers, s.group.value.params.threshold, s.requests[id].message)
    ensures Tallied(next, approvers + {v}, s.group.value.params.threshold, s.requests[id].message)
    ensures Step(frost, WithStatus(s, id, status), SubmitCommitment(id, v, c)) == WithStatus(s, id, next)
    ensures CommitmentsIn(next) == CommitmentsIn(status) || CommitmentsIn(next) == CommitmentsIn(status)[v := c]
  {
    match status
    case AwaitingCommitments(counted) =>
      var cs := counted[v := c];
      assert cs.Keys == approvers + {v};
      assert |cs| == |cs.Keys|;
      CommitmentStep(frost, s, id, counted, v, c);
      TallyOf(s.group.value.params, s.requests[id].message, cs);
      next := AfterCommitment(s.group.value.params, s.requests[id].message, cs);
    case _ =>
      LateCommitment(frost, s, id, status, v, c);
      next := status;
  }

  lemma ApproversGrow(nodes: seq<NodeState>, k: nat, message: Message)
    requires k < |nodes|
    ensures Approvers(nodes, k + 1, message) ==
      Approvers(nodes, k, message) + (if nodes[k].policy.Approves(message) then {nodes[k].identifier} else {})
  {
  }

  /** A node that has not seen the request offers a commitment iff it approves. */
  ghost predicate Offer(frost: Frost, n: NodeState, id: Uuid, message: Message, q: Progress) {
    && q.error.None? && Offered(n, q.node, id, message)
    && q.out == if n.policy.Approves(message)
                then [SubmitCommitment(id, n.identifier, frost.commit(n.keyPackage, q.node.pending[id]))]
                else []
  }

  lemma Offers(frost: Frost, n: NodeState, s: State, draw: nat, id: Uuid)
    requires JustRequested(s, id) && IsMember(s, n.identifier) && Unseen(n, id)
    ensures Offer(frost, n, id, s.requests[id].message, React(frost, n, s, draw))
  {
    ReactsToOne(frost, n, s, draw, id);
  }

  ghost predicate AllOffer(frost: Frost, react: Reaction, nodes: seq<NodeState>, s: State, id: Uuid, message: Message) {
    forall i, d {:trigger Offer(frost, nodes[i], id, message, react(nodes[i], s, d))} ::
      0 <= i < |nodes| ==> Offer(frost, nodes[i], id, message, react(nodes[i], s, d))
  }

  // -- the nodes' side

  /** `txs` submits exactly the commitments in `book`, each once. */
  ghost predicate Bids(txs: seq<Tx>, id: Uuid, book: map<Identifier, Commitments>) {
    if txs == [] then book == map[]
    else
      var tx := txs[|txs| - 1];
      && tx.SubmitCommitment? && tx.requestId == id && tx.validator in book && book[tx.validator] == tx.commitments
      && Bids(txs[..|txs| - 1], id, book - {tx.validator})
  }

  lemma BidsNext(txs: seq<Tx>, id: Uuid, book: map<Identifier, Commitments>, v: Identifier, c: Commitments)
    requires Bids(txs, id, book) && v !in book
    ensures Bids(txs + [SubmitCommitment(id, v, c)], id, book[v := c])
  {
    assert (txs + [SubmitCommitment(id, v, c)])[..|txs|] == txs;
    assert book[v := c] - {v} == book;
  }

  /** The first `k` nodes have answered, with the commitments in `book`. */
  ghost predicate Answered(frost: Frost, nodes: seq<NodeState>, k: nat, id: Uuid, message: Message, p: Poll,
                           book: map<Identifier, Commitments>)
    requires k <= |nodes|
  {
    && p.error.None?
    && AllOffered(nodes, k, p.nodes, id, message)
    && Bids(p.out, id, book) && book.Keys == Approvers(nodes, k, message)
    && AllBacked(frost, p.nodes, id, book)
  }

  ghost predicate AllOffered(nodes: seq<NodeState>, k: nat, after: seq<NodeState>, id: Uuid, message: Message)
    requires k <= |nodes|
  {
    && |after| == |nodes|
    && (forall i {:trigger Offered(nodes[i], after[i], id, message)} :: 0 <= i < k ==>
          Offered(nodes[i], after[i], id, message))
    && after[k..] == nodes[k..]
  }

  ghost predicate AnsweredTo(frost: Frost, react: Reaction, nodes: seq<NodeState>, k: nat, s: State, draw: nat,
                             id: Uuid, message: Message, book: map<Identifier, Commitments>)
    requires k <= |nodes|
  {
    Answered(frost, nodes, k, id, message, PollFirst(react, nodes, k, s, draw), book)
  }

  /** Seated nodes, each of which answers the request with an offer. */
  ghost predicate Asked(frost: Frost, react: Reaction, nodes: seq<NodeState>, s: State, id: Uuid, message: Message,
                        g: GroupConfig) {
    Seated(nodes, g) && AllOffer(frost, react, nodes, s, id, message)
  }

  lemma {:induction false} CommitmentPoll(frost: Frost, react: Reaction, nodes: seq<NodeState>, k: nat, s: State,
                                          draw: nat, id: Uuid, message: Message, g: GroupConfig)
    returns (book: map<Identifier, Commitments>)
    requires k <= |nodes| && Asked(frost, react, nodes, s, id, message, g)
    ensures AnsweredTo(frost, react, nodes, k, s, draw, id, message, book)
  {
    if k == 0 {
      book := map[];
      NoAnswersYet(frost, nodes, draw, id, message);
    } else {
      var before := CommitmentPoll(frost, react, nodes, k - 1, s, draw, id, message, g);
      book := CommitmentPollStep(frost, react, nodes, k - 1, k, s, draw, id, message, g, before);
    }
  }

  lemma CommitmentPollStep(frost: Frost, react: Reaction, nodes: seq<NodeState>, k: nat, k': nat, s: State, draw: nat,
                           id: Uuid, message: Message, g: GroupConfig, before: map<Identifier, Commitments>)
    returns (book: map<Identifier, Commitments>)
    requires k < |nodes| && k' == k + 1 && Asked(frost, react, nodes, s, id, message, g)
    requires AnsweredTo(frost, react, nodes, k, s, draw, id, message, before)
    ensures AnsweredTo(frost, react, nodes, k', s, draw, id, message, book)
  {
    var p := PollFirst(react, nodes, k, s, draw);
    PollNext(react, nodes, k, s, draw);
    var q := OfferOf(frost, react, nodes, k, s, p.draw, id, message);
    book := NextAnswer(frost, nodes, k, id, message, p, q, PollFirst(react, nodes, k', s, draw), before, g);
  }

  lemma NoAnswersYet(frost: Frost, nodes: seq<NodeState>, draw: nat, id: Uuid, message: Message)
    ensures Answered(frost, nodes, 0, id, message, Poll(nodes, draw, [], None), map[])
  {
    assert Approvers(nodes, 0, message) == {};
    forall i | 0 <= i < |nodes| ensures Backs(frost, nodes[i], id, map[]) {}
  }

  lemma OfferOf(frost: Frost, react: Reaction, nodes: seq<NodeState>, k: nat, s: State, draw: nat, id: Uuid,
                message: Message)
    returns (q: Progress)
    requires k < |nodes| && AllOffer(frost, react, nodes, s, id, message)
    ensures q == react(nodes[k], s, draw) && Offer(frost, nodes[k], id, message, q)
  {
    q := react(nodes[k], s, draw);
    assert Offer(frost, nodes[k], id, message, react(nodes[k], s, draw));
  }

  lemma NextAnswer(frost: Frost, nodes: seq<NodeState>, k: nat, id: Uuid, message: Message, p: Poll, q: Progress,
                   p': Poll, before: map<Identifier, Commitments>, g: GroupConfig)
    returns (book: map<Identifier, Commitments>)
    requires k < |nodes| && Seated(nodes, g)
    requires Answered(frost, nodes, k, id, message, p, before) && Offer(frost, nodes[k], id, message, q)
    requires p' == Extended(p, k, q)
    ensures Answered(frost, nodes, k + 1, id, message, p', book)
  {
    var n := nodes[k];
    ApproversGrow(nodes, k, message);
    NextOffered(nodes, k, p.nodes, q.node, id, message);
    StillSeated(nodes, k, p.nodes, id, message, g);
    if n.policy.Approves(message) {
      var c := frost.commit(n.keyPackage, q.node.pending[id]);
      NotYetCounted(nodes, k, message, g);
      BidsNext(p.out, id, before, n.identifier, c);
      book := before[n.identifier := c];
      BackedByNext(frost, p.nodes, k, q.node, id, g, before, c);
    } else {
      book := before;
      assert p.out + q.Emitted() == p.out;
      assert p.nodes[k := q.node] == p.nodes;
    }
  }

  lemma NotYetCounted(nodes: seq<NodeState>, k: nat, message: Message, g: GroupConfig)
    requires k < |nodes| && Seated(nodes, g)
    ensures nodes[k].identifier !in Approvers(nodes, k, message)
  {
    forall i | 0 <= i < k ensures nodes[i].identifier != nodes[k].identifier {
      assert Apart(nodes[i], nodes[k]);
    }
  }

  lemma NextOffered(nodes: seq<NodeState>, k: nat, after: seq<NodeState>, n: NodeState, id: Uuid, message: Message)
    requires k < |nodes| && AllOffered(nodes, k, after, id, message) && Offered(nodes[k], n, id, message)
    ensures AllOffered(nodes, k + 1, after[k := n], id, message)
  {
    forall i | 0 <= i < k + 1 ensures Offered(nodes[i], after[k := n][i], id, message) {
      assert i < k ==> Offered(nodes[i], after[i], id, message);
    }
    forall i | k + 1 <= i < |nodes| ensures after[i] == nodes[i] {
      assert after[i] == after[k..][i - k] && nodes[i] == nodes[k..][i - k];
    }
  }

  lemma BackedByNext(frost: Frost, nodes: seq<NodeState>, k: nat, n: NodeState, id: Uuid, g: GroupConfig,
                     cs: map<Identifier, Commitments>, c: Commitments)
    requires k < |nodes| && AllBacked(frost, nodes, id, cs) && nodes[k].identifier == n.identifier
    requires id in n.pending && c == frost.commit(n.keyPackage, n.pending[id]) && Seated(nodes, g)
    ensures AllBacked(frost, nodes[k := n], id, cs[n.identifier := c])
  {
    var after, cs' := nodes[k := n], cs[n.identifier := c];
    forall i | 0 <= i < |after| ensures Backs(frost, after[i], id, cs') {
      if i != k {
        assert Apart(nodes[i], nodes[k]) && Backs(frost, nodes[i], id, cs);
      }
    }
  }

  lemma StillSeated(nodes: seq<NodeState>, k: nat, after: seq<NodeState>, id: Uuid, message: Message, g: GroupConfig)
    requires k <= |nodes| && Seated(nodes, g) && AllOffered(nodes, k, after, id, message)
    ensures Seated(after, g)
    ensures k < |nodes| ==> after[k] == nodes[k]
  {
    forall i | 0 <= i < |nodes|
      ensures after[i].identifier == nodes[i].identifier && after[i].keyPackage == nodes[i].keyPackage
    {
      if i < k {
        assert Offered(nodes[i], after[i], id, message);
      } else {
        assert after[i] == after[k..][i - k] && nodes[i] == nodes[k..][i - k];
      }
    }
    forall i | 0 <= i < |nodes| ensures SeatOf(after[i], g) {
      assert SeatOf(nodes[i], g);
    }
    forall i, j | 0 <= i < |nodes| && 0 <= j < |nodes| && i != j ensures Apart(after[i], after[j]) {
      assert Apart(nodes[i], nodes[j]);
    }
  }

  // -- the chain's side

  /** The chain once the commitments in `book` have been delivered: those that
      were counted are among them. */
  ghost predicate Counted(s: State, id: Uuid, book: map<Identifier, Commitments>, status: RequestStatus, after: State)
    requires JustRequested(s, id)
  {
    && after == WithStatus(s, id, status)
    && Tallied(status, book.Keys, s.group.value.params.threshold, s.requests[id].message)
    && forall v :: v in CommitmentsIn(status) ==> v in book && CommitmentsIn(status)[v] == book[v]
  }

  lemma {:induction false} BidsDelivered(frost: Frost, s: State, id: Uuid, txs: seq<Tx>,
                                         book: map<Identifier, Commitments>)
    returns (status: RequestStatus)
    requires JustRequested(s, id) && Bids(txs, id, book) && book.Keys <= s.group.value.validators
    ensures Counted(s, id, book, status, Deliver(frost, s, txs))
    decreases |txs|
  {
    if txs == [] {
      status := AwaitingCommitments(map[]);
      assert WithStatus(s, id, status) == s;
    } else {
      var front, tx := txs[..|txs| - 1], txs[|txs| - 1];
      var rest := book - {tx.validator};
      var before := BidsDelivered(frost, s, id, front, rest);
      status := CommitmentCounts(frost, s, id, before, rest.Keys, tx.validator, tx.commitments);
      assert rest.Keys + {tx.validator} == book.Keys;
      assert tx == SubmitCommitment(id, tx.validator, tx.commitments);
    }
  }

  // ------------------------------------------------ a quiet block

  ghost predicate Silent(n: NodeState, q: Progress) {
    q.error.None? && q.node == n && q.out == []
  }

  lemma {:induction false} QuietBlock(react: Reaction, nodes: seq<NodeState>, k: nat, s: State, draw: nat)
    requires k <= |nodes|
    requires forall i, d {:trigger Silent(nodes[i], react(nodes[i], s, d))} :: 0 <= i < |nodes| ==>
      Silent(nodes[i], react(nodes[i], s, d))
    ensures var p := PollFirst(react, nodes, k, s, draw); p.error.None? && p.out == [] && p.nodes == nodes
  {
    if k == 0 {
    } else {
      QuietBlock(react, nodes, k - 1, s, draw);
      var p := PollFirst(react, nodes, k - 1, s, draw);
      assert Silent(nodes[k - 1], react(nodes[k - 1], s, p.draw));
    }
  }

  /** Short of a quorum, nobody has anything more to say. */
  lemma ShortOfQuorumIsSilent(frost: Frost, n: NodeState, n': NodeState, s: State, draw: nat, id: Uuid)
    requires id in s.requests && OthersTerminal(s, id) && IsMember(s, n'.identifier)
    requires s.requests[id].status.AwaitingCommitments? && Offered(n, n', id, s.requests[id].message)
    requires n.policy.Approves(s.requests[id].message) ==> n'.identifier in s.requests[id].status.commitments
    requires !n.policy.Approves(s.requests[id].message) ==> n'.identifier !in s.requests[id].status.commitments
    ensures Silent(n', React(frost, n', s, draw))
  {
    ReactsToOne(frost, n', s, draw, id);
    if n.policy.Approves(s.requests[id].message) {
      assert n'.committed + {id} == n'.committed;
    }
  }

  // ------------------------------------------------ the share block

  /** A share of `v` over `pkg` from one of `keys` and the committed nonces. */
  ghost predicate SignedBy(frost: Frost, keys: set<KeyPackage>, pkg: SigningPackage, r: Randomizer, v: Identifier,
                           share: Share) {
    exists key, nonces ::
      key in keys && key.identifier == v && Carries(frost, pkg, key, nonces)
        && frost.sign(pkg, nonces, key, r) == Ok(share)
  }

  ghost predicate AllSigned(frost: Frost, keys: set<KeyPackage>, pkg: SigningPackage, r: Randomizer,
                            shares: map<Identifier, Share>) {
    forall v {:trigger SignedBy(frost, keys, pkg, r, v, shares[v])} :: v in shares ==>
      SignedBy(frost, keys, pkg, r, v, shares[v])
  }

  ghost function KeysOf(nodes: seq<NodeState>): set<KeyPackage> {
    set i | 0 <= i < |nodes| :: nodes[i].keyPackage
  }

  ghost function Seats(nodes: seq<NodeState>, k: nat): set<Identifier>
    requires k <= |nodes|
  {
    set i | 0 <= i < k :: nodes[i].identifier
  }

  /** The quorum has just been selected. */
  ghost predicate JustSelected(s: State, id: Uuid, pkg: SigningPackage, participants: set<Identifier>) {
    && s.group.Some? && id in s.requests && OthersTerminal(s, id)
    && s.requests[id].status == Signing(pkg, participants, map[])
    && participants != {} && participants <= s.group.value.validators
    && |participants| == s.group.value.params.threshold
    && pkg.commitments.Keys == participants
  }

  /** The signing job at hand. */
  datatype Job = Job(id: Uuid, pkg: SigningPackage, participants: set<Identifier>, randomizer: Randomizer,
                     keys: set<KeyPackage>)

  /** A selected node signs with the nonces it committed to; others do nothing. */
  ghost predicate Contribution(frost: Frost, job: Job, n: NodeState, q: Progress) {
    && q.error.None?
    && if n.identifier in job.participants then
         && |q.out| == 1 && q.out[0].SubmitShare? && q.out[0] == SubmitShare(job.id, n.identifier, q.out[0].share)
         && SignedBy(frost, job.keys, job.pkg, job.randomizer, n.identifier, q.out[0].share)
       else q.out == []
  }

  lemma Contributes(frost: Frost, job: Job, n: NodeState, s: State, draw: nat)
    requires JustSelected(s, job.id, job.pkg, job.participants) && job.randomizer == s.requests[job.id].randomizer
    requires SignsOwnCommitment(frost) && s.group.Some? && SeatOf(n, s.group.value)
    requires n.keyPackage in job.keys && job.id !in n.shared
    requires Backs(frost, n, job.id, job.pkg.commitments)
    ensures Contribution(frost, job, n, React(frost, n, s, draw))
  {
    ReactsToOne(frost, n, s, draw, job.id);
    if n.identifier in job.participants {
      assert |job.pkg.commitments| == |job.pkg.commitments.Keys|;
      assert Carries(frost, job.pkg, n.keyPackage, n.pending[job.id]);
    }
  }

  ghost predicate AllContribute(frost: Frost, react: Reaction, job: Job, nodes: seq<NodeState>, s: State) {
    forall i, d {:trigger Contribution(frost, job, nodes[i], react(nodes[i], s, d))} ::
      0 <= i < |nodes| ==> Contribution(frost, job, nodes[i], react(nodes[i], s, d))
  }

  /** `txs` submits exactly `shares`, each once. */
  ghost predicate Submits(txs: seq<Tx>, id: Uuid, shares: map<Identifier, Share>) {
    if txs == [] then shares == map[]
    else
      var tx := txs[|txs| - 1];
      && tx.SubmitShare? && tx.requestId == id && tx.validator in shares && shares[tx.validator] == tx.share
      && Submits(txs[..|txs| - 1], id, shares - {tx.validator})
  }

  lemma SubmitsNext(txs: seq<Tx>, id: Uuid, shares: map<Identifier, Share>, v: Identifier, share: Share)
    requires Submits(txs, id, shares) && v !in shares
    ensures Submits(txs + [SubmitShare(id, v, share)], id, shares[v := share])
  {
    assert (txs + [SubmitShare(id, v, share)])[..|txs|] == txs;
    assert shares[v := share] - {v} == shares;
  }

  /** The first `k` nodes have contributed `shares`. */
  ghost predicate Gathered(frost: Frost, job: Job, nodes: seq<NodeState>, k: nat, p: Poll,
                           shares: map<Identifier, Share>)
    requires k <= |nodes|
  {
    && p.error.None? && Submits(p.out, job.id, shares)
    && shares.Keys == job.participants * Seats(nodes, k)
    && AllSigned(frost, job.keys, job.pkg, job.randomizer, shares)
  }

  ghost predicate GatheredTo(frost: Frost, react: Reaction, job: Job, nodes: seq<NodeState>, k: nat, s: State,
                             draw: nat, shares: map<Identifier, Share>)
    requires k <= |nodes|
  {
    Gathered(frost, job, nodes, k, PollFirst(react, nodes, k, s, draw), shares)
  }

  /** Seated nodes, each of which contributes to the job. */
  ghost predicate AtWork(frost: Frost, react: Reaction, job: Job, nodes: seq<NodeState>, s: State, g: GroupConfig) {
    Seated(nodes, g) && AllContribute(frost, react, job, nodes, s)
  }

  lemma {:induction false} ShareBlock(frost: Frost, react: Reaction, job: Job, nodes: seq<NodeState>, k: nat, s: State,
                                      draw: nat, g: GroupConfig) returns (shares: map<Identifier, Share>)
    requires k <= |nodes| && AtWork(frost, react, job, nodes, s, g)
    ensures GatheredTo(frost, react, job, nodes, k, s, draw, shares)
  {
    if k == 0 {
      shares := map[];
      NothingGathered(frost, job, nodes, draw);
    } else {
      var before := ShareBlock(frost, react, job, nodes, k - 1, s, draw, g);
      shares := ShareBlockStep(frost, react, job, nodes, k - 1, k, s, draw, g, before);
    }
  }

  lemma ShareBlockStep(frost: Frost, react: Reaction, job: Job, nodes: seq<NodeState>, k: nat, k': nat, s: State,
                       draw: nat, g: GroupConfig,
                       before: map<Identifier, Share>) returns (shares: map<Identifier, Share>)
    requires k < |nodes| && k' == k + 1 && AtWork(frost, react, job, nodes, s, g)
    requires GatheredTo(frost, react, job, nodes, k, s, draw, before)
    ensures GatheredTo(frost, react, job, nodes, k', s, draw, shares)
  {
    var p := PollFirst(react, nodes, k, s, draw);
    PollNext(react, nodes, k, s, draw);
    var q := ContributionOf(frost, react, job, nodes, k, s, p.draw);
    shares := NextShares(frost, job, nodes, k, p, q, PollFirst(react, nodes, k', s, draw), before, g);
  }

  lemma NothingGathered(frost: Frost, job: Job, nodes: seq<NodeState>, draw: nat)
    ensures Gathered(frost, job, nodes, 0, Poll(nodes, draw, [], None), map[])
  {
    assert Seats(nodes, 0) == {};
  }

  lemma ContributionOf(frost: Frost, react: Reaction, job: Job, nodes: seq<NodeState>, k: nat, s: State, draw: nat)
    returns (q: Progress)
    requires k < |nodes| && AllContribute(frost, react, job, nodes, s)
    ensures q == react(nodes[k], s, draw) && Contribution(frost, job, nodes[k], q)
  {
    q := react(nodes[k], s, draw);
    assert Contribution(frost, job, nodes[k], react(nodes[k], s, draw));
  }

  lemma NextShares(frost: Frost, job: Job, nodes: seq<NodeState>, k: nat, p: Poll, q: Progress, p': Poll,
                   before: map<Identifier, Share>, g: GroupConfig) returns (shares: map<Identifier, Share>)
    requires k < |nodes| == |p.nodes| && Seated(nodes, g)
    requires Gathered(frost, job, nodes, k, p, before) && Contribution(frost, job, nodes[k], q)
    requires p' == Extended(p, k, q)
    ensures Gathered(frost, job, nodes, k + 1, p', shares)
  {
    var n := nodes[k];
    SeatsGrow(nodes, k, g);
    if n.identifier in job.participants {
      var share := q.out[0].share;
      SubmitsNext(p.out, job.id, before, n.identifier, share);
      NextSigned(frost, job.keys, job.pkg, job.randomizer, before, n.identifier, share);
      assert q.out == [SubmitShare(job.id, n.identifier, share)];
      shares := before[n.identifier := share];
    } else {
      assert p.out + q.out == p.out;
      shares := before;
    }
  }

  lemma NextSigned(frost: Frost, keys: set<KeyPackage>, pkg: SigningPackage, r: Randomizer,
                   before: map<Identifier, Share>, v: Identifier, share: Share)
    requires AllSigned(frost, keys, pkg, r, before) && SignedBy(frost, keys, pkg, r, v, share)
    ensures AllSigned(frost, keys, pkg, r, before[v := share])
  {
    var after := before[v := share];
    forall u | u in after ensures SignedBy(frost, keys, pkg, r, u, after[u]) {
      assert u != v ==> SignedBy(frost, keys, pkg, r, u, before[u]);
    }
  }

  lemma SeatsGrow(nodes: seq<NodeState>, k: nat, g: GroupConfig)
    requires k < |nodes| && Seated(nodes, g)
    ensures Seats(nodes, k + 1) == Seats(nodes, k) + {nodes[k].identifier}
    ensures nodes[k].identifier !in Seats(nodes, k)
  {
    forall i | 0 <= i < k ensures nodes[i].identifier != nodes[k].identifier {
      assert Apart(nodes[i], nodes[k]);
    }
  }

  ghost function AfterShares(frost: Frost, s: State, id: Uuid, pkg: SigningPackage, participants: set<Identifier>,
                             shares: map<Identifier, Share>): State
    requires s.group.Some? && id in s.requests
  {
    WithStatus(s, id, AfterShare(frost, s.group.value.pkp, s.requests[id].randomizer, pkg, participants, shares))
  }

  lemma {:induction false} SharesDelivered(frost: Frost, s: State, id: Uuid, pkg: SigningPackage,
                                           participants: set<Identifier>, txs: seq<Tx>, shares: map<Identifier, Share>)
    requires JustSelected(s, id, pkg, participants) && Submits(txs, id, shares) && shares.Keys <= participants
    ensures Deliver(frost, s, txs) == AfterShares(frost, s, id, pkg, participants, shares)
    decreases |txs|
  {
    if txs == [] {
      assert WithStatus(s, id, s.requests[id].status) == s;
    } else {
      var front, tx := txs[..|txs| - 1], txs[|txs| - 1];
      var before := shares - {tx.validator};
      SharesDelivered(frost, s, id, pkg, participants, front, before);
      SubsetCardinality(before.Keys, participants);
      assert |before| == |before.Keys|;
      ShareStep(frost, s, id, Signing(pkg, participants, before), tx.validator, tx.share);
      assert before[tx.validator := tx.share] == shares;
      assert tx == SubmitShare(id, tx.validator, tx.share);
    }
  }

  lemma ShareStep(frost: Frost, s: State, id: Uuid, status: RequestStatus, v: Identifier, share: Share)
    requires s.group.Some? && v in s.group.value.validators && id in s.requests
    requires status.Signing? && v in status.participants && v !in status.shares
    ensures Step(frost, WithStatus(s, id, status), SubmitShare(id, v, share))
      == AfterShares(frost, s, id, status.signingPackage, status.participants, status.shares[v := share])
  {
    var s' := WithStatus(s, id, status);
    var next := AfterShare(frost, s.group.value.pkp, s.requests[id].randomizer, status.signingPackage,
                           status.participants, status.shares[v := share]);
    assert ApplyShare(frost, s', id, v, share) ==
      Accepted(s'.(requests := s'.requests[id := s'.requests[id].(status := next)]));
    assert s'.requests[id := s'.requests[id].(status := next)] == WithStatus(s, id, next).requests;
  }

  // ------------------------------------------------ what a session leaves alone

  /** From `n` to `n'`, only what concerns `id` has changed. */
  ghost predicate Touched(n: NodeState, n': NodeState, id: Uuid) {
    && n'.identifier == n.identifier && n'.keyPackage == n.keyPackage && n'.policy == n.policy
    && n'.pending.Keys <= n.pending.Keys + {id}
    && n'.committed <= n.committed + {id}
    && n'.shared <= n.shared + {id}
  }

  ghost predicate AllTouched(nodes: seq<NodeState>, after: seq<NodeState>, id: Uuid) {
    && |after| == |nodes|
    && forall i {:trigger Touched(nodes[i], after[i], id)} :: 0 <= i < |nodes| ==> Touched(nodes[i], after[i], id)
  }

  lemma ReactTouches(frost: Frost, n: NodeState, s: State, draw: nat, id: Uuid)
    requires id in s.requests && OthersTerminal(s, id) && IsMember(s, n.identifier)
    ensures Touched(n, React(frost, n, s, draw).node, id)
  {
    ReactsToOne(frost, n, s, draw, id);
  }

  lemma {:induction false} PollTouches(react: Reaction, nodes: seq<NodeState>, k: nat, s: State, draw: nat, id: Uuid)
    requires k <= |nodes|
    requires forall i, d {:trigger Touched(nodes[i], react(nodes[i], s, d).node, id)} :: 0 <= i < |nodes| ==>
      Touched(nodes[i], react(nodes[i], s, d).node, id)
    ensures AllTouched(nodes, PollFirst(react, nodes, k, s, draw).nodes, id)
  {
    var after := PollFirst(react, nodes, k, s, draw).nodes;
    if k == 0 {
      forall i | 0 <= i < |nodes| ensures Touched(nodes[i], after[i], id) {}
    } else {
      var p := PollFirst(react, nodes, k - 1, s, draw);
      PollTouches(react, nodes, k - 1, s, draw, id);
      forall i | 0 <= i < |nodes| ensures Touched(nodes[i], after[i], id) {
        assert Touched(nodes[i], p.nodes[i], id);
        assert Touched(nodes[k - 1], react(nodes[k - 1], s, p.draw).node, id);
      }
    }
  }

  lemma TouchedTwice(a: seq<NodeState>, b: seq<NodeState>, c: seq<NodeState>, id: Uuid)
    requires AllTouched(a, b, id) && AllTouched(b, c, id)
    ensures AllTouched(a, c, id)
  {
    forall i | 0 <= i < |a| ensures Touched(a[i], c[i], id) {
      assert Touched(a[i], b[i], id) && Touched(b[i], c[i], id);
    }
  }

  lemma TouchedSeats(nodes: seq<NodeState>, after: seq<NodeState>, id: Uuid, g: GroupConfig)
    requires AllTouched(nodes, after, id) && Seated(nodes, g)
    ensures Seated(after, g)
  {
    forall i | 0 <= i < |after| ensures SeatOf(after[i], g) {
      assert Touched(nodes[i], after[i], id) && SeatOf(nodes[i], g);
    }
    forall i, j | 0 <= i < |after| && 0 <= j < |after| && i != j ensures Apart(after[i], after[j]) {
      assert Touched(nodes[i], after[i], id) && Touched(nodes[j], after[j], id) && Apart(nodes[i], nodes[j]);
    }
  }

  // ------------------------------------------------ turn by turn

  ghost function Opened(x: Session, id: Uuid, message: Message, r: Randomizer): State {
    x.state.(requests := x.state.requests[id := RequestEntry(id, message, r, AwaitingCommitments(map[]))])
  }

  lemma RequestTurn(frost: Frost, x: Session, id: Uuid, message: Message, r: Randomizer)
    requires Settled(x) && FreshId(x, id)
    ensures var tx := SubmitRequest(id, message, r);
      && FirstRefusal(Results(frost, x.state, x.mempool + [tx])).None?
      && Requested(frost, x, tx) == Session(Opened(x, id, message, r), [], x.height + 1, x.nodes, x.draw)
    ensures JustRequested(Opened(x, id, message, r), id)
  {
    var tx := SubmitRequest(id, message, r);
    assert x.mempool + [tx] == [tx];
    OneAccepted(frost, x.state, tx);
  }

  lemma OneAccepted(frost: Frost, s: State, tx: Tx)
    requires ApplyTx(frost, s, tx).Accepted?
    ensures FirstRefusal(Results(frost, s, [tx])).None? && Deliver(frost, s, [tx]) == ApplyTx(frost, s, tx).state
  {
    SingleResult(frost, s, tx);
    NoRefusal(tx);
  }

  lemma SingleResult(frost: Frost, s: State, tx: Tx)
    ensures Results(frost, s, [tx]) == [(tx, ResultOf(ApplyTx(frost, s, tx)))]
    ensures Deliver(frost, s, [tx]) == Step(frost, s, tx)
  {
    assert [tx][..|[tx]| - 1] == [];
  }

  lemma NoRefusal(tx: Tx)
    ensures FirstRefusal([(tx, Applied)]).None?
  {
    var results := [(tx, Applied)];
    assert results[..|results| - 1] == [];
  }

  /** The session after the commitment block. */
  ghost predicate AfterCommitments(frost: Frost, y: Session, z: Session, id: Uuid, status: RequestStatus)
    requires JustRequested(y.state, id)
  {
    var message := y.state.requests[id].message;
    && z.state == WithStatus(y.state, id, status) && z.mempool == [] && z.height == y.height + 1
    && AllOffered(y.nodes, |y.nodes|, z.nodes, id, message)
    && AllTouched(y.nodes, z.nodes, id)
    && Tallied(status, Approvers(y.nodes, |y.nodes|, message), y.state.group.value.params.threshold, message)
    && AllBacked(frost, z.nodes, id, CommitmentsIn(status))
  }

  lemma CommitmentTurn(frost: Frost, y: Session, id: Uuid) returns (status: RequestStatus)
    requires JustRequested(y.state, id) && y.mempool == [] && Seated(y.nodes, y.state.group.value)
    requires forall i :: 0 <= i < |y.nodes| ==> Unseen(y.nodes[i], id)
    ensures AfterCommitments(frost, y, AfterPoll(frost, y), id, status)
    ensures TurnVerdict(frost, y, id) ==
      Verdict(WithStatus(y.state, id, status), id, Approvers(y.nodes, |y.nodes|, y.state.requests[id].message) != {})
  {
    var react, message, g := Reacting(frost), y.state.requests[id].message, y.state.group.value;
    AllReact(frost, y.nodes, y.state, id);
    forall i, d | 0 <= i < |y.nodes| ensures Offer(frost, y.nodes[i], id, message, react(y.nodes[i], y.state, d)) {
      assert SeatOf(y.nodes[i], g);
      Offers(frost, y.nodes[i], y.state, d, id);
    }
    var book := CommitmentPoll(frost, react, y.nodes, |y.nodes|, y.state, y.draw, id, message, g);
    ApproversSit(y.nodes, message, g);
    status := BidsDelivered(frost, y.state, id, PollNodes(react, y.nodes, y.state, y.draw).out, book);
    BackedSubset(frost, AfterPoll(frost, y).nodes, id, book, CommitmentsIn(status));
    PollTouches(react, y.nodes, |y.nodes|, y.state, y.draw, id);
    assert y.mempool + PollNodes(react, y.nodes, y.state, y.draw).out == PollNodes(react, y.nodes, y.state, y.draw).out;
  }

  lemma ApproversSit(nodes: seq<NodeState>, message: Message, g: GroupConfig)
    requires Seated(nodes, g)
    ensures Approvers(nodes, |nodes|, message) <= g.validators
  {
    forall v | v in Approvers(nodes, |nodes|, message) ensures v in g.validators {
      var i :| 0 <= i < |nodes| && nodes[i].identifier == v;
      assert SeatOf(nodes[i], g);
    }
  }

  lemma BackedSubset(frost: Frost, nodes: seq<NodeState>, id: Uuid, book: map<Identifier, Commitments>,
                     cs: map<Identifier, Commitments>)
    requires AllBacked(frost, nodes, id, book) && forall v :: v in cs ==> v in book && cs[v] == book[v]
    ensures AllBacked(frost, nodes, id, cs)
  {
    forall i | 0 <= i < |nodes| ensures Backs(frost, nodes[i], id, cs) {
      assert Backs(frost, nodes[i], id, book);
    }
  }

  lemma AllReact(frost: Frost, nodes: seq<NodeState>, s: State, id: Uuid)
    requires id in s.requests && OthersTerminal(s, id) && s.group.Some? && Seated(nodes, s.group.value)
    ensures forall i, d {:trigger Touched(nodes[i], Reacting(frost)(nodes[i], s, d).node, id)} :: 0 <= i < |nodes| ==>
      Touched(nodes[i], Reacting(frost)(nodes[i], s, d).node, id)
  {
    forall i, d | 0 <= i < |nodes| ensures Touched(nodes[i], Reacting(frost)(nodes[i], s, d).node, id) {
      assert SeatOf(nodes[i], s.group.value);
      ReactTouches(frost, nodes[i], s, d, id);
    }
  }

  lemma QuietTurn(frost: Frost, y: Session, z: Session, id: Uuid, status: RequestStatus)
    requires JustRequested(y.state, id) && Seated(y.nodes, y.state.group.value)
    requires AfterCommitments(frost, y, z, id, status) && status.AwaitingCommitments?
    ensures TurnVerdict(frost, z, id) == Some(Err(StuckBeforeCompletion("AwaitingCommitments")))
    ensures AfterPoll(frost, z).height == z.height + 1
  {
    var react, message := Reacting(frost), y.state.requests[id].message;
    TouchedSeats(y.nodes, z.nodes, id, y.state.group.value);
    forall i, d | 0 <= i < |z.nodes| ensures Silent(z.nodes[i], react(z.nodes[i], z.state, d)) {
      assert SeatOf(z.nodes[i], z.state.group.value);
      assert Offered(y.nodes[i], z.nodes[i], id, message) && Touched(y.nodes[i], z.nodes[i], id);
      ApproverIff(y.nodes, i, message, y.state.group.value);
      ShortOfQuorumIsSilent(frost, y.nodes[i], z.nodes[i], z.state, d, id);
    }
    QuietBlock(react, z.nodes, |z.nodes|, z.state, z.draw);
    assert z.mempool + [] == [];
  }

  lemma ApproverIff(nodes: seq<NodeState>, i: nat, message: Message, g: GroupConfig)
    requires i < |nodes| && Seated(nodes, g)
    ensures nodes[i].identifier in Approvers(nodes, |nodes|, message) <==> nodes[i].policy.Approves(message)
  {
    forall j | 0 <= j < |nodes| && j != i ensures nodes[j].identifier != nodes[i].identifier {
      assert Apart(nodes[j], nodes[i]);
    }
  }

  lemma SharePoll(frost: Frost, y: Session, z: Session, id: Uuid,
                  status: RequestStatus) returns (shares: map<Identifier, Share>)
    requires JustRequested(y.state, id) && Seated(y.nodes, y.state.group.value) && SignsOwnCommitment(frost)
    requires forall i :: 0 <= i < |y.nodes| ==> Unseen(y.nodes[i], id)
    requires AfterCommitments(frost, y, z, id, status) && status.Signing?
    ensures shares.Keys == status.participants
    ensures AllSigned(frost, KeysOf(y.nodes), status.signingPackage, y.state.requests[id].randomizer, shares)
    ensures PollNodes(Reacting(frost), z.nodes, z.state, z.draw).error.None?
    ensures Submits(PollNodes(Reacting(frost), z.nodes, z.state, z.draw).out, id, shares)
    ensures JustSelected(z.state, id, status.signingPackage, status.participants)
    ensures Seated(z.nodes, z.state.group.value)
  {
    var pkg, ps, g := status.signingPackage, status.participants, y.state.group.value;
    var job := Job(id, pkg, ps, y.state.requests[id].randomizer, KeysOf(y.nodes));
    TouchedSeats(y.nodes, z.nodes, id, g);
    SelectedSeats(y.nodes, z.nodes, id, y.state.requests[id].message, ps, g);
    assert JustSelected(z.state, id, pkg, ps);
    ReadyToContribute(frost, job, y.nodes, z.nodes, z.state);
    shares := ShareBlock(frost, Reacting(frost), job, z.nodes, |z.nodes|, z.state, z.draw, g);
    assert shares.Keys == ps;
  }

  lemma ShareTurn(frost: Frost, z: Session, id: Uuid, pkg: SigningPackage, participants: set<Identifier>,
                  shares: map<Identifier, Share>)
    requires JustSelected(z.state, id, pkg, participants) && z.mempool == [] && shares.Keys == participants
    requires Seated(z.nodes, z.state.group.value)
    requires PollNodes(Reacting(frost), z.nodes, z.state, z.draw).error.None?
    requires Submits(PollNodes(Reacting(frost), z.nodes, z.state, z.draw).out, id, shares)
    ensures var z' := AfterPoll(frost, z);
      && z'.state == AfterShares(frost, z.state, id, pkg, participants, shares)
      && z'.mempool == [] && z'.height == z.height + 1 && AllTouched(z.nodes, z'.nodes, id)
    ensures TurnVerdict(frost, z, id) ==
      Some(OutcomeOf(frost.aggregate(pkg, shares, z.state.group.value.pkp, z.state.requests[id].randomizer)))
  {
    var react := Reacting(frost);
    var out := PollNodes(react, z.nodes, z.state, z.draw).out;
    AllReact(frost, z.nodes, z.state, id);
    PollTouches(react, z.nodes, |z.nodes|, z.state, z.draw, id);
    SharesDelivered(frost, z.state, id, pkg, participants, out, shares);
    assert z.mempool + out == out;
    FullVerdict(frost, z.state, id, pkg, participants, shares, out != []);
  }

  /** What the driver makes of an aggregation. */
  function OutcomeOf(r: Result<Signature, string>): Result<Signature, SignError> {
    match r
    case Ok(signature) => Ok(signature)
    case Err(reason) => Err(AggregationFailed(reason))
  }

  lemma FullVerdict(frost: Frost, s: State, id: Uuid, pkg: SigningPackage, participants: set<Identifier>,
                    shares: map<Identifier, Share>, emittedAny: bool)
    requires s.group.Some? && id in s.requests && shares.Keys == participants
    ensures Verdict(AfterShares(frost, s, id, pkg, participants, shares), id, emittedAny) ==
      Some(OutcomeOf(frost.aggregate(pkg, shares, s.group.value.pkp, s.requests[id].randomizer)))
  {
    assert |shares| == |shares.Keys|;
  }

  /** The participants sit among the nodes and in the group. */
  lemma SelectedSeats(nodes: seq<NodeState>, after: seq<NodeState>, id: Uuid, message: Message,
                      participants: set<Identifier>, g: GroupConfig)
    requires Seated(nodes, g) && AllTouched(nodes, after, id)
    requires participants <= Approvers(nodes, |nodes|, message)
    ensures participants <= Seats(after, |after|) && participants <= g.validators
  {
    forall v | v in participants ensures v in Seats(after, |after|) && v in g.validators {
      var i :| 0 <= i < |nodes| && nodes[i].identifier == v;
      assert SeatOf(nodes[i], g) && Touched(nodes[i], after[i], id);
    }
  }

  lemma ReadyToContribute(frost: Frost, job: Job, nodes: seq<NodeState>, after: seq<NodeState>, s: State)
    requires JustSelected(s, job.id, job.pkg, job.participants) && job.randomizer == s.requests[job.id].randomizer
    requires SignsOwnCommitment(frost) && job.keys == KeysOf(nodes)
    requires Seated(after, s.group.value) && AllBacked(frost, after, job.id, job.pkg.commitments)
    requires AllOffered(nodes, |nodes|, after, job.id, s.requests[job.id].message)
    requires forall i :: 0 <= i < |nodes| ==> Unseen(nodes[i], job.id)
    ensures AllContribute(frost, Reacting(frost), job, after, s)
  {
    forall i, d | 0 <= i < |after| ensures Contribution(frost, job, after[i], Reacting(frost)(after[i], s, d)) {
      assert SeatOf(after[i], s.group.value);
      assert Offered(nodes[i], after[i], job.id, s.requests[job.id].message)
        && Backs(frost, after[i], job.id, job.pkg.commitments);
      assert nodes[i].keyPackage in job.keys;
      Contributes(frost, job, after[i], s, d);
    }
  }

  // ------------------------------------------------ the outcome

  /** The aggregate of a full quorum of approvers' shares over the session's own
      message and randomizer. */
  ghost predicate Aggregated(frost: Frost, x: Session, message: Message, r: Randomizer,
                             result: Result<Signature, SignError>)
    requires x.state.group.Some?
  {
    exists pkg: SigningPackage, shares: map<Identifier, Share> ::
      && FromQuorum(frost, x, message, r, pkg, shares)
      && result == OutcomeOf(frost.aggregate(pkg, shares, x.state.group.value.pkp, r))
  }

  ghost predicate FromQuorum(frost: Frost, x: Session, message: Message, r: Randomizer, pkg: SigningPackage,
                             shares: map<Identifier, Share>)
    requires x.state.group.Some?
  {
    && pkg.message == message && pkg.commitments.Keys == shares.Keys
    && shares.Keys <= Approvers(x.nodes, |x.nodes|, message)
    && |shares| == x.state.group.value.params.threshold
    && AllSigned(frost, KeysOf(x.nodes), pkg, r, shares)
  }

  /** Below the threshold the session is stuck after two blocks, or three if
      anyone approved; from the threshold on it comes, in exactly three blocks, to
      the aggregate of a quorum. */
  ghost predicate Concludes(frost: Frost, x: Session, message: Message, r: Randomizer, e: Ended)
    requires x.state.group.Some?
  {
    var approvals := |Approvers(x.nodes, |x.nodes|, message)|;
    if approvals < x.state.group.value.params.threshold then
      && e.result == Err(StuckBeforeCompletion("AwaitingCommitments"))
      && e.session.height == x.height + if approvals == 0 then 2 else 3
    else
      && Aggregated(frost, x, message, r, e.result)
      && e.session.height == x.height + 3
  }

  lemma SessionConcludes(frost: Frost, x: Session, id: Uuid, message: Message, r: Randomizer)
    requires Settled(x) && FreshId(x, id) && SignsOwnCommitment(frost)
    ensures Concludes(frost, x, message, r, Drive(frost, x, id, message, r))
    ensures var e := Drive(frost, x, id, message, r);
      e.result.Ok? ==> LeftSettled(x, e.session, id) && Recorded(x, e, id, message, r)
  {
    var y := Session(Opened(x, id, message, r), [], x.height + 1, x.nodes, x.draw);
    RequestTurn(frost, x, id, message, r);
    assert Drive(frost, x, id, message, r) == Turns(frost, y, id, MAX_TURNS);
    TurnsConclude(frost, x, y, id, message, r, MAX_TURNS);
  }

  /** `end` is the status that goes with what the driver returned. */
  predicate Decided(end: RequestStatus, result: Result<Signature, SignError>) {
    if result.Ok? then end.Completed? && end.signature == result.value else end.Failed?
  }

  /** The chain records the request as it was made, with the signature that was
      returned, and every earlier request as it was. */
  ghost predicate Recorded(x: Session, e: Ended, id: Uuid, message: Message, r: Randomizer) {
    var before, after := x.state.requests, e.session.state.requests;
    && e.result.Ok? && id in after && after[id].message == message && after[id].randomizer == r
    && after[id].status.Completed? && after[id].status.signature == e.result.value
    && forall other :: other in before ==> other in after && after[other] == before[other]
  }

  /** A later session may start where this one ended. */
  ghost predicate LeftSettled(x: Session, x': Session, id: Uuid) {
    && Settled(x') && x'.state.group == x.state.group
    && x'.state.requests.Keys == x.state.requests.Keys + {id}
    && AllTouched(x.nodes, x'.nodes, id)
  }

  lemma TurnsConclude(frost: Frost, x: Session, y: Session, id: Uuid, message: Message, r: Randomizer, bound: nat)
    requires Settled(x) && FreshId(x, id) && SignsOwnCommitment(frost) && bound >= 2
    requires y == Session(Opened(x, id, message, r), [], x.height + 1, x.nodes, x.draw) && JustRequested(y.state, id)
    ensures Concludes(frost, x, message, r, Turns(frost, y, id, bound))
    ensures var e := Turns(frost, y, id, bound);
      e.result.Ok? ==> LeftSettled(x, e.session, id) && Recorded(x, e, id, message, r)
  {
    var status := CommitmentTurn(frost, y, id);
    if status.AwaitingCommitments? {
      FallsShort(frost, y, id, status, bound);
    } else {
      var e := ReachesQuorum(frost, y, id, status, bound);
      var participants, approvers := status.participants, Approvers(x.nodes, |x.nodes|, message);
      SubsetCardinality(participants, approvers);
      LeavesSettled(frost, x, e, id, message, r);
    }
  }

  lemma FallsShort(frost: Frost, y: Session, id: Uuid, status: RequestStatus, bound: nat)
    requires JustRequested(y.state, id) && Seated(y.nodes, y.state.group.value) && bound >= 2
    requires AfterCommitments(frost, y, AfterPoll(frost, y), id, status) && status.AwaitingCommitments?
    requires TurnVerdict(frost, y, id) ==
      Verdict(WithStatus(y.state, id, status), id, Approvers(y.nodes, |y.nodes|, y.state.requests[id].message) != {})
    ensures var e := Turns(frost, y, id, bound);
      && e.result == Err(StuckBeforeCompletion("AwaitingCommitments"))
      && e.session.height ==
         y.height + if Approvers(y.nodes, |y.nodes|, y.state.requests[id].message) == {} then 1 else 2
  {
    var z := AfterPoll(frost, y);
    NextTurn(frost, y, id, bound);
    QuietTurn(frost, y, z, id, status);
    NextTurn(frost, z, id, bound - 1);
  }

  lemma ReachesQuorum(frost: Frost, y: Session, id: Uuid, status: RequestStatus, bound: nat) returns (e: Ended)
    requires JustRequested(y.state, id) && Seated(y.nodes, y.state.group.value) && bound >= 2
    requires SignsOwnCommitment(frost) && forall i :: 0 <= i < |y.nodes| ==> Unseen(y.nodes[i], id)
    requires AfterCommitments(frost, y, AfterPoll(frost, y), id, status) && status.Signing?
    requires TurnVerdict(frost, y, id) ==
      Verdict(WithStatus(y.state, id, status), id, Approvers(y.nodes, |y.nodes|, y.state.requests[id].message) != {})
    ensures e == Turns(frost, y, id, bound) && e.session.height == y.height + 2 && e.session.mempool == []
    ensures Aggregated(frost, y, y.state.requests[id].message, y.state.requests[id].randomizer, e.result)
    ensures AllTouched(y.nodes, e.session.nodes, id)
    ensures exists end :: e.session.state == WithStatus(y.state, id, end) && Decided(end, e.result)
  {
    var z := AfterPoll(frost, y);
    var pkg, ps := status.signingPackage, status.participants;
    NextTurn(frost, y, id, bound);
    var shares := SharePoll(frost, y, z, id, status);
    ShareTurn(frost, z, id, pkg, ps, shares);
    NextTurn(frost, z, id, bound - 1);
    e := Turns(frost, y, id, bound);
    assert |shares| == |shares.Keys|;
    assert FromQuorum(frost, y, y.state.requests[id].message, y.state.requests[id].randomizer, pkg, shares);
    TouchedTwice(y.nodes, z.nodes, e.session.nodes, id);
    var end := AfterShare(frost, y.state.group.value.pkp, y.state.requests[id].randomizer, pkg, ps, shares);
    StatusTwice(y.state, id, status, end);
    assert Decided(end, e.result);
  }

  lemma StatusTwice(s: State, id: Uuid, a: RequestStatus, b: RequestStatus)
    requires id in s.requests
    ensures WithStatus(WithStatus(s, id, a), id, b) == WithStatus(s, id, b)
  {
  }

  lemma LeavesSettled(frost: Frost, x: Session, e: Ended, id: Uuid, message: Message, r: Randomizer)
    requires Settled(x) && FreshId(x, id) && e.session.mempool == [] && AllTouched(x.nodes, e.session.nodes, id)
    requires exists end :: e.session.state == WithStatus(Opened(x, id, message, r), id, end) && Decided(end, e.result)
    ensures LeftSettled(x, e.session, id)
    ensures e.result.Ok? ==> Recorded(x, e, id, message, r)
  {
    TouchedSeats(x.nodes, e.session.nodes, id, x.state.group.value);
  }

  /** Aggregation succeeds on a quorum of shares signed with the nodes' own keys
      over the package that carries their commitments. */
  ghost predicate AggregatesHonestShares(frost: Frost, x: Session, message: Message, r: Randomizer)
    requires x.state.group.Some?
  {
    forall pkg, shares {:trigger FromQuorum(frost, x, message, r, pkg, shares)} ::
      FromQuorum(frost, x, message, r, pkg, shares) ==> frost.aggregate(pkg, shares, x.state.group.value.pkp, r).Ok?
  }

  /** A session on a settled chain returns a signature exactly when at least
      `threshold` nodes approve the message. Success takes exactly three blocks,
      the signature verifies under the rerandomized group key, and the loop bound
      is never what ends the session. */
  lemma SignatureIffQuorum(frost: Frost, x: Session, id: Uuid, message: Message, r: Randomizer)
    requires Settled(x) && FreshId(x, id)
    requires SignsOwnCommitment(frost) && AggregatesHonestShares(frost, x, message, r) && AggregateSound(frost)
    ensures var e := Drive(frost, x, id, message, r); var group := x.state.group.value;
      && (e.result.Ok? <==> |Approvers(x.nodes, |x.nodes|, message)| >= group.params.threshold)
      && (e.result.Ok? ==> e.session.height == x.height + 3 && LeftSettled(x, e.session, id)
                           && Recorded(x, e, id, message, r)
                           && frost.verifies(group.pkp.verifyingKey, r, message, e.result.value))
      && e.result != Err(StuckBeforeCompletion("loop bound exhausted"))
  {
    SessionConcludes(frost, x, id, message, r);
    var e := Drive(frost, x, id, message, r);
    if Aggregated(frost, x, message, r, e.result) {
      var pkg, shares :|
        && FromQuorum(frost, x, message, r, pkg, shares)
        && e.result == OutcomeOf(frost.aggregate(pkg, shares, x.state.group.value.pkp, r));
      assert frost.aggregate(pkg, shares, x.state.group.value.pkp, r).Ok?;
    }
    assert "AwaitingCommitments" != "loop bound exhausted" by {
      assert "AwaitingCommitments"[0] == 'A' && "loop bound exhausted"[0] == 'l';
    }
  }

  /** Nodes with the default policy sign whatever they are asked to: if all have it,
      the session returns a signature exactly when there are `threshold` of them. */
  lemma DefaultNodesSignIff(frost: Frost, x: Session, id: Uuid, message: Message, r: Randomizer)
    requires Settled(x) && FreshId(x, id) && forall i :: 0 <= i < |x.nodes| ==> x.nodes[i].policy == AcceptAll
    requires SignsOwnCommitment(frost) && AggregatesHonestShares(frost, x, message, r) && AggregateSound(frost)
    ensures Drive(frost, x, id, message, r).result.Ok? <==> |x.nodes| >= x.state.group.value.params.threshold
  {
    SignatureIffQuorum(frost, x, id, message, r);
    AllApprove(x.nodes, |x.nodes|, message, x.state.group.value);
  }

  lemma {:induction false} AllApprove(nodes: seq<NodeState>, k: nat, message: Message, g: GroupConfig)
    requires k <= |nodes| && Seated(nodes, g) && forall i :: 0 <= i < |nodes| ==> nodes[i].policy == AcceptAll
    ensures |Approvers(nodes, k, message)| == k
  {
    if k == 0 {
      assert Approvers(nodes, k, message) == {};
    } else {
      AllApprove(nodes, k - 1, message, g);
      ApproversGrow(nodes, k - 1, message);
      NotYetCounted(nodes, k - 1, message, g);
    }
  }

  // ------------------------------------------------ a bundle of sessions

  /** One session per action, over the same message, stopping at the first failure. */
  ghost function SignBundle(frost: Frost, x: Session, message: Message,
                            jobs: seq<(Uuid, Randomizer)>): (Session, bool) {
    if jobs == [] then (x, true)
    else
      var before := SignBundle(frost, x, message, jobs[..|jobs| - 1]);
      if !before.1 then before
      else
        var job := jobs[|jobs| - 1];
        var e := Drive(frost, before.0, job.0, message, job.1);
        (e.session, e.result.Ok?)
  }

  /** The nodes, the group and the approvals are as at the start, and a request id
      not yet used is still fresh. */
  ghost predicate ReadyAgain(x: Session, y: Session, message: Message, used: set<Uuid>) {
    && Settled(y) && y.state.group == x.state.group
    && KeysOf(y.nodes) == KeysOf(x.nodes)
    && Approvers(y.nodes, |y.nodes|, message) == Approvers(x.nodes, |x.nodes|, message)
    && forall id {:trigger FreshId(y, id)} :: id !in used && FreshId(x, id) ==> FreshId(y, id)
  }

  lemma ReadyAfter(x: Session, y: Session, z: Session, message: Message, used: set<Uuid>, id: Uuid)
    requires ReadyAgain(x, y, message, used) && LeftSettled(y, z, id)
    ensures ReadyAgain(x, z, message, used + {id})
  {
    forall i | 0 <= i < |z.nodes| ensures Touched(y.nodes[i], z.nodes[i], id) {}
    assert KeysOf(z.nodes) == KeysOf(y.nodes);
    assert Approvers(z.nodes, |z.nodes|, message) == Approvers(y.nodes, |y.nodes|, message);
    forall other | other !in used + {id} && FreshId(x, other) ensures FreshId(z, other) {
      assert FreshId(y, other);
      forall i | 0 <= i < |z.nodes| ensures Unseen(z.nodes[i], other) {
        assert Touched(y.nodes[i], z.nodes[i], id) && Unseen(y.nodes[i], other);
      }
    }
  }

  ghost function Ids(jobs: seq<(Uuid, Randomizer)>): set<Uuid> {
    set i | 0 <= i < |jobs| :: jobs[i].0
  }

  lemma LastId(jobs: seq<(Uuid, Randomizer)>)
    requires jobs != []
    ensures Ids(jobs) == Ids(jobs[..|jobs| - 1]) + {jobs[|jobs| - 1].0}
  {
    var front := jobs[..|jobs| - 1];
    forall id | id in Ids(jobs) ensures id in Ids(front) + {jobs[|jobs| - 1].0} {
      var i :| 0 <= i < |jobs| && jobs[i].0 == id;
      assert i < |front| ==> front[i].0 == id;
    }
    forall id | id in Ids(front) ensures id in Ids(jobs) {
      var i :| 0 <= i < |front| && front[i].0 == id;
      assert jobs[i].0 == id;
    }
  }

  /** With a quorum of approvers every action of a bundle is signed under its own
      randomizer, three blocks each: no session gets in the way of the next. */
  lemma {:induction false} BundleIsSigned(frost: Frost, x: Session, message: Message, jobs: seq<(Uuid, Randomizer)>)
    requires Settled(x) && SignsOwnCommitment(frost) && AggregateSound(frost)
    requires forall r :: AggregatesHonestShares(frost, x, message, r)
    requires forall i :: 0 <= i < |jobs| ==> FreshId(x, jobs[i].0)
    requires forall i, j :: 0 <= i < j < |jobs| ==> jobs[i].0 != jobs[j].0
    requires |Approvers(x.nodes, |x.nodes|, message)| >= x.state.group.value.params.threshold
    ensures var (y, ok) := SignBundle(frost, x, message, jobs);
      ok && y.height == x.height + 3 * |jobs| && ReadyAgain(x, y, message, Ids(jobs))
      && AllSignedAs(frost, x, y, message, jobs)
  {
    if jobs == [] {
      assert ReadyAgain(x, x, message, Ids(jobs));
    } else {
      var front, job := jobs[..|jobs| - 1], jobs[|jobs| - 1];
      BundleIsSigned(frost, x, message, front);
      var (y, _) := SignBundle(frost, x, message, front);
      assert FreshId(y, job.0);
      assert AggregatesHonestShares(frost, x, message, job.1);
      var e := NextSession(frost, x, y, message, job.0, job.1, Ids(front));
      LastId(jobs);
      OneMoreSigned(frost, x, y, e, message, jobs);
    }
  }

  /** The chain holds a signature for the job that verifies under the group key
      rerandomized by the job's own randomizer. */
  ghost predicate SignedAs(frost: Frost, x: Session, y: Session, message: Message, job: (Uuid, Randomizer))
    requires x.state.group.Some?
  {
    && job.0 in y.state.requests
    && var entry := y.state.requests[job.0];
       && entry.message == message && entry.randomizer == job.1 && entry.status.Completed?
       && frost.verifies(x.state.group.value.pkp.verifyingKey, job.1, message, entry.status.signature)
  }

  ghost predicate AllSignedAs(frost: Frost, x: Session, y: Session, message: Message, jobs: seq<(Uuid, Randomizer)>)
    requires x.state.group.Some?
  {
    forall i {:trigger SignedAs(frost, x, y, message, jobs[i])} :: 0 <= i < |jobs| ==>
      SignedAs(frost, x, y, message, jobs[i])
  }

  lemma OneMoreSigned(frost: Frost, x: Session, y: Session, e: Ended, message: Message, jobs: seq<(Uuid, Randomizer)>)
    requires x.state.group.Some? && jobs != [] && AllSignedAs(frost, x, y, message, jobs[..|jobs| - 1])
    requires var job := jobs[|jobs| - 1];
      Recorded(y, e, job.0, message, job.1)
      && frost.verifies(x.state.group.value.pkp.verifyingKey, job.1, message, e.result.value)
    ensures AllSignedAs(frost, x, e.session, message, jobs)
  {
    var front := jobs[..|jobs| - 1];
    forall i | 0 <= i < |jobs| ensures SignedAs(frost, x, e.session, message, jobs[i]) {
      if i < |front| {
        assert SignedAs(frost, x, y, message, front[i]);
      }
    }
  }

  /** A bundle is signed exactly with a quorum of approvers. Without one, its first
      session is its last. */
  lemma BundleIff(frost: Frost, x: Session, message: Message, jobs: seq<(Uuid, Randomizer)>)
    requires Settled(x) && SignsOwnCommitment(frost) && AggregateSound(frost) && jobs != []
    requires forall r :: AggregatesHonestShares(frost, x, message, r)
    requires forall i :: 0 <= i < |jobs| ==> FreshId(x, jobs[i].0)
    requires forall i, j :: 0 <= i < j < |jobs| ==> jobs[i].0 != jobs[j].0
    ensures var (y, ok) := SignBundle(frost, x, message, jobs);
      && (ok <==> |Approvers(x.nodes, |x.nodes|, message)| >= x.state.group.value.params.threshold)
      && (!ok ==> y == Drive(frost, x, jobs[0].0, message, jobs[0].1).session)
  {
    if |Approvers(x.nodes, |x.nodes|, message)| >= x.state.group.value.params.threshold {
      BundleIsSigned(frost, x, message, jobs);
    } else {
      var job := jobs[0];
      assert AggregatesHonestShares(frost, x, message, job.1);
      SignatureIffQuorum(frost, x, job.0, message, job.1);
      BundleStops(frost, x, message, jobs);
    }
  }

  lemma {:induction false} BundleStops(frost: Frost, x: Session, message: Message, jobs: seq<(Uuid, Randomizer)>)
    requires jobs != [] && Drive(frost, x, jobs[0].0, message, jobs[0].1).result.Err?
    ensures SignBundle(frost, x, message, jobs) == (Drive(frost, x, jobs[0].0, message, jobs[0].1).session, false)
  {
    var front := jobs[..|jobs| - 1];
    if front == [] {
      assert SignBundle(frost, x, message, front) == (x, true);
    } else {
      BundleStops(frost, x, message, front);
    }
  }

  lemma NextSession(frost: Frost, x: Session, y: Session, message: Message, id: Uuid, r: Randomizer, used: set<Uuid>)
    returns (e: Ended)
    requires x.state.group.Some? && ReadyAgain(x, y, message, used) && FreshId(y, id)
    requires SignsOwnCommitment(frost) && AggregateSound(frost) && AggregatesHonestShares(frost, x, message, r)
    requires |Approvers(x.nodes, |x.nodes|, message)| >= x.state.group.value.params.threshold
    ensures e == Drive(frost, y, id, message, r)
    ensures e.result.Ok? && e.session.height == y.height + 3 && ReadyAgain(x, e.session, message, used + {id})
    ensures Recorded(y, e, id, message, r)
    ensures frost.verifies(x.state.group.value.pkp.verifyingKey, r, message, e.result.value)
  {
    e := Drive(frost, y, id, message, r);
    SameQuorums(frost, x, y, message, r, used);
    SignatureIffQuorum(frost, y, id, message, r);
    ReadyAfter(x, y, e.session, message, used, id);
  }

  lemma SameQuorums(frost: Frost, x: Session, y: Session, message: Message, r: Randomizer, used: set<Uuid>)
    requires x.state.group.Some? && ReadyAgain(x, y, message, used)
    requires AggregatesHonestShares(frost, x, message, r)
    ensures AggregatesHonestShares(frost, y, message, r)
  {
    forall pkg, shares | FromQuorum(frost, y, message, r, pkg, shares)
      ensures frost.aggregate(pkg, shares, y.state.group.value.pkp, r).Ok?
    {
      assert FromQuorum(frost, x, message, r, pkg, shares);
    }
  }
}
