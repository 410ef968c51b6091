/** One signing session driven over the simulator: submit a request, then let the
    nodes react and commit blocks until the request is decided. */
module Sessions {
  import opened Core
  import opened FrostSuite
  import opened Chain
  import opened Runs
  import opened Sim
  import opened Nodes

  datatype SignError =
    | SubmitRequestRejected(why: TxResult)
    | ValidatorReact(error: NodeError)
    | AggregationFailed(reason: string)
    | StuckBeforeCompletion(lastStatus: string)
    | RequestMissing

  /** Chain and nodes as a value; `draw` numbers the random draws. */
  datatype Session = Session(state: State, mempool: seq<Tx>, height: nat, nodes: seq<NodeState>, draw: nat)

  datatype Ended = Ended(session: Session, result: Result<Signature, SignError>)

  /** All nodes polled in turn; an error keeps what earlier nodes submitted. */
  datatype Poll = Poll(nodes: seq<NodeState>, draw: nat, out: seq<Tx>, error: Option<NodeError>)

  type Reaction = (NodeState, State, nat) -> Progress

  ghost function Reacting(frost: Frost): Reaction {
    (n: NodeState, s: State, draw: nat) => React(frost, n, s, draw)
  }

  /** The first `k` nodes have been polled. */
  ghost function PollFirst(react: Reaction, nodes: seq<NodeState>, k: nat, s: State, draw: nat): (r: Poll)
    requires k <= |nodes|
    ensures |r.nodes| == |nodes|
    ensures forall i :: k <= i < |nodes| ==> r.nodes[i] == nodes[i]
  {
    if k == 0 then Poll(nodes, draw, [], None)
    else
      var front := PollFirst(react, nodes, k - 1, s, draw);
      if front.error.Some? then front
      else
        Extended(front, k - 1, react(nodes[k - 1], s, front.draw))
  }

  /** `p` with the reaction `q` of node `k` on top. */
  function Extended(p: Poll, k: nat, q: Progress): Poll
    requires k < |p.nodes|
  {
    Poll(p.nodes[k := q.node], q.draw, p.out + q.Emitted(), q.error)
  }

  ghost function PollNodes(react: Reaction, nodes: seq<NodeState>, s: State, draw: nat): Poll {
    PollFirst(react, nodes, |nodes|, s, draw)
  }

  /** The first transaction of a block that was not applied. */
  function FirstRefusal(results: seq<(Tx, TxResult)>): Option<TxResult> {
    if results == [] then None
    else
      var front := FirstRefusal(results[..|results| - 1]);
      if front.Some? then front
      else if results[|results| - 1].1.Applied? then None
      else Some(results[|results| - 1].1)
  }

  /** What the driver concludes after a block, if anything. */
  function Verdict(s: State, id: Uuid, emittedAny: bool): Option<Result<Signature, SignError>> {
    if id !in s.requests then Some(Err(RequestMissing)) else
    match s.requests[id].status
    case Completed(_, signature) => Some(Ok(signature))
    case Failed(reason) => Some(Err(AggregationFailed(reason)))
    case AwaitingCommitments(_) => if emittedAny then None else Some(Err(StuckBeforeCompletion("AwaitingCommitments")))
    case Signing(_, _, _) => if emittedAny then None else Some(Err(StuckBeforeCompletion("Signing")))
  }

  ghost function AfterPoll(frost: Frost, x: Session): Session {
    var p := PollNodes(Reacting(frost), x.nodes, x.state, x.draw);
    if p.error.Some? then x.(mempool := x.mempool + p.out, nodes := p.nodes, draw := p.draw)
    else Session(Deliver(frost, x.state, x.mempool + p.out), [], x.height + 1, p.nodes, p.draw)
  }

  ghost function TurnVerdict(frost: Frost, x: Session, id: Uuid): Option<Result<Signature, SignError>> {
    var p := PollNodes(Reacting(frost), x.nodes, x.state, x.draw);
    if p.error.Some? then Some(Err(ValidatorReact(p.error.value)))
    else Verdict(AfterPoll(frost, x).state, id, p.out != [])
  }

  ghost function Turns(frost: Frost, x: Session, id: Uuid, bound: nat): Ended
    decreases bound
  {
    if bound == 0 then Ended(x, Err(StuckBeforeCompletion("loop bound exhausted"))) else
    match TurnVerdict(frost, x, id)
    case Some(r) => Ended(AfterPoll(frost, x), r)
    case None => Turns(frost, AfterPoll(frost, x), id, bound - 1)
  }

  const MAX_TURNS: nat := 8

  ghost function Requested(frost: Frost, x: Session, tx: Tx): Session {
    Session(Deliver(frost, x.state, x.mempool + [tx]), [], x.height + 1, x.nodes, x.draw)
  }

  ghost function Drive(frost: Frost, x: Session, id: Uuid, message: Message, randomizer: Randomizer): Ended {
    var tx := SubmitRequest(id, message, randomizer);
    match FirstRefusal(Results(frost, x.state, x.mempool + [tx]))
    case Some(why) => Ended(Requested(frost, x, tx), Err(SubmitRequestRejected(why)))
    case None => Turns(frost, Requested(frost, x, tx), id, MAX_TURNS)
  }

  // ------------------------------------------------------------ the driver

  ghost predicate Distinct(validators: seq<Node>) {
    forall i, j :: 0 <= i < j < |validators| ==> validators[i] != validators[j]
  }

  ghost predicate Remember(validators: seq<Node>, nodes: seq<NodeState>)
    reads validators
  {
    |nodes| == |validators| && forall i :: 0 <= i < |nodes| ==> validators[i].Memory() == nodes[i]
  }

  /** The objects hold exactly the session value `x`. */
  ghost predicate Holds(chain: ChainSim, validators: seq<Node>, x: Session)
    reads chain, validators
  {
    && chain.state == x.state && chain.mempool == x.mempool && chain.blockHeight == x.height
    && Remember(validators, x.nodes)
  }

  method SubmitAll(chain: ChainSim, txs: seq<Tx>) returns (any: bool)
    modifies chain`mempool
    ensures chain.mempool == old(chain.mempool) + txs
    ensures any <==> txs != []
  {
    any := false;
    for i := 0 to |txs|
      invariant chain.mempool == old(chain.mempool) + txs[..i]
      invariant any <==> i > 0
    {
      chain.Submit(txs[i]);
      any := true;
    }
    assert txs[..|txs|] == txs;
  }

  /** `react` is how the nodes react. */
  ghost predicate IsReaction(frost: Frost, react: Reaction) {
    forall n, s, draw {:trigger React(frost, n, s, draw)} :: react(n, s, draw) == React(frost, n, s, draw)
  }

  /** The objects and the loop variables are where `p` says. */
  ghost predicate PolledTo(chain: ChainSim, validators: seq<Node>, pool: seq<Tx>, p: Poll,
                           error: Option<NodeError>, emittedAny: bool, draw: nat)
    reads chain, validators
  {
    && Remember(validators, p.nodes) && draw == p.draw && error == p.error
    && chain.mempool == pool + p.out
    && (error.None? ==> emittedAny == (p.out != []))
  }

  /** Polls node `i` on top of `p`. */
  method PollOne(frost: Frost, chain: ChainSim, validators: seq<Node>, i: nat, emittedAny: bool, draw: nat,
                 ghost p: Poll, ghost pool: seq<Tx>, ghost react: Reaction)
    returns (error: Option<NodeError>, any: bool, nextDraw: nat)
    requires Distinct(validators) && i < |validators| && IsReaction(frost, react)
    requires PolledTo(chain, validators, pool, p, None, emittedAny, draw)
    modifies chain`mempool, validators[i]
    ensures PolledTo(chain, validators, pool, Extended(p, i, react(p.nodes[i], chain.state, p.draw)), error, any,
      nextDraw)
  {
    var r;
    any := emittedAny;
    r, nextDraw := validators[i].ReactTo(frost, chain.state, draw);
    match r {
      case Err(e) =>
        assert p.out + [] == p.out;
        error := Some(e);
      case Ok(txs) =>
        assert (pool + p.out) + txs == pool + (p.out + txs);
        var submitted := SubmitAll(chain, txs);
        any := any || submitted;
        error := None;
    }
  }

  /** One turn of the polling loop. */
  method PollNode(frost: Frost, chain: ChainSim, validators: seq<Node>, i: nat, emittedAny: bool, draw: nat,
                  ghost nodes: seq<NodeState>, ghost start: nat, ghost pool: seq<Tx>, ghost react: Reaction)
    returns (error: Option<NodeError>, any: bool, nextDraw: nat)
    requires Distinct(validators) && i < |validators| == |nodes| && IsReaction(frost, react)
    requires PolledTo(chain, validators, pool, PollFirst(react, nodes, i, chain.state, start), None, emittedAny, draw)
    modifies chain`mempool, validators[i]
    ensures PolledTo(chain, validators, pool, PollFirst(react, nodes, i + 1, chain.state, start), error, any, nextDraw)
  {
    ghost var p := PollFirst(react, nodes, i, chain.state, start);
    PollNext(react, nodes, i, chain.state, start);
    error, any, nextDraw := PollOne(frost, chain, validators, i, emittedAny, draw, p, pool, react);
  }

  method PollAll(frost: Frost, chain: ChainSim, validators: seq<Node>, draw: nat, ghost nodes: seq<NodeState>,
                 ghost react: Reaction)
    returns (error: Option<NodeError>, emittedAny: bool, nextDraw: nat)
    requires Distinct(validators) && Remember(validators, nodes) && IsReaction(frost, react)
    modifies chain`mempool, validators
    ensures PolledTo(chain, validators, old(chain.mempool), PollNodes(react, nodes, chain.state, draw),
                     error, emittedAny, nextDraw)
  {
    error, emittedAny, nextDraw := None, false, draw;
    var i := 0;
    while i < |validators| && error.None?
      invariant 0 <= i <= |validators|
      invariant PolledTo(chain, validators, old(chain.mempool), PollFirst(react, nodes, i, chain.state, draw),
                         error, emittedAny, nextDraw)
    {
      error, emittedAny, nextDraw := PollNode(frost, chain, validators, i, emittedAny, nextDraw,
                                              nodes, draw, old(chain.mempool), react);
      i := i + 1;
    }
    PollStops(react, nodes, i, chain.state, draw);
  }

  lemma PollNext(react: Reaction, nodes: seq<NodeState>, k: nat, s: State, draw: nat)
    requires k < |nodes| && PollFirst(react, nodes, k, s, draw).error.None?
    ensures var p := PollFirst(react, nodes, k, s, draw);
      && p.nodes[k] == nodes[k]
      && PollFirst(react, nodes, k + 1, s, draw) == Extended(p, k, react(nodes[k], s, p.draw))
  {
  }

  /** After a failed reaction the remaining nodes are not polled. */
  lemma {:induction false} PollStops(react: Reaction, nodes: seq<NodeState>, i: nat, s: State, draw: nat)
    requires i <= |nodes| && (i == |nodes| || PollFirst(react, nodes, i, s, draw).error.Some?)
    ensures PollNodes(react, nodes, s, draw) == PollFirst(react, nodes, i, s, draw)
    decreases |nodes| - i
  {
    if i < |nodes| {
      PollStops(react, nodes, i + 1, s, draw);
    }
  }

  method RequestBlock(frost: Frost, chain: ChainSim, tx: Tx) returns (refusal: Option<TxResult>)
    modifies chain
    ensures chain.state == Deliver(frost, old(chain.state), old(chain.mempool) + [tx])
    ensures chain.mempool == [] && chain.blockHeight == old(chain.blockHeight) + 1
    ensures refusal == FirstRefusal(Results(frost, old(chain.state), old(chain.mempool) + [tx]))
  {
    chain.Submit(tx);
    var results := chain.CommitBlock(frost);
    refusal := FindRefusal(results);
  }

  method FindRefusal(results: seq<(Tx, TxResult)>) returns (refusal: Option<TxResult>)
    ensures refusal == FirstRefusal(results)
  {
    var i := 0;
    while i < |results|
      invariant 0 <= i <= |results|
      invariant FirstRefusal(results[..i]).None?
    {
      assert results[..i + 1][..i] == results[..i];
      if !results[i].1.Applied? {
        RefusalStays(results, i + 1);
        return Some(results[i].1);
      }
      i := i + 1;
    }
    assert results[..i] == results;
    refusal := None;
  }

  lemma {:induction false} RefusalStays(results: seq<(Tx, TxResult)>, i: nat)
    requires i <= |results| && FirstRefusal(results[..i]).Some?
    ensures FirstRefusal(results) == FirstRefusal(results[..i])
  {
    if i == |results| {
      assert results[..i] == results;
    } else {
      assert results[..|results| - 1][..i] == results[..i];
      RefusalStays(results[..|results| - 1], i);
    }
  }

  method DriveSigningSession(frost: Frost, chain: ChainSim, validators: seq<Node>, id: Uuid, sighash: Message,
                             alpha: Randomizer, draw: nat, ghost x: Session)
    returns (r: Result<Signature, SignError>, nextDraw: nat)
    requires Distinct(validators) && Holds(chain, validators, x) && draw == x.draw
    modifies chain, validators
    ensures var e := Drive(frost, x, id, sighash, alpha);
      r == e.result && nextDraw == e.session.draw && Holds(chain, validators, e.session)
  {
    nextDraw := draw;
    var refusal := RequestBlock(frost, chain, SubmitRequest(id, sighash, alpha));
    if refusal.Some? {
      return Err(SubmitRequestRejected(refusal.value)), nextDraw;
    }
    ghost var y := Requested(frost, x, SubmitRequest(id, sighash, alpha));
    for turn := 0 to MAX_TURNS
      invariant Holds(chain, validators, y) && nextDraw == y.draw
      invariant Drive(frost, x, id, sighash, alpha) == Turns(frost, y, id, MAX_TURNS - turn)
    {
      NextTurn(frost, y, id, MAX_TURNS - turn);
      var verdict;
      verdict, nextDraw := Turn(frost, chain, validators, id, nextDraw, y);
      y := AfterPoll(frost, y);
      if verdict.Some? {
        return verdict.value, nextDraw;
      }
    }
    return Err(StuckBeforeCompletion("loop bound exhausted")), nextDraw;
  }

  lemma NextTurn(frost: Frost, x: Session, id: Uuid, bound: nat)
    requires bound > 0
    ensures var v := TurnVerdict(frost, x, id);
      Turns(frost, x, id, bound)
      == if v.Some? then Ended(AfterPoll(frost, x), v.value) else Turns(frost, AfterPoll(frost, x), id, bound - 1)
  {
  }

  /** One round of reactions and the block that commits them. */
  method Turn(frost: Frost, chain: ChainSim, validators: seq<Node>, id: Uuid, draw: nat, ghost x: Session)
    returns (verdict: Option<Result<Signature, SignError>>, nextDraw: nat)
    requires Distinct(validators) && Holds(chain, validators, x) && draw == x.draw
    modifies chain, validators
    ensures verdict == TurnVerdict(frost, x, id)
    ensures Holds(chain, validators, AfterPoll(frost, x)) && nextDraw == AfterPoll(frost, x).draw
  {
    var error, emittedAny;
    error, emittedAny, nextDraw := PollAll(frost, chain, validators, draw, x.nodes, Reacting(frost));
    if error.Some? {
      return Some(Err(ValidatorReact(error.value))), nextDraw;
    }
    var _ := chain.CommitBlock(frost);
    verdict := Verdict(chain.state, id, emittedAny);
  }
}
