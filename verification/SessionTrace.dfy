/** Every way a signing session can go, from any chain and any nodes: as a sequence of
    turns, each spelled out node by node and transaction by transaction. */
module SessionTrace {
  import opened Core
  import opened FrostSuite
  import opened Chain
  import opened Runs
  import opened Sim
  import opened Nodes
  import opened Sessions

  // ------------------------------------------------------ the first block

  /** What the machine makes of `txs[i]` where it stands in the block. */
  ghost function OutcomeAt(frost: Frost, s: State, txs: seq<Tx>, i: nat): Outcome
    requires i < |txs|
  {
    ApplyTx(frost, Deliver(frost, s, txs[..i]), txs[i])
  }

  ghost predicate AcceptedBelow(frost: Frost, s: State, txs: seq<Tx>, n: nat)
    requires n <= |txs|
  {
    forall j {:trigger OutcomeAt(frost, s, txs, j)} :: 0 <= j < n ==> OutcomeAt(frost, s, txs, j).Accepted?
  }

  /** `txs[i]` is the first that the machine does not accept, for the reason `why`. */
  ghost predicate FirstRefused(frost: Frost, s: State, txs: seq<Tx>, i: nat, why: TxResult) {
    && i < |txs| && AcceptedBelow(frost, s, txs, i)
    && match OutcomeAt(frost, s, txs, i)
       case Accepted(_) => false
       case Rejected(e) => why == Dropped(e)
       case Panicked => why == Aborted
  }

  ghost predicate AppliedBelow(results: seq<(Tx, TxResult)>, n: nat)
    requires n <= |results|
  {
    forall j :: 0 <= j < n ==> results[j].1 == Applied
  }

  lemma {:induction false} RefusalIn(results: seq<(Tx, TxResult)>) returns (i: nat)
    ensures i <= |results| && AppliedBelow(results, i)
    ensures i == |results| ==> FirstRefusal(results) == None
    ensures i < |results| ==> results[i].1 != Applied && FirstRefusal(results) == Some(results[i].1)
  {
    if results == [] {
      i := 0;
    } else {
      var front := results[..|results| - 1];
      i := RefusalIn(front);
      if i == |front| && results[i].1 == Applied {
        i := |results|;
      }
    }
  }

  lemma ReportIs(frost: Frost, s: State, txs: seq<Tx>, i: nat)
    requires i < |txs|
    ensures |Results(frost, s, txs)| == |txs|
    ensures var report, outcome := Results(frost, s, txs)[i].1, OutcomeAt(frost, s, txs, i);
      && (report == Applied <==> outcome.Accepted?) && (report == Aborted <==> outcome.Panicked?)
      && forall e :: report == Dropped(e) <==> outcome == Rejected(e)
  {
    ReportedAsDelivered(frost, s, txs, i);
  }

  lemma FirstRefusedIff(frost: Frost, s: State, txs: seq<Tx>, i: nat, why: TxResult)
    requires i < |txs|
    ensures |Results(frost, s, txs)| == |txs|
    ensures FirstRefused(frost, s, txs, i, why) <==>
      AppliedBelow(Results(frost, s, txs), i) && Results(frost, s, txs)[i].1 == why && why != Applied
  {
    ReportIs(frost, s, txs, i);
    forall j | 0 <= j < i
      ensures OutcomeAt(frost, s, txs, j).Accepted? <==> Results(frost, s, txs)[j].1 == Applied
    {
      ReportIs(frost, s, txs, j);
    }
  }

  lemma RefusalIs(frost: Frost, s: State, txs: seq<Tx>, why: TxResult)
    ensures FirstRefusal(Results(frost, s, txs)) == Some(why) <==> exists i :: FirstRefused(frost, s, txs, i, why)
    ensures FirstRefusal(Results(frost, s, txs)).None? <==> AcceptedBelow(frost, s, txs, |txs|)
  {
    var results := Results(frost, s, txs);
    ResultsLength(frost, s, txs);
    var i := RefusalIn(results);
    forall j | 0 <= j < |txs|
      ensures FirstRefused(frost, s, txs, j, why) <==> AppliedBelow(results, j) && results[j].1 == why && why != Applied
      ensures OutcomeAt(frost, s, txs, j).Accepted? <==> results[j].1 == Applied
    {
      FirstRefusedIff(frost, s, txs, j, why);
      ReportIs(frost, s, txs, j);
    }
  }

  /** The session ends with a refused submission exactly when some transaction of the
      first block, the request or one that was waiting before it, is not accepted; the
      first such outcome is reported, after one block and with the nodes untouched. */
  lemma RequestRefusedIff(frost: Frost, x: Session, id: Uuid, message: Message, r: Randomizer, why: TxResult)
    ensures var e, txs := Drive(frost, x, id, message, r), x.mempool + [SubmitRequest(id, message, r)];
      && (e.result == Err(SubmitRequestRejected(why)) <==> exists i :: FirstRefused(frost, x.state, txs, i, why))
      && (e.result == Err(SubmitRequestRejected(why)) ==>
            e.session == Session(Deliver(frost, x.state, txs), [], x.height + 1, x.nodes, x.draw))
  {
    RefusalIs(frost, x.state, x.mempool + [SubmitRequest(id, message, r)], why);
    TurnsNeverRefuse(frost, Requested(frost, x, SubmitRequest(id, message, r)), id, MAX_TURNS);
  }

  lemma {:induction false} TurnsNeverRefuse(frost: Frost, y: Session, id: Uuid, bound: nat)
    ensures var r := Turns(frost, y, id, bound).result; r.Err? ==> !r.error.SubmitRequestRejected?
    decreases bound
  {
    if bound == 0 {
    } else {
      NextTurn(frost, y, id, bound);
      if TurnVerdict(frost, y, id).None? {
        TurnsNeverRefuse(frost, AfterPoll(frost, y), id, bound - 1);
      }
    }
  }

  /** On an idle chain only the request itself can be refused: without a group, or for
      an id that is known already. */
  lemma IdleChainRefusesIff(frost: Frost, x: Session, id: Uuid, message: Message, r: Randomizer, why: TxResult)
    requires x.mempool == []
    ensures Drive(frost, x, id, message, r).result == Err(SubmitRequestRejected(why)) <==>
      if x.state.group.None? then why == Dropped(NotInitialized)
      else id in x.state.requests && why == Dropped(DuplicateRequest(id))
  {
    var tx := SubmitRequest(id, message, r);
    RequestRefusedIff(frost, x, id, message, r, why);
    assert [] + [tx] == [tx] && [tx][..0] == [];
    assert OutcomeAt(frost, x.state, [tx], 0) == ApplyRequest(x.state, id, message, r);
    assert FirstRefused(frost, x.state, [tx], 0, why) <==> exists i :: FirstRefused(frost, x.state, [tx], i, why);
  }

  // ------------------------------------------------------ one turn

  ghost function DrawAfter(draw: nat, qs: seq<Progress>): nat {
    if qs == [] then draw else qs[|qs| - 1].draw
  }

  /** Reaction `i` is node `i`'s, to the state `s`, drawing where the one before stopped. */
  ghost predicate ReactsAt(react: Reaction, nodes: seq<NodeState>, s: State, draw: nat, qs: seq<Progress>, i: nat) {
    i < |qs| && i < |nodes| && qs[i] == react(nodes[i], s, DrawAfter(draw, qs[..i]))
  }

  /** `qs` are the reactions of the first nodes, all without an error but possibly the last. */
  ghost predicate Reacted(react: Reaction, nodes: seq<NodeState>, s: State, draw: nat, qs: seq<Progress>) {
    && |qs| <= |nodes|
    && (forall i {:trigger ReactsAt(react, nodes, s, draw, qs, i)} :: 0 <= i < |qs| ==>
          ReactsAt(react, nodes, s, draw, qs, i))
    && (forall i :: 0 <= i < |qs| - 1 ==> qs[i].error.None?)
  }

  ghost function Fault(qs: seq<Progress>): Option<NodeError> {
    if qs == [] then None else qs[|qs| - 1].error
  }

  /** What the nodes submit: everything that the reactions without an error emit. */
  ghost function Submitted(qs: seq<Progress>): seq<Tx> {
    if qs == [] then []
    else
      var last := qs[|qs| - 1];
      Submitted(qs[..|qs| - 1]) + if last.error.None? then last.out else []
  }

  ghost predicate Moved(nodes: seq<NodeState>, qs: seq<Progress>, after: seq<NodeState>) {
    && |qs| <= |nodes| == |after|
    && (forall i :: 0 <= i < |qs| ==> after[i] == qs[i].node)
    && (forall i :: |qs| <= i < |nodes| ==> after[i] == nodes[i])
  }

  ghost predicate PolledAs(p: Poll, nodes: seq<NodeState>, draw: nat, qs: seq<Progress>) {
    Moved(nodes, qs, p.nodes) && p.draw == DrawAfter(draw, qs) && p.out == Submitted(qs) && p.error == Fault(qs)
  }

  lemma ReactedMore(react: Reaction, nodes: seq<NodeState>, s: State, draw: nat, qs: seq<Progress>, q: Progress)
    requires Reacted(react, nodes, s, draw, qs) && Fault(qs).None? && |qs| < |nodes|
    requires q == react(nodes[|qs|], s, DrawAfter(draw, qs))
    ensures Reacted(react, nodes, s, draw, qs + [q])
  {
    forall i | 0 <= i < |qs| + 1 ensures ReactsAt(react, nodes, s, draw, qs + [q], i) {
      assert (qs + [q])[..i] == qs[..i];
      if i < |qs| {
        assert ReactsAt(react, nodes, s, draw, qs, i);
      } else {
        assert qs[..i] == qs;
      }
    }
  }

  lemma PolledMore(p: Poll, nodes: seq<NodeState>, draw: nat, qs: seq<Progress>, q: Progress)
    requires PolledAs(p, nodes, draw, qs) && |qs| < |nodes|
    ensures PolledAs(Extended(p, |qs|, q), nodes, draw, qs + [q])
  {
    assert (qs + [q])[..|qs|] == qs;
  }

  lemma {:induction false} PollIs(react: Reaction, nodes: seq<NodeState>, k: nat, s: State, draw: nat)
    returns (qs: seq<Progress>)
    requires k <= |nodes|
    ensures Reacted(react, nodes, s, draw, qs) && |qs| <= k && (|qs| < k ==> Fault(qs).Some?)
    ensures PolledAs(PollFirst(react, nodes, k, s, draw), nodes, draw, qs)
  {
    if k == 0 {
      qs := [];
    } else {
      qs := PollIs(react, nodes, k - 1, s, draw);
      var p := PollFirst(react, nodes, k - 1, s, draw);
      if p.error.None? {
        var q := react(nodes[k - 1], s, p.draw);
        PollNext(react, nodes, k - 1, s, draw);
        ReactedMore(react, nodes, s, draw, qs, q);
        PolledMore(p, nodes, draw, qs, q);
        qs := qs + [q];
      }
    }
  }

  /** One turn from `x` to `y`. All nodes react, in order, unless one fails. Then no
      block is committed, what earlier nodes emitted stays in the mempool, and later
      nodes are as they were; otherwise the block is committed. */
  ghost predicate TurnTo(frost: Frost, x: Session, qs: seq<Progress>, y: Session) {
    && Reacted(Reacting(frost), x.nodes, x.state, x.draw, qs) && Moved(x.nodes, qs, y.nodes)
    && y.draw == DrawAfter(x.draw, qs)
    && if Fault(qs).Some? then y.state == x.state && y.mempool == x.mempool + Submitted(qs) && y.height == x.height
       else && |qs| == |x.nodes| && y.state == Deliver(frost, x.state, x.mempool + Submitted(qs))
            && y.mempool == [] && y.height == x.height + 1
  }

  /** The turn that led to `y` ends the session with `r`. */
  ghost predicate EndsWith(y: Session, qs: seq<Progress>, id: Uuid, r: Result<Signature, SignError>) {
    if Fault(qs).Some? then r == Err(ValidatorReact(Fault(qs).value))
    else if id !in y.state.requests then r == Err(RequestMissing)
    else
      match y.state.requests[id].status
      case Completed(_, signature) => r == Ok(signature)
      case Failed(reason) => r == Err(AggregationFailed(reason))
      case AwaitingCommitments(_) => Submitted(qs) == [] && r == Err(StuckBeforeCompletion("AwaitingCommitments"))
      case Signing(_, _, _) => Submitted(qs) == [] && r == Err(StuckBeforeCompletion("Signing"))
  }

  ghost predicate GoesOn(y: Session, qs: seq<Progress>, id: Uuid) {
    && Fault(qs).None? && Submitted(qs) != [] && id in y.state.requests
    && (y.state.requests[id].status.AwaitingCommitments? || y.state.requests[id].status.Signing?)
  }

  lemma TurnIs(frost: Frost, x: Session, id: Uuid) returns (qs: seq<Progress>)
    ensures TurnTo(frost, x, qs, AfterPoll(frost, x))
    ensures var v := TurnVerdict(frost, x, id);
      if v.Some? then EndsWith(AfterPoll(frost, x), qs, id, v.value) else GoesOn(AfterPoll(frost, x), qs, id)
  {
    qs := PollIs(Reacting(frost), x.nodes, |x.nodes|, x.state, x.draw);
  }

  // ------------------------------------------------------ the whole session

  datatype Turned = Turned(poll: seq<Progress>, session: Session)

  /** From `y` on the session takes exactly the turns `ts` and ends as `e`. */
  ghost predicate Course(frost: Frost, y: Session, ts: seq<Turned>, id: Uuid, bound: nat, e: Ended)
    decreases |ts|
  {
    if ts == [] then bound == 0 && e == Ended(y, Err(StuckBeforeCompletion("loop bound exhausted")))
    else
      var t := ts[0];
      && bound > 0 && TurnTo(frost, y, t.poll, t.session)
      && if GoesOn(t.session, t.poll, id) then Course(frost, t.session, ts[1..], id, bound - 1, e)
         else |ts| == 1 && EndsWith(t.session, t.poll, id, e.result) && e.session == t.session
  }

  lemma {:induction false} TurnsCourse(frost: Frost, y: Session, id: Uuid, bound: nat) returns (ts: seq<Turned>)
    ensures Course(frost, y, ts, id, bound, Turns(frost, y, id, bound))
    decreases bound
  {
    if bound == 0 {
      ts := [];
    } else {
      var t := FirstTurn(frost, y, id, bound);
      ts := [t];
      if GoesOn(t.session, t.poll, id) {
        var more := TurnsCourse(frost, t.session, id, bound - 1);
        ts := [t] + more;
        assert ts[1..] == more;
      }
    }
  }

  lemma FirstTurn(frost: Frost, y: Session, id: Uuid, bound: nat) returns (t: Turned)
    requires bound > 0
    ensures TurnTo(frost, y, t.poll, t.session)
    ensures var e := Turns(frost, y, id, bound);
      if GoesOn(t.session, t.poll, id) then e == Turns(frost, t.session, id, bound - 1)
      else e.session == t.session && EndsWith(t.session, t.poll, id, e.result)
  {
    var qs := TurnIs(frost, y, id);
    NextTurn(frost, y, id, bound);
    t := Turned(qs, AfterPoll(frost, y));
  }

  /** The exact course of every session whose first block is accepted: at most eight
      turns, each of which either ends it or goes on. */
  lemma SessionCourse(frost: Frost, x: Session, id: Uuid, message: Message, r: Randomizer) returns (ts: seq<Turned>)
    requires var txs := x.mempool + [SubmitRequest(id, message, r)]; AcceptedBelow(frost, x.state, txs, |txs|)
    ensures var txs := x.mempool + [SubmitRequest(id, message, r)];
      Course(frost, Session(Deliver(frost, x.state, txs), [], x.height + 1, x.nodes, x.draw), ts, id, 8,
             Drive(frost, x, id, message, r))
  {
    RefusalIs(frost, x.state, x.mempool + [SubmitRequest(id, message, r)], Applied);
    ts := TurnsCourse(frost, Requested(frost, x, SubmitRequest(id, message, r)), id, MAX_TURNS);
  }

  /** The session `y` ended in the turn with reactions `qs`, by a failing node. */
  ghost predicate FailedIn(frost: Frost, y: Session, qs: seq<Progress>, e: Ended, error: NodeError) {
    && Reacted(Reacting(frost), y.nodes, y.state, y.draw, qs) && Fault(qs) == Some(error)
    && e.session.state == y.state && e.session.height == y.height && e.session.mempool == Submitted(qs)
    && Moved(y.nodes, qs, e.session.nodes)
  }

  lemma {:induction false} CourseFails(frost: Frost, y: Session, ts: seq<Turned>, id: Uuid, bound: nat, e: Ended,
                                       error: NodeError)
    returns (before: Session)
    requires Course(frost, y, ts, id, bound, e) && y.mempool == []
    ensures if e.result == Err(ValidatorReact(error)) then
        ts != [] && FailedIn(frost, before, ts[|ts| - 1].poll, e, error) && before.height == y.height + |ts| - 1
      else ts != [] ==> Fault(ts[|ts| - 1].poll) != Some(error)
    decreases |ts|
  {
    before := y;
    if ts != [] {
      var t := ts[0];
      if GoesOn(t.session, t.poll, id) {
        before := CourseFails(frost, t.session, ts[1..], id, bound - 1, e, error);
        assert |ts| > 1 ==> ts[1..][|ts| - 2] == ts[|ts| - 1];
      } else {
        TurnFails(frost, y, t, id, e, error);
      }
    }
  }

  lemma TurnFails(frost: Frost, y: Session, t: Turned, id: Uuid, e: Ended, error: NodeError)
    requires TurnTo(frost, y, t.poll, t.session) && y.mempool == []
    requires EndsWith(t.session, t.poll, id, e.result) && e.session == t.session
    ensures e.result == Err(ValidatorReact(error)) <==> Fault(t.poll) == Some(error)
    ensures Fault(t.poll) == Some(error) ==> FailedIn(frost, y, t.poll, e, error)
  {
    assert [] + Submitted(t.poll) == Submitted(t.poll);
  }

  /** A session whose first block is accepted ends with a node's error exactly when the
      last reaction of its last turn has that error. That turn commits no block, and
      what earlier nodes emitted in it is left in the mempool. */
  lemma NodeErrorIff(frost: Frost, x: Session, id: Uuid, message: Message, r: Randomizer, error: NodeError)
    returns (ts: seq<Turned>, before: Session)
    requires var txs := x.mempool + [SubmitRequest(id, message, r)]; AcceptedBelow(frost, x.state, txs, |txs|)
    ensures var txs := x.mempool + [SubmitRequest(id, message, r)]; var e := Drive(frost, x, id, message, r);
      && Course(frost, Session(Deliver(frost, x.state, txs), [], x.height + 1, x.nodes, x.draw), ts, id, 8, e)
      && ts != []
      && (e.result == Err(ValidatorReact(error)) <==> Fault(ts[|ts| - 1].poll) == Some(error))
      && (e.result == Err(ValidatorReact(error)) ==>
            FailedIn(frost, before, ts[|ts| - 1].poll, e, error) && before.height == x.height + |ts|)
  {
    ts := SessionCourse(frost, x, id, message, r);
    var txs := x.mempool + [SubmitRequest(id, message, r)];
    var y := Session(Deliver(frost, x.state, txs), [], x.height + 1, x.nodes, x.draw);
    before := CourseFails(frost, y, ts, id, 8, Drive(frost, x, id, message, r), error);
  }
}
