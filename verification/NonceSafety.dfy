/** Nonce single use (section 5.1 of RFC 9591), over every sequence of reactions
    of one node to arbitrary, even unrelated, chain states. */
module NonceSafety {
  import opened Core
  import opened FrostSuite
  import opened Chain
  import opened Nodes

  /** One reaction: the state shown to the node, and how many random draws
      others made since its last one. */
  datatype Call = Call(state: State, skipped: nat)

  /** Everything a node has done so far. */
  datatype Trace = Trace(node: NodeState, draw: nat, signed: seq<SignCall>, sent: seq<Tx>, failures: set<NodeError>)

  ghost function After(frost: Frost, start: NodeState, draw: nat, calls: seq<Call>): Trace {
    if calls == [] then Trace(start, draw, [], [], {})
    else
      var t := After(frost, start, draw, calls[..|calls| - 1]);
      var call := calls[|calls| - 1];
      var p := React(frost, t.node, call.state, t.draw + call.skipped);
      Trace(p.node, p.draw, t.signed + p.signed, t.sent + p.Emitted(),
            t.failures + if p.error.Some? then {p.error.value} else {})
  }

  predicate Fresh(n: NodeState) {
    n.pending == map[] && n.committed == {} && n.shared == {}
  }

  ghost predicate StoreSound(n: NodeState, draw: nat) {
    && n.pending.Keys <= n.committed
    && (forall id :: id in n.pending ==> n.pending[id].draw < draw)
    && (forall i, j :: i in n.pending && j in n.pending && n.pending[i] == n.pending[j] ==> i == j)
  }

  ghost predicate SignedOnce(n: NodeState, draw: nat, signed: seq<SignCall>) {
    && (forall i :: 0 <= i < |signed| ==>
          && signed[i].nonces.draw < draw
          && signed[i].requestId in n.committed && signed[i].requestId !in n.pending
          && forall id :: id in n.pending ==> n.pending[id] != signed[i].nonces)
    && (forall i, j :: 0 <= i < j < |signed| ==>
          signed[i].nonces != signed[j].nonces && signed[i].requestId != signed[j].requestId)
  }

  predicate SameKind(a: Tx, b: Tx) {
    || (a.SubmitCommitment? && b.SubmitCommitment?)
    || (a.SubmitShare? && b.SubmitShare?)
  }

  ghost predicate SentOnce(n: NodeState, sent: seq<Tx>) {
    && (forall i :: 0 <= i < |sent| ==>
          && (sent[i].SubmitCommitment? || sent[i].SubmitShare?)
          && sent[i].validator == n.identifier
          && (sent[i].SubmitCommitment? ==> sent[i].requestId in n.committed)
          && (sent[i].SubmitShare? ==> sent[i].requestId in n.shared))
    && (forall i, j :: 0 <= i < j < |sent| && SameKind(sent[i], sent[j]) ==> sent[i].requestId != sent[j].requestId)
  }

  /** The reaction in progress `p`, on top of earlier calls, is disciplined. */
  ghost predicate Disciplined(p: Progress, signed: seq<SignCall>, sent: seq<Tx>) {
    && p.error != Some(SessionInUse)
    && StoreSound(p.node, p.draw)
    && SignedOnce(p.node, p.draw, signed + p.signed)
    && SentOnce(p.node, sent + p.out)
  }

  lemma StepKeepsDiscipline(frost: Frost, p: Progress, entry: RequestEntry, id: Uuid, signed: seq<SignCall>,
                            sent: seq<Tx>)
    requires Disciplined(p, signed, sent)
    ensures Disciplined(OnRequest(frost, p, entry, id), signed, sent)
  {
    if p.error.None? {
      match entry.status
      case AwaitingCommitments(cs) => OfferKeepsDiscipline(frost, p, id, entry.message, cs, signed, sent);
      case Signing(pkg, ps, shares) =>
        ShareKeepsDiscipline(frost, p, id, entry.randomizer, pkg, ps, shares, signed, sent);
      case Completed(_, _) =>
      case Failed(_) =>
    }
  }

  lemma OfferKeepsDiscipline(frost: Frost, p: Progress, id: Uuid, message: Message, cs: map<Identifier, Commitments>,
                             signed: seq<SignCall>, sent: seq<Tx>)
    requires Disciplined(p, signed, sent)
    ensures Disciplined(OnAwaiting(frost, p, id, message, cs), signed, sent)
  {
    var q := OnAwaiting(frost, p, id, message, cs);
    if q.out != p.out {
      assert sent + q.out == (sent + p.out) + [q.out[|q.out| - 1]];
    }
  }

  lemma ShareKeepsDiscipline(frost: Frost, p: Progress, id: Uuid, r: Randomizer, pkg: SigningPackage,
                             ps: set<Identifier>, shares: map<Identifier, Share>, signed: seq<SignCall>, sent: seq<Tx>)
    requires Disciplined(p, signed, sent)
    ensures Disciplined(OnSigning(frost, p, id, r, pkg, ps, shares), signed, sent)
  {
    var q := OnSigning(frost, p, id, r, pkg, ps, shares);
    if q.out != p.out {
      assert sent + q.out == (sent + p.out) + [q.out[|q.out| - 1]];
    }
    if q.signed != p.signed {
      assert signed + q.signed == (signed + p.signed) + [q.signed[|q.signed| - 1]];
    }
  }

  lemma {:induction false} LoopKeepsDiscipline(frost: Frost, p: Progress, requests: map<Uuid, RequestEntry>,
                                               rest: set<Uuid>, signed: seq<SignCall>, sent: seq<Tx>)
    requires rest <= requests.Keys && Disciplined(p, signed, sent)
    ensures Disciplined(OnRequests(frost, p, requests, rest), signed, sent)
    decreases |rest|
  {
    if rest == {} {
    } else {
      var id := Min(rest);
      StepKeepsDiscipline(frost, p, requests[id], id, signed, sent);
      LoopKeepsDiscipline(frost, OnRequest(frost, p, requests[id], id), requests, rest - {id}, signed, sent);
    }
  }

  ghost predicate TraceDisciplined(t: Trace) {
    && SessionInUse !in t.failures
    && StoreSound(t.node, t.draw)
    && SignedOnce(t.node, t.draw, t.signed)
    && SentOnce(t.node, t.sent)
  }

  lemma {:induction false} AlwaysDisciplined(frost: Frost, start: NodeState, draw: nat, calls: seq<Call>)
    requires Fresh(start)
    ensures TraceDisciplined(After(frost, start, draw, calls))
  {
    if calls == [] {
    } else {
      var t, call := After(frost, start, draw, calls[..|calls| - 1]), calls[|calls| - 1];
      AlwaysDisciplined(frost, start, draw, calls[..|calls| - 1]);
      ReactionDisciplined(frost, t, call);
      NextTrace(t, React(frost, t.node, call.state, t.draw + call.skipped));
    }
  }

  lemma ReactionDisciplined(frost: Frost, t: Trace, call: Call)
    requires TraceDisciplined(t)
    ensures Disciplined(React(frost, t.node, call.state, t.draw + call.skipped), t.signed, t.sent)
  {
    var p := Progress(t.node, t.draw + call.skipped, [], [], None);
    assert t.signed + [] == t.signed && t.sent + [] == t.sent;
    LoopKeepsDiscipline(frost, p, call.state.requests, call.state.requests.Keys, t.signed, t.sent);
  }

  /** A failed reaction sends nothing and stays disciplined. */
  lemma NextTrace(t: Trace, q: Progress)
    requires TraceDisciplined(t) && Disciplined(q, t.signed, t.sent)
    ensures TraceDisciplined(Trace(q.node, q.draw, t.signed + q.signed, t.sent + q.Emitted(),
                                   t.failures + if q.error.Some? then {q.error.value} else {}))
  {
    if q.error.Some? {
      assert t.sent + [] == t.sent;
      assert forall i :: 0 <= i < |t.sent| ==> t.sent[i] == (t.sent + q.out)[i];
    }
  }

  /** Over every sequence of reactions of a fresh node: each nonce enters at most
      one signing call, each request id gets at most one commitment and at most
      one share, and `SessionInUse` never occurs. */
  lemma NonceSingleUse(frost: Frost, start: NodeState, draw: nat, calls: seq<Call>)
    requires Fresh(start)
    ensures var t := After(frost, start, draw, calls);
      && (forall i, j :: 0 <= i < j < |t.signed| ==> t.signed[i].nonces != t.signed[j].nonces)
      && (forall i, j :: 0 <= i < j < |t.sent| && SameKind(t.sent[i], t.sent[j]) ==>
            t.sent[i].requestId != t.sent[j].requestId)
      && SessionInUse !in t.failures
      && t.node.pending.Keys <= t.node.committed
  {
    AlwaysDisciplined(frost, start, draw, calls);
  }
}
