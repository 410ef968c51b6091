/** What one reaction of a signing node amounts to, request by request and without
    the loop that computes it. */
module Reactions {
  import opened Core
  import opened FrostSuite
  import opened Chain
  import opened Nodes

  // ------------------------------------------------------ what a request calls for

  /** The node owes request `id` a commitment. */
  predicate OwesCommitment(n: NodeState, e: RequestEntry, id: Uuid) {
    && e.status.AwaitingCommitments? && n.identifier !in e.status.commitments
    && id !in n.committed && n.policy.Approves(e.message)
  }

  /** The node owes request `id` a share, and has the nonces for it. */
  predicate OwesShare(n: NodeState, e: RequestEntry, id: Uuid) {
    && e.status.Signing? && n.identifier in e.status.participants && n.identifier !in e.status.shares
    && id !in n.shared && id in n.pending
  }

  function ShareFor(frost: Frost, n: NodeState, e: RequestEntry, id: Uuid): Result<Share, string>
    requires OwesShare(n, e, id)
  {
    frost.sign(e.status.signingPackage, n.pending[id], n.keyPackage, e.randomizer)
  }

  /** The node cannot give what it owes: nonces are pending already, or signing fails. */
  predicate Fails(frost: Frost, n: NodeState, e: RequestEntry, id: Uuid) {
    || (OwesCommitment(n, e, id) && id in n.pending)
    || (OwesShare(n, e, id) && ShareFor(frost, n, e, id).Err?)
  }

  // ------------------------------------------------------ the account

  ghost function Offers(n: NodeState, requests: map<Uuid, RequestEntry>, ids: set<Uuid>): set<Uuid> {
    set id | id in ids && id in requests && OwesCommitment(n, requests[id], id)
  }

  ghost function Signings(n: NodeState, requests: map<Uuid, RequestEntry>, ids: set<Uuid>): set<Uuid> {
    set id | id in ids && id in requests && OwesShare(n, requests[id], id)
  }

  /** Requests with a commitment of the node on the chain, and with a share of it. */
  ghost function Counted(n: NodeState, requests: map<Uuid, RequestEntry>, ids: set<Uuid>): set<Uuid> {
    set id | id in ids && id in requests
      && requests[id].status.AwaitingCommitments? && n.identifier in requests[id].status.commitments
  }

  ghost function Delivered(n: NodeState, requests: map<Uuid, RequestEntry>, ids: set<Uuid>): set<Uuid> {
    set id | id in ids && id in requests
      && requests[id].status.Signing? && n.identifier in requests[id].status.participants
      && n.identifier in requests[id].status.shares
  }

  ghost function Below(requests: map<Uuid, RequestEntry>, id: Uuid): set<Uuid> {
    set k | k in requests && k < id
  }

  /** `m` is `n` after it dealt with the requests `done`. */
  ghost predicate Remembers(n: NodeState, requests: map<Uuid, RequestEntry>, done: set<Uuid>, m: NodeState) {
    && m.identifier == n.identifier && m.keyPackage == n.keyPackage && m.policy == n.policy
    && m.committed == n.committed + Offers(n, requests, done) + Counted(n, requests, done)
    && m.shared == n.shared + Signings(n, requests, done) + Delivered(n, requests, done)
    && m.pending.Keys == n.pending.Keys - Signings(n, requests, done) + Offers(n, requests, done)
    && forall id :: id in m.pending && id !in Offers(n, requests, done) ==> m.pending[id] == n.pending[id]
  }

  /** One draw for each commitment, in the order of the requests. */
  ghost predicate Draws(n: NodeState, requests: map<Uuid, RequestEntry>, done: set<Uuid>, draw: nat, p: Progress) {
    && p.draw == draw + |Offers(n, requests, done)|
    && forall id :: id in Offers(n, requests, done) ==>
         id in p.node.pending && p.node.pending[id] == Nonces(draw + |Offers(n, requests, Below(requests, id))|)
  }

  ghost predicate IsReply(frost: Frost, n: NodeState, requests: map<Uuid, RequestEntry>, done: set<Uuid>,
                          pending: map<Uuid, Nonces>, tx: Tx) {
    match tx
    case SubmitCommitment(id, v, c) =>
      && id in Offers(n, requests, done) && v == n.identifier
      && id in pending && c == frost.commit(n.keyPackage, pending[id])
    case SubmitShare(id, v, share) =>
      && id in Signings(n, requests, done) && v == n.identifier
      && ShareFor(frost, n, requests[id], id) == Ok(share)
    case _ => false
  }

  ghost predicate Replied(txs: seq<Tx>, id: Uuid) {
    exists tx :: tx in txs && (tx.SubmitCommitment? || tx.SubmitShare?) && tx.requestId == id
  }

  ghost predicate InKeyOrder(out: seq<Tx>) {
    && (forall i :: 0 <= i < |out| ==> out[i].SubmitCommitment? || out[i].SubmitShare?)
    && (forall i, j :: 0 <= i < j < |out| ==> out[i].requestId < out[j].requestId)
  }

  /** `out` replies to each request in `done` that is owed something, once, in key
      order, and holds nothing else. */
  ghost predicate Replies(frost: Frost, n: NodeState, requests: map<Uuid, RequestEntry>, done: set<Uuid>,
                          pending: map<Uuid, Nonces>, out: seq<Tx>) {
    && (forall tx {:trigger IsReply(frost, n, requests, done, pending, tx)} :: tx in out ==>
          IsReply(frost, n, requests, done, pending, tx))
    && InKeyOrder(out)
    && (forall id {:trigger Replied(out, id)} ::
          id in Offers(n, requests, done) || id in Signings(n, requests, done) ==> Replied(out, id))
  }

  ghost predicate Called(signed: seq<SignCall>, id: Uuid) {
    exists call :: call in signed && call.requestId == id
  }

  ghost predicate CallFor(n: NodeState, requests: map<Uuid, RequestEntry>, done: set<Uuid>, call: SignCall) {
    && call.requestId in Signings(n, requests, done)
    && call.nonces == n.pending[call.requestId]
    && call.package == requests[call.requestId].status.signingPackage
    && call.randomizer == requests[call.requestId].randomizer
  }

  /** One signing call for each share owed, in key order. */
  ghost predicate Calls(n: NodeState, requests: map<Uuid, RequestEntry>, done: set<Uuid>, signed: seq<SignCall>) {
    && (forall call {:trigger CallFor(n, requests, done, call)} :: call in signed ==>
          CallFor(n, requests, done, call))
    && (forall i, j :: 0 <= i < j < |signed| ==> signed[i].requestId < signed[j].requestId)
    && (forall id {:trigger Called(signed, id)} :: id in Signings(n, requests, done) ==> Called(signed, id))
  }

  /** The node has dealt with the requests `done`, and none of them failed. */
  ghost predicate Handled(frost: Frost, n: NodeState, requests: map<Uuid, RequestEntry>, done: set<Uuid>, draw: nat,
                          p: Progress) {
    && p.error.None?
    && Remembers(n, requests, done, p.node)
    && Draws(n, requests, done, draw, p)
    && Replies(frost, n, requests, done, p.node.pending, p.out)
    && Calls(n, requests, done, p.signed)
  }

  ghost function Failing(frost: Frost, n: NodeState, requests: map<Uuid, RequestEntry>): set<Uuid> {
    set id | id in requests && Fails(frost, n, requests[id], id)
  }

  /** How `q` ends at the failing request `id`. */
  ghost function FailedAt(frost: Frost, n: NodeState, e: RequestEntry, id: Uuid, q: Progress): Progress
    requires Fails(frost, n, e, id)
  {
    if OwesCommitment(n, e, id) then q.(draw := q.draw + 1, error := Some(SessionInUse))
    else
      q.(node := q.node.(pending := q.node.pending - {id}),
         signed := q.signed + [SignCall(id, n.pending[id], e.status.signingPackage, e.randomizer)],
         error := Some(FrostError(ShareFor(frost, n, e, id).error)))
  }

  /** The whole outcome: everything is dealt with, or all that comes before the first
      failing request is. */
  ghost predicate Accounts(frost: Frost, n: NodeState, requests: map<Uuid, RequestEntry>, draw: nat, p: Progress) {
    var failing := Failing(frost, n, requests);
    if failing == {} then Handled(frost, n, requests, requests.Keys, draw, p)
    else
      var id := Min(failing);
      exists q :: Handled(frost, n, requests, Below(requests, id), draw, q)
                  && p == FailedAt(frost, n, requests[id], id, q)
  }

  // ------------------------------------------------------ one request

  lemma OneMore(n: NodeState, requests: map<Uuid, RequestEntry>, done: set<Uuid>, id: Uuid)
    requires id in requests && id !in done
    ensures Offers(n, requests, done + {id}) ==
      if OwesCommitment(n, requests[id], id) then Offers(n, requests, done) + {id} else Offers(n, requests, done)
    ensures Signings(n, requests, done + {id}) ==
      if OwesShare(n, requests[id], id) then Signings(n, requests, done) + {id} else Signings(n, requests, done)
  {
  }

  lemma UntouchedSoFar(n: NodeState, requests: map<Uuid, RequestEntry>, done: set<Uuid>, m: NodeState, id: Uuid)
    requires Remembers(n, requests, done, m) && id !in done
    ensures m.identifier == n.identifier && m.keyPackage == n.keyPackage && m.policy == n.policy
    ensures id in m.committed <==> id in n.committed
    ensures id in m.shared <==> id in n.shared
    ensures id in m.pending <==> id in n.pending
    ensures id in m.pending ==> m.pending[id] == n.pending[id]
  {
  }

  /** What dealing with request `id` does to the memory. */
  ghost predicate Moves(n: NodeState, e: RequestEntry, id: Uuid, nonces: Nonces, m: NodeState, m': NodeState) {
    && m'.identifier == m.identifier && m'.keyPackage == m.keyPackage && m'.policy == m.policy
    && m'.committed == (if OwesCommitment(n, e, id)
                           || (e.status.AwaitingCommitments? && n.identifier in e.status.commitments)
                        then m.committed + {id} else m.committed)
    && m'.shared == (if OwesShare(n, e, id) || (e.status.Signing? && n.identifier in e.status.participants
                                                && n.identifier in e.status.shares)
                     then m.shared + {id} else m.shared)
    && m'.pending == (if OwesCommitment(n, e, id) then m.pending[id := nonces]
                      else if OwesShare(n, e, id) then m.pending - {id} else m.pending)
  }

  lemma NoncesStay(n: NodeState, e: RequestEntry, id: Uuid, nonces: Nonces, m: NodeState, m': NodeState)
    requires Moves(n, e, id, nonces, m, m')
    ensures NoncesKept(id, m.pending, m'.pending)
    ensures OwesCommitment(n, e, id) ==> id in m'.pending && m'.pending[id] == nonces
  {
  }

  lemma RemembersNext(n: NodeState, requests: map<Uuid, RequestEntry>, done: set<Uuid>, id: Uuid, nonces: Nonces,
                      m: NodeState, m': NodeState)
    requires Remembers(n, requests, done, m) && id in requests && id !in done
    requires Moves(n, requests[id], id, nonces, m, m')
    ensures Remembers(n, requests, done + {id}, m')
  {
    OneMore(n, requests, done, id);
    SeenNext(n, requests, done, id);
    PendingNext(n, requests, done, id, nonces, m, m');
  }

  lemma PendingNext(n: NodeState, requests: map<Uuid, RequestEntry>, done: set<Uuid>, id: Uuid, nonces: Nonces,
                    m: NodeState, m': NodeState)
    requires Remembers(n, requests, done, m) && id in requests && id !in done
    requires Moves(n, requests[id], id, nonces, m, m')
    ensures m'.pending.Keys == n.pending.Keys - Signings(n, requests, done + {id}) + Offers(n, requests, done + {id})
    ensures forall k :: k in m'.pending && k !in Offers(n, requests, done + {id}) ==> m'.pending[k] == n.pending[k]
  {
    OneMore(n, requests, done, id);
  }

  lemma SeenNext(n: NodeState, requests: map<Uuid, RequestEntry>, done: set<Uuid>, id: Uuid)
    requires id in requests && id !in done
    ensures Counted(n, requests, done + {id}) ==
      if requests[id].status.AwaitingCommitments? && n.identifier in requests[id].status.commitments
      then Counted(n, requests, done) + {id} else Counted(n, requests, done)
    ensures Delivered(n, requests, done + {id}) ==
      if requests[id].status.Signing? && n.identifier in requests[id].status.participants
         && n.identifier in requests[id].status.shares
      then Delivered(n, requests, done) + {id} else Delivered(n, requests, done)
  {
  }

  ghost predicate NoncesKept(id: Uuid, before: map<Uuid, Nonces>, after: map<Uuid, Nonces>) {
    forall k :: k in before && k != id ==> k in after && after[k] == before[k]
  }

  lemma ReplyStays(frost: Frost, n: NodeState, requests: map<Uuid, RequestEntry>, done: set<Uuid>, id: Uuid,
                   before: map<Uuid, Nonces>, after: map<Uuid, Nonces>, tx: Tx)
    requires IsReply(frost, n, requests, done, before, tx) && id in requests && id !in done
    requires NoncesKept(id, before, after)
    ensures IsReply(frost, n, requests, done + {id}, after, tx)
  {
    OneMore(n, requests, done, id);
  }

  /** Replies stay replies when another request is dealt with. */
  lemma RepliesStay(frost: Frost, n: NodeState, requests: map<Uuid, RequestEntry>, done: set<Uuid>, id: Uuid,
                    before: map<Uuid, Nonces>, after: map<Uuid, Nonces>, out: seq<Tx>)
    requires Replies(frost, n, requests, done, before, out) && id in requests && id !in done
    requires NoncesKept(id, before, after)
    requires !OwesCommitment(n, requests[id], id) && !OwesShare(n, requests[id], id)
    ensures Replies(frost, n, requests, done + {id}, after, out)
  {
    OneMore(n, requests, done, id);
    forall tx | tx in out ensures IsReply(frost, n, requests, done + {id}, after, tx) {
      assert IsReply(frost, n, requests, done, before, tx);
      ReplyStays(frost, n, requests, done, id, before, after, tx);
    }
  }

  lemma RepliesGrow(frost: Frost, n: NodeState, requests: map<Uuid, RequestEntry>, done: set<Uuid>, id: Uuid,
                    before: map<Uuid, Nonces>, after: map<Uuid, Nonces>, out: seq<Tx>, tx: Tx)
    requires Replies(frost, n, requests, done, before, out) && id in requests && forall k :: k in done ==> k < id
    requires NoncesKept(id, before, after)
    requires IsReply(frost, n, requests, done + {id}, after, tx) && tx.requestId == id
    ensures Replies(frost, n, requests, done + {id}, after, out + [tx])
  {
    OneMore(n, requests, done, id);
    forall t | t in out + [tx] ensures IsReply(frost, n, requests, done + {id}, after, t) {
      if t in out {
        assert IsReply(frost, n, requests, done, before, t);
        ReplyStays(frost, n, requests, done, id, before, after, t);
      }
    }
    forall k | k in Offers(n, requests, done + {id}) || k in Signings(n, requests, done + {id})
      ensures Replied(out + [tx], k)
    {
      if k == id {
        assert tx in out + [tx];
      } else {
        assert Replied(out, k);
      }
    }
    OrderGrows(frost, n, requests, done, before, out, tx);
  }

  lemma OrderGrows(frost: Frost, n: NodeState, requests: map<Uuid, RequestEntry>, done: set<Uuid>,
                   pending: map<Uuid, Nonces>, out: seq<Tx>, tx: Tx)
    requires Replies(frost, n, requests, done, pending, out) && (tx.SubmitCommitment? || tx.SubmitShare?)
    requires forall k :: k in done ==> k < tx.requestId
    ensures InKeyOrder(out + [tx])
  {
    forall i | 0 <= i < |out| ensures out[i].requestId < tx.requestId {
      assert IsReply(frost, n, requests, done, pending, out[i]);
    }
  }

  lemma CallsGrow(n: NodeState, requests: map<Uuid, RequestEntry>, done: set<Uuid>, id: Uuid, signed: seq<SignCall>,
                  call: SignCall)
    requires Calls(n, requests, done, signed) && id in requests && forall k :: k in done ==> k < id
    requires call.requestId == id && CallFor(n, requests, done + {id}, call)
    ensures Calls(n, requests, done + {id}, signed + [call])
  {
    OneMore(n, requests, done, id);
    forall c | c in signed + [call] ensures CallFor(n, requests, done + {id}, c) {
      assert c in signed ==> CallFor(n, requests, done, c);
    }
    forall k | k in Signings(n, requests, done + {id}) ensures Called(signed + [call], k) {
      if k == id {
        assert call in signed + [call];
      } else {
        assert Called(signed, k);
      }
    }
    forall i | 0 <= i < |signed| ensures signed[i].requestId < id {
      assert CallFor(n, requests, done, signed[i]);
    }
  }

  lemma CallsStay(n: NodeState, requests: map<Uuid, RequestEntry>, done: set<Uuid>, id: Uuid, signed: seq<SignCall>)
    requires Calls(n, requests, done, signed) && id in requests && id !in done && !OwesShare(n, requests[id], id)
    ensures Calls(n, requests, done + {id}, signed)
  {
    OneMore(n, requests, done, id);
    forall c | c in signed ensures CallFor(n, requests, done + {id}, c) {
      assert CallFor(n, requests, done, c);
    }
  }

  lemma DrawsNext(n: NodeState, requests: map<Uuid, RequestEntry>, id: Uuid, draw: nat, p: Progress, p': Progress)
    requires Draws(n, requests, Below(requests, id), draw, p) && id in requests
    requires NoncesKept(id, p.node.pending, p'.node.pending)
    requires if OwesCommitment(n, requests[id], id)
             then p'.draw == p.draw + 1 && id in p'.node.pending && p'.node.pending[id] == Nonces(p.draw)
             else p'.draw == p.draw
    ensures Draws(n, requests, Below(requests, id) + {id}, draw, p')
  {
    OneMore(n, requests, Below(requests, id), id);
  }

  ghost function ReplyTo(frost: Frost, n: NodeState, e: RequestEntry, id: Uuid, draw: nat): seq<Tx>
    requires !Fails(frost, n, e, id)
  {
    if OwesCommitment(n, e, id) then [SubmitCommitment(id, n.identifier, frost.commit(n.keyPackage, Nonces(draw)))]
    else if OwesShare(n, e, id) then [SubmitShare(id, n.identifier, ShareFor(frost, n, e, id).value)]
    else []
  }

  ghost function CallOf(n: NodeState, e: RequestEntry, id: Uuid): seq<SignCall> {
    if OwesShare(n, e, id) then [SignCall(id, n.pending[id], e.status.signingPackage, e.randomizer)] else []
  }

  /** `q` is `p` after request `id` is dealt with. */
  ghost predicate Replying(frost: Frost, n: NodeState, e: RequestEntry, id: Uuid, p: Progress, q: Progress)
    requires !Fails(frost, n, e, id)
  {
    && Moves(n, e, id, Nonces(p.draw), p.node, q.node)
    && q.out == p.out + ReplyTo(frost, n, e, id, p.draw) && q.signed == p.signed + CallOf(n, e, id)
    && q.draw == (if OwesCommitment(n, e, id) then p.draw + 1 else p.draw) && q.error.None?
  }

  lemma DealsWith(frost: Frost, n: NodeState, requests: map<Uuid, RequestEntry>, done: set<Uuid>, id: Uuid,
                  p: Progress)
    requires Remembers(n, requests, done, p.node) && id in requests && id !in done && p.error.None?
    requires !Fails(frost, n, requests[id], id)
    ensures Replying(frost, n, requests[id], id, p, OnRequest(frost, p, requests[id], id))
  {
    UntouchedSoFar(n, requests, done, p.node, id);
    assert p.out + [] == p.out && p.signed + [] == p.signed;
  }

  lemma RepliesNext(frost: Frost, n: NodeState, requests: map<Uuid, RequestEntry>, id: Uuid, draw: nat,
                    before: map<Uuid, Nonces>, after: map<Uuid, Nonces>, out: seq<Tx>)
    requires Replies(frost, n, requests, Below(requests, id), before, out) && id in requests
    requires NoncesKept(id, before, after) && !Fails(frost, n, requests[id], id)
    requires OwesCommitment(n, requests[id], id) ==> id in after && after[id] == Nonces(draw)
    ensures Replies(frost, n, requests, Below(requests, id) + {id}, after,
                    out + ReplyTo(frost, n, requests[id], id, draw))
  {
    var txs := ReplyTo(frost, n, requests[id], id, draw);
    if txs == [] {
      RepliesStay(frost, n, requests, Below(requests, id), id, before, after, out);
      assert out + txs == out;
    } else {
      OneMore(n, requests, Below(requests, id), id);
      RepliesGrow(frost, n, requests, Below(requests, id), id, before, after, out, txs[0]);
    }
  }

  lemma CallsNext(n: NodeState, requests: map<Uuid, RequestEntry>, id: Uuid, signed: seq<SignCall>)
    requires Calls(n, requests, Below(requests, id), signed) && id in requests
    ensures Calls(n, requests, Below(requests, id) + {id}, signed + CallOf(n, requests[id], id))
  {
    var calls := CallOf(n, requests[id], id);
    if calls == [] {
      CallsStay(n, requests, Below(requests, id), id, signed);
      assert signed + calls == signed;
    } else {
      OneMore(n, requests, Below(requests, id), id);
      CallsGrow(n, requests, Below(requests, id), id, signed, calls[0]);
    }
  }

  lemma HandledNext(frost: Frost, n: NodeState, requests: map<Uuid, RequestEntry>, done: set<Uuid>, id: Uuid,
                    draw: nat, p: Progress, q: Progress)
    requires Handled(frost, n, requests, done, draw, p) && id in requests && done == Below(requests, id)
    requires !Fails(frost, n, requests[id], id) && q == OnRequest(frost, p, requests[id], id)
    ensures Handled(frost, n, requests, done + {id}, draw, q)
  {
    DealsWith(frost, n, requests, done, id, p);
    ReplyingHandled(frost, n, requests, id, draw, p, q);
  }

  lemma ReplyingHandled(frost: Frost, n: NodeState, requests: map<Uuid, RequestEntry>, id: Uuid, draw: nat,
                        p: Progress, q: Progress)
    requires Handled(frost, n, requests, Below(requests, id), draw, p) && id in requests
    requires !Fails(frost, n, requests[id], id) && Replying(frost, n, requests[id], id, p, q)
    ensures Handled(frost, n, requests, Below(requests, id) + {id}, draw, q)
  {
    NoncesStay(n, requests[id], id, Nonces(p.draw), p.node, q.node);
    RemembersNext(n, requests, Below(requests, id), id, Nonces(p.draw), p.node, q.node);
    DrawsNext(n, requests, id, draw, p, q);
    RepliesNext(frost, n, requests, id, p.draw, p.node.pending, q.node.pending, p.out);
    CallsNext(n, requests, id, p.signed);
  }

  lemma FailsHere(frost: Frost, n: NodeState, requests: map<Uuid, RequestEntry>, id: Uuid, draw: nat, p: Progress)
    requires Handled(frost, n, requests, Below(requests, id), draw, p) && id in requests
    requires Fails(frost, n, requests[id], id)
    ensures OnRequest(frost, p, requests[id], id) == FailedAt(frost, n, requests[id], id, p)
  {
    UntouchedSoFar(n, requests, Below(requests, id), p.node, id);
  }

  lemma StopsAt(frost: Frost, n: NodeState, requests: map<Uuid, RequestEntry>, done: set<Uuid>, id: Uuid, draw: nat,
                p: Progress, q: Progress)
    requires Handled(frost, n, requests, done, draw, p) && id in requests && done == Below(requests, id)
    requires Fails(frost, n, requests[id], id) && q == OnRequest(frost, p, requests[id], id)
    requires forall k :: k in Failing(frost, n, requests) ==> id <= k
    ensures Accounts(frost, n, requests, draw, q) && q.error.Some?
  {
    FailsHere(frost, n, requests, id, draw, p);
    assert id in Failing(frost, n, requests) && Min(Failing(frost, n, requests)) == id;
  }

  // ------------------------------------------------------ the whole reaction

  /** `rest` are the requests above all of `done`. */
  ghost predicate Splits(requests: map<Uuid, RequestEntry>, done: set<Uuid>, rest: set<Uuid>) {
    done + rest == requests.Keys && forall k, id :: k in done && id in rest ==> k < id
  }

  lemma SplitsAt(requests: map<Uuid, RequestEntry>, done: set<Uuid>, rest: set<Uuid>)
    requires Splits(requests, done, rest) && rest != {}
    ensures done == Below(requests, Min(rest)) && Splits(requests, done + {Min(rest)}, rest - {Min(rest)})
  {
  }

  lemma {:induction false} LoopAccounts(frost: Frost, n: NodeState, requests: map<Uuid, RequestEntry>,
                                        done: set<Uuid>, rest: set<Uuid>, draw: nat, p: Progress)
    requires Splits(requests, done, rest) && Failing(frost, n, requests) <= rest
    requires Handled(frost, n, requests, done, draw, p)
    ensures Accounts(frost, n, requests, draw, OnRequests(frost, p, requests, rest))
    decreases |rest|
  {
    if rest == {} {
      assert done == requests.Keys;
    } else {
      var id := Min(rest);
      SplitsAt(requests, done, rest);
      var q := OnRequest(frost, p, requests[id], id);
      if Fails(frost, n, requests[id], id) {
        StopsAt(frost, n, requests, done, id, draw, p, q);
        AbandonedReaction(frost, q, requests, rest - {id});
      } else {
        HandledNext(frost, n, requests, done, id, draw, p, q);
        LoopAccounts(frost, n, requests, done + {id}, rest - {id}, draw, q);
      }
    }
  }

  /** The exact account of a reaction: which requests get a reply, which reply, in
      which order, with which nonces, what is remembered, and at which request and
      with which error it stops. A node outside the group does nothing. */
  lemma ReactionAccount(frost: Frost, n: NodeState, s: State, draw: nat)
    ensures var p := React(frost, n, s, draw);
      if s.group.Some? && n.identifier in s.group.value.validators then Accounts(frost, n, s.requests, draw, p)
      else p == Progress(n, draw, [], [], None)
  {
    if IsMember(s, n.identifier) {
      NothingHandled(frost, n, s.requests, draw);
      LoopAccounts(frost, n, s.requests, {}, s.requests.Keys, draw, Progress(n, draw, [], [], None));
    }
  }

  lemma NothingHandled(frost: Frost, n: NodeState, requests: map<Uuid, RequestEntry>, draw: nat)
    ensures Handled(frost, n, requests, {}, draw, Progress(n, draw, [], [], None))
  {
    assert Offers(n, requests, {}) == {} && Signings(n, requests, {}) == {};
  }

  /** If no error occurs, a member commits to exactly the requests it owes a
      commitment, shares for exactly those it owes a share, and sends nothing else. */
  lemma RepliesIff(frost: Frost, n: NodeState, s: State, draw: nat, id: Uuid)
    requires s.group.Some? && n.identifier in s.group.value.validators && React(frost, n, s, draw).error.None?
    ensures var out := React(frost, n, s, draw).out;
      && ((exists c :: SubmitCommitment(id, n.identifier, c) in out) <==>
            id in s.requests && OwesCommitment(n, s.requests[id], id))
      && ((exists share :: SubmitShare(id, n.identifier, share) in out) <==>
            id in s.requests && OwesShare(n, s.requests[id], id))
      && forall tx :: tx in out ==> (tx.SubmitCommitment? || tx.SubmitShare?) && tx.validator == n.identifier
  {
    ReactionAccount(frost, n, s, draw);
    var p := React(frost, n, s, draw);
    RepliesMean(frost, n, s.requests, p.node.pending, p.out, id);
  }

  lemma RepliesMean(frost: Frost, n: NodeState, requests: map<Uuid, RequestEntry>, pending: map<Uuid, Nonces>,
                    out: seq<Tx>, id: Uuid)
    requires Replies(frost, n, requests, requests.Keys, pending, out)
    ensures (exists c :: SubmitCommitment(id, n.identifier, c) in out) <==>
      id in requests && OwesCommitment(n, requests[id], id)
    ensures (exists share :: SubmitShare(id, n.identifier, share) in out) <==>
      id in requests && OwesShare(n, requests[id], id)
    ensures forall tx :: tx in out ==> (tx.SubmitCommitment? || tx.SubmitShare?) && tx.validator == n.identifier
  {
    forall tx | tx in out
      ensures IsReply(frost, n, requests, requests.Keys, pending, tx)
      ensures (tx.SubmitCommitment? || tx.SubmitShare?) && tx.validator == n.identifier
    {
      assert IsReply(frost, n, requests, requests.Keys, pending, tx);
    }
    if id in Offers(n, requests, requests.Keys) || id in Signings(n, requests, requests.Keys) {
      assert Replied(out, id);
      var tx :| tx in out && (tx.SubmitCommitment? || tx.SubmitShare?) && tx.requestId == id;
      assert IsReply(frost, n, requests, requests.Keys, pending, tx);
    }
  }

  /** Request `id` is the first that fails. */
  ghost predicate FirstFault(frost: Frost, n: NodeState, requests: map<Uuid, RequestEntry>, id: Uuid) {
    && id in requests && Fails(frost, n, requests[id], id)
    && forall k :: k in requests && k < id ==> !Fails(frost, n, requests[k], k)
  }

  /** The first request that fails is `id`, and it fails with `e`. */
  ghost predicate StopsWith(frost: Frost, n: NodeState, requests: map<Uuid, RequestEntry>, id: Uuid, e: NodeError)
  {
    && FirstFault(frost, n, requests, id)
    && e == if OwesCommitment(n, requests[id], id) then SessionInUse
            else FrostError(ShareFor(frost, n, requests[id], id).error)
  }

  /** A reaction fails exactly when some request fails, with the error of the first. */
  lemma FailsIff(frost: Frost, n: NodeState, s: State, draw: nat, e: NodeError)
    requires s.group.Some? && n.identifier in s.group.value.validators
    ensures React(frost, n, s, draw).error == Some(e) <==> exists id :: StopsWith(frost, n, s.requests, id, e)
  {
    ReactionAccount(frost, n, s, draw);
    if Failing(frost, n, s.requests) == {} {
      forall id ensures !StopsWith(frost, n, s.requests, id, e) {
        assert FirstFault(frost, n, s.requests, id) ==> id in Failing(frost, n, s.requests);
      }
    } else {
      FirstIsMin(frost, n, s.requests);
      FaultAt(frost, n, s.requests, draw, React(frost, n, s, draw));
    }
  }

  lemma FaultAt(frost: Frost, n: NodeState, requests: map<Uuid, RequestEntry>, draw: nat, p: Progress)
    requires Accounts(frost, n, requests, draw, p) && Failing(frost, n, requests) != {}
    ensures p.error.Some? && StopsWith(frost, n, requests, Min(Failing(frost, n, requests)), p.error.value)
  {
    var id := Min(Failing(frost, n, requests));
    FirstIsMin(frost, n, requests);
    assert FirstFault(frost, n, requests, id);
    var q :| Handled(frost, n, requests, Below(requests, id), draw, q) && p == FailedAt(frost, n, requests[id], id, q);
    assert p == FailedAt(frost, n, requests[id], id, q);
  }

  lemma FirstIsMin(frost: Frost, n: NodeState, requests: map<Uuid, RequestEntry>)
    requires Failing(frost, n, requests) != {}
    ensures forall id :: FirstFault(frost, n, requests, id) <==> id == Min(Failing(frost, n, requests))
  {
    var least := Min(Failing(frost, n, requests));
    forall k | k in requests && k < least ensures !Fails(frost, n, requests[k], k) {
      assert Fails(frost, n, requests[k], k) ==> k in Failing(frost, n, requests);
    }
    forall id | FirstFault(frost, n, requests, id) ensures id == least {
      assert id in Failing(frost, n, requests);
    }
  }
}
