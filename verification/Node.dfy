/** A signing node: its nonce store, its request bookkeeping and the policy gate. */
module Nodes {
  import opened Core
  import opened FrostSuite
  import opened Chain
  import opened Escrow

  datatype NodeError = SessionInUse | SessionNotFound | FrostError(reason: string)

  /** The node's memory as a value. */
  datatype NodeState = NodeState(
    identifier: Identifier,
    keyPackage: KeyPackage,
    pending: map<Uuid, Nonces>,
    committed: set<Uuid>,
    shared: set<Uuid>,
    policy: Policy)

  /** One call of the FROST signing primitive. */
  datatype SignCall = SignCall(requestId: Uuid, nonces: Nonces, package: SigningPackage, randomizer: Randomizer)

  /** A reaction in progress. `draw` numbers the random draws, `signed` records
      the signing calls made, and an error abandons the emitted transactions. */
  datatype Progress = Progress(
    node: NodeState, draw: nat, out: seq<Tx>, signed: seq<SignCall>, error: Option<NodeError>)
  {
    function Emitted(): seq<Tx> {
      if error.None? then out else []
    }
  }

  function OnAwaiting(frost: Frost, p: Progress, id: Uuid, message: Message,
                      cs: map<Identifier, Commitments>): Progress {
    var n := p.node;
    if n.identifier in cs then p.(node := n.(committed := n.committed + {id}))
    else if id in n.committed || !n.policy.Approves(message) then p
    else if id in n.pending then p.(draw := p.draw + 1, error := Some(SessionInUse))
    else
      var nonces := Nonces(p.draw);
      p.(node := n.(pending := n.pending[id := nonces], committed := n.committed + {id}),
         draw := p.draw + 1,
         out := p.out + [SubmitCommitment(id, n.identifier, frost.commit(n.keyPackage, nonces))])
  }

  function OnSigning(frost: Frost, p: Progress, id: Uuid, randomizer: Randomizer, pkg: SigningPackage,
                     participants: set<Identifier>, shares: map<Identifier, Share>): Progress {
    var n := p.node;
    if n.identifier !in participants then p
    else if n.identifier in shares then p.(node := n.(shared := n.shared + {id}))
    else if id in n.shared || id !in n.pending then p
    else
      var nonces := n.pending[id];
      var spent := n.(pending := n.pending - {id});
      var signed := p.signed + [SignCall(id, nonces, pkg, randomizer)];
      match frost.sign(pkg, nonces, n.keyPackage, randomizer)
      case Err(e) => p.(node := spent, signed := signed, error := Some(FrostError(e)))
      case Ok(share) =>
        p.(node := spent.(shared := n.shared + {id}), signed := signed,
           out := p.out + [SubmitShare(id, n.identifier, share)])
  }

  function OnRequest(frost: Frost, p: Progress, entry: RequestEntry, id: Uuid): Progress {
    if p.error.Some? then p else
    match entry.status
    case AwaitingCommitments(cs) => OnAwaiting(frost, p, id, entry.message, cs)
    case Signing(pkg, ps, shares) => OnSigning(frost, p, id, entry.randomizer, pkg, ps, shares)
    case Completed(_, _) => p
    case Failed(_) => p
  }

  /** Requests are visited in key order. */
  ghost function OnRequests(frost: Frost, p: Progress, requests: map<Uuid, RequestEntry>, rest: set<Uuid>): Progress
    requires rest <= requests.Keys
    decreases |rest|
  {
    if rest == {} then p
    else
      var id := Min(rest);
      OnRequests(frost, OnRequest(frost, p, requests[id], id), requests, rest - {id})
  }

  predicate IsMember(s: State, id: Identifier) {
    s.group.Some? && id in s.group.value.validators
  }

  ghost function React(frost: Frost, n: NodeState, s: State, draw: nat): Progress {
    var p := Progress(n, draw, [], [], None);
    if IsMember(s, n.identifier) then OnRequests(frost, p, s.requests, s.requests.Keys) else p
  }

  class Node {
    const identifier: Identifier
    const keyPackage: KeyPackage
    const policy: Policy
    var pending: map<Uuid, Nonces>
    var committedRequests: set<Uuid>
    var sharedRequests: set<Uuid>

    ghost function Memory(): NodeState
      reads this
    {
      NodeState(identifier, keyPackage, pending, committedRequests, sharedRequests, policy)
    }

    constructor (keyPackage: KeyPackage, policy: Policy)
      ensures Memory() == NodeState(keyPackage.identifier, keyPackage, map[], {}, {}, policy)
    {
      this.identifier := keyPackage.identifier;
      this.keyPackage := keyPackage;
      this.policy := policy;
      pending, committedRequests, sharedRequests := map[], {}, {};
    }

    /** Round 1 of section 5.1 of RFC 9591: draw nonces and cache them. */
    method Commit(frost: Frost, session: Uuid, draw: nat) returns (r: Result<Commitments, NodeError>)
      modifies this`pending
      ensures r.Err? <==> session in old(pending)
      ensures r.Err? ==> r.error == SessionInUse && pending == old(pending)
      ensures r.Ok? ==> r.value == frost.commit(keyPackage, Nonces(draw))
      ensures r.Ok? ==> pending == old(pending)[session := Nonces(draw)]
    {
      var nonces := Nonces(draw);
      var commitments := frost.commit(keyPackage, nonces);
      if session in pending {
        return Err(SessionInUse);
      }
      pending := pending[session := nonces];
      return Ok(commitments);
    }

    /** Round 2 of section 5.2 of RFC 9591: the cached nonces are consumed
        whether or not signing succeeds. */
    method SignShareRerandomized(frost: Frost, session: Uuid, pkg: SigningPackage, randomizer: Randomizer)
      returns (r: Result<Share, NodeError>)
      modifies this`pending
      ensures session !in pending && pending == old(pending) - {session}
      ensures session !in old(pending) ==> r == Err(SessionNotFound)
      ensures session in old(pending) ==>
        r == match frost.sign(pkg, old(pending)[session], keyPackage, randomizer)
             case Ok(share) => Ok(share)
             case Err(e) => Err(FrostError(e))
    {
      if session !in pending {
        assert pending - {session} == pending;
        return Err(SessionNotFound);
      }
      var nonces := pending[session];
      pending := pending - {session};
      match frost.sign(pkg, nonces, keyPackage, randomizer)
      case Ok(share) => return Ok(share);
      case Err(e) => return Err(FrostError(e));
    }

    /** Reacts to a state in one pass over its requests, in key order. */
    method ReactTo(frost: Frost, s: State, draw: nat) returns (r: Result<seq<Tx>, NodeError>, nextDraw: nat)
      modifies this`pending, this`committedRequests, this`sharedRequests
      ensures var p := React(frost, old(Memory()), s, draw);
        && Memory() == p.node && nextDraw == p.draw
        && r == (if p.error.None? then Ok(p.out) else Err(p.error.value))
    {
      var out: seq<Tx> := [];
      nextDraw := draw;
      if s.group.None? || identifier !in s.group.value.validators {
        return Ok(out), nextDraw;
      }
      ghost var signed: seq<SignCall> := [];
      var rest := s.requests.Keys;
      while rest != {}
        invariant rest <= s.requests.Keys
        invariant React(frost, old(Memory()), s, draw) ==
          OnRequests(frost, Progress(Memory(), nextDraw, out, signed, None), s.requests, rest)
        decreases |rest|
      {
        var id := Min(rest);
        var entry := s.requests[id];
        ghost var before := Progress(Memory(), nextDraw, out, signed, None);
        rest := rest - {id};
        match entry.status
        case AwaitingCommitments(cs) =>
          if identifier in cs {
            committedRequests := committedRequests + {id};
          } else if id !in committedRequests {
            if policy.Approves(entry.message) {
              var c := Commit(frost, id, nextDraw);
              nextDraw := nextDraw + 1;
              if c.Err? {
                AbandonedReaction(frost, OnRequest(frost, before, entry, id), s.requests, rest);
                return Err(c.error), nextDraw;
              }
              committedRequests := committedRequests + {id};
              out := out + [SubmitCommitment(id, identifier, c.value)];
            }
          }
        case Signing(pkg, participants, shares) =>
          if identifier in participants {
            if identifier in shares {
              sharedRequests := sharedRequests + {id};
            } else if id !in sharedRequests {
              ghost var held := pending;
              var share := SignShareRerandomized(frost, id, pkg, entry.randomizer);
              if id in held {
                signed := signed + [SignCall(id, held[id], pkg, entry.randomizer)];
              } else {
                assert pending == held;
              }
              match share
              case Ok(value) =>
                sharedRequests := sharedRequests + {id};
                out := out + [SubmitShare(id, identifier, value)];
              case Err(SessionNotFound) =>
              case Err(e) =>
                AbandonedReaction(frost, OnRequest(frost, before, entry, id), s.requests, rest);
                return Err(e), nextDraw;
            }
          }
        case Completed(_, _) =>
        case Failed(_) =>
        assert Progress(Memory(), nextDraw, out, signed, None) == OnRequest(frost, before, entry, id);
      }
      r := Ok(out);
    }
  }

  /** After an error the remaining requests are not visited. */
  lemma {:induction false} AbandonedReaction(frost: Frost, p: Progress, requests: map<Uuid, RequestEntry>,
                                             rest: set<Uuid>)
    requires rest <= requests.Keys && p.error.Some?
    ensures OnRequests(frost, p, requests, rest) == p
    decreases |rest|
  {
    if rest == {} {
    } else {
      AbandonedReaction(frost, p, requests, rest - {Min(rest)});
    }
  }
}
