/** One participant of a chain-driven key generation ceremony. */
module Participants {
  import opened Core
  import opened FrostSuite
  import opened Chain
  import opened Escrow
  import opened Nodes

  /** The randomness a participant draws: for `part1`, and per sealed envelope. */
  datatype Tape = Tape(part1: nat, seal: Identifier -> nat)

  datatype DkgError = FrostFailure(reason: string) | BadEnvelope | Inconsistent(what: string) | Underflow

  /** The participant's memory as a value. */
  datatype Participant = Participant(
    identifier: Identifier,
    encSecret: EncSecretKey,
    secretR1: Option<Round1Secret>,
    secretR2: Option<Round2Secret>,
    submittedR1: bool,
    submittedR2: bool,
    submittedFinalize: bool,
    keyPackage: Option<KeyPackage>,
    publicKeyPackage: Option<PublicKeyPackage>)
  {
    predicate IsComplete() {
      keyPackage.Some? && publicKeyPackage.Some?
    }
  }

  datatype Reaction = Reaction(next: Participant, result: Result<seq<Tx>, DkgError>)

  function Others<V>(m: map<Identifier, V>, id: Identifier): map<Identifier, V> {
    m - {id}
  }

  function OpenOne(frost: Frost, secret: EncSecretKey, sealed: Sealed): Option<Round2Package> {
    match frost.open(secret, sealed)
    case None => None
    case Some(bytes) => frost.decode(bytes)
  }

  function SealOne(frost: Frost, c: DkgCeremony, tape: Tape, from: Identifier, to: Identifier, pkg: Round2Package): Tx
    requires to in c.validators
  {
    DkgRound2(from, to, frost.seal(tape.seal(to), c.validators[to], frost.encode(pkg)))
  }

  /** Round-2 transactions to `rest`, in recipient order. */
  ghost function Envelopes(frost: Frost, c: DkgCeremony, tape: Tape, from: Identifier,
                           sent: map<Identifier, Round2Package>, rest: set<Identifier>): seq<Tx>
    requires rest <= sent.Keys && rest <= c.validators.Keys
    decreases |rest|
  {
    if rest == {} then []
    else
      var to := Min(rest);
      [SealOne(frost, c, tape, from, to, sent[to])] + Envelopes(frost, c, tape, from, sent, rest - {to})
  }

  /** Senders with an envelope addressed to `id`. */
  function Senders(round2: map<(Identifier, Identifier), Sealed>, id: Identifier): set<Identifier> {
    set p | p in round2 && p.1 == id :: p.0
  }

  ghost predicate AllOpen(frost: Frost, secret: EncSecretKey, id: Identifier,
                          round2: map<(Identifier, Identifier), Sealed>) {
    forall f :: (f, id) in round2 ==> OpenOne(frost, secret, round2[(f, id)]).Some?
  }

  ghost function Received(frost: Frost, secret: EncSecretKey, id: Identifier,
                          round2: map<(Identifier, Identifier), Sealed>)
    : (r: map<Identifier, Round2Package>)
    requires AllOpen(frost, secret, id, round2)
    ensures forall f :: f in r <==> (f, id) in round2
    ensures forall f :: f in r ==> r[f] == OpenOne(frost, secret, round2[(f, id)]).value
  {
    assert forall f :: (f, id) in round2 ==> (f, id).1 == id && f in Senders(round2, id);
    assert forall f :: f in Senders(round2, id) ==> (f, id) in round2;
    map f | f in Senders(round2, id) :: OpenOne(frost, secret, round2[(f, id)]).value
  }

  ghost function ReactRound1(frost: Frost, p: Participant, c: DkgCeremony, tape: Tape): Reaction {
    match frost.part1(p.identifier, c.params, tape.part1)
    case Err(e) => Reaction(p, Err(FrostFailure(e)))
    case Ok((secret, package)) =>
      Reaction(p.(secretR1 := Some(secret), submittedR1 := true), Ok([DkgRound1(p.identifier, package)]))
  }

  ghost function ReactRound2(frost: Frost, p: Participant, c: DkgCeremony, tape: Tape): Reaction {
    if p.secretR1.None? then Reaction(p, Err(Inconsistent("missing r1 secret for r2"))) else
    var taken := p.(secretR1 := None);
    match frost.part2(p.secretR1.value, Others(c.round1, p.identifier))
    case Err(e) => Reaction(taken, Err(FrostFailure(e)))
    case Ok((secret, sent)) =>
      var held := taken.(secretR2 := Some(secret));
      if sent.Keys <= c.validators.Keys then
        Reaction(held.(submittedR2 := true), Ok(Envelopes(frost, c, tape, p.identifier, sent, sent.Keys)))
      else
        Reaction(held, Err(Inconsistent("recipient has no enc pubkey")))
  }

  ghost function ReactFinalize(frost: Frost, p: Participant, c: DkgCeremony): Reaction {
    if p.identifier in c.finalize then Reaction(p.(submittedFinalize := true), Ok([]))
    else if !AllOpen(frost, p.encSecret, p.identifier, c.round2) then Reaction(p, Err(BadEnvelope))
    else if p.secretR2.None? then Reaction(p, Err(Inconsistent("missing r2 secret for finalize"))) else
    var taken := p.(secretR2 := None);
    match frost.part3(p.secretR2.value, Others(c.round1, p.identifier),
                      Received(frost, p.encSecret, p.identifier, c.round2))
    case Err(e) => Reaction(taken, Err(FrostFailure(e)))
    case Ok((key, pkp)) =>
      Reaction(taken.(keyPackage := Some(key), publicKeyPackage := Some(pkp), submittedFinalize := true),
               Ok([DkgFinalize(p.identifier, pkp)]))
  }

  ghost function AfterRound1(frost: Frost, p: Participant, c: DkgCeremony, tape: Tape): Reaction {
    if !c.R1Complete() then Reaction(p, Ok([]))
    else if !p.submittedR2 then ReactRound2(frost, p, c, tape)
    else if c.params.total == 0 then Reaction(p, Err(Underflow))
    else if !c.R2Complete() || p.submittedFinalize then Reaction(p, Ok([]))
    else ReactFinalize(frost, p, c)
  }

  ghost function ReactCeremony(frost: Frost, p: Participant, s: State, tape: Tape): Reaction {
    if s.group.Some? || s.ceremony.None? || p.identifier !in s.ceremony.value.validators then Reaction(p, Ok([])) else
    var c := s.ceremony.value;
    if !p.submittedR1 && p.identifier !in c.round1 then ReactRound1(frost, p, c, tape)
    else AfterRound1(frost, p.(submittedR1 := true), c, tape)
  }

  /** Seals every outgoing round-2 package to its recipient's key. */
  method SealAll(frost: Frost, c: DkgCeremony, tape: Tape, from: Identifier, sent: map<Identifier, Round2Package>)
    returns (r: Result<seq<Tx>, DkgError>)
    ensures sent.Keys <= c.validators.Keys ==> r == Ok(Envelopes(frost, c, tape, from, sent, sent.Keys))
    ensures !(sent.Keys <= c.validators.Keys) ==> r == Err(Inconsistent("recipient has no enc pubkey"))
  {
    var out: seq<Tx> := [];
    var rest := sent.Keys;
    while rest != {}
      invariant rest <= sent.Keys && sent.Keys - rest <= c.validators.Keys
      invariant sent.Keys <= c.validators.Keys ==>
        out + Envelopes(frost, c, tape, from, sent, rest) == Envelopes(frost, c, tape, from, sent, sent.Keys)
      decreases |rest|
    {
      var to := Min(rest);
      if to !in c.validators {
        return Err(Inconsistent("recipient has no enc pubkey"));
      }
      out := out + [SealOne(frost, c, tape, from, to, sent[to])];
      rest := rest - {to};
    }
    assert out + [] == out;
    return Ok(out);
  }

  /** Opens and decodes every envelope addressed to `id`. */
  method OpenAll(frost: Frost, secret: EncSecretKey, id: Identifier, round2: map<(Identifier, Identifier), Sealed>)
    returns (r: Option<map<Identifier, Round2Package>>)
    ensures r.Some? <==> AllOpen(frost, secret, id, round2)
    ensures r.Some? ==> r.value == Received(frost, secret, id, round2)
  {
    var received: map<Identifier, Round2Package> := map[];
    var rest := round2.Keys;
    while rest != {}
      invariant rest <= round2.Keys
      invariant forall f :: f in received <==> (f, id) in round2 && (f, id) !in rest
      invariant forall f :: f in received ==>
        var plain := OpenOne(frost, secret, round2[(f, id)]);
        plain.Some? && received[f] == plain.value
      decreases |rest|
    {
      var route :| route in rest;
      rest := rest - {route};
      if route.1 == id {
        assert route == (route.0, id);
        var plain := OpenOne(frost, secret, round2[route]);
        if plain.None? {
          return None;
        }
        received := received[route.0 := plain.value];
      }
    }
    return Some(received);
  }

  class DkgParticipant {
    const identifier: Identifier
    const encSecret: EncSecretKey
    var secretR1: Option<Round1Secret>
    var secretR2: Option<Round2Secret>
    var submittedR1: bool
    var submittedR2: bool
    var submittedFinalize: bool
    var keyPackage: Option<KeyPackage>
    var publicKeyPackage: Option<PublicKeyPackage>

    ghost function Memory(): Participant
      reads this
    {
      Participant(identifier, encSecret, secretR1, secretR2, submittedR1, submittedR2, submittedFinalize,
                  keyPackage, publicKeyPackage)
    }

    constructor (identifier: Identifier, encSecret: EncSecretKey)
      ensures Memory() == Participant(identifier, encSecret, None, None, false, false, false, None, None)
    {
      this.identifier, this.encSecret := identifier, encSecret;
      secretR1, secretR2 := None, None;
      submittedR1, submittedR2, submittedFinalize := false, false, false;
      keyPackage, publicKeyPackage := None, None;
    }

    /** Drives the ceremony one step. */
    method React(frost: Frost, s: State, tape: Tape) returns (r: Result<seq<Tx>, DkgError>)
      modifies this
      ensures Reaction(Memory(), r) == ReactCeremony(frost, old(Memory()), s, tape)
    {
      if s.group.Some? || s.ceremony.None? {
        return Ok([]);
      }
      var c := s.ceremony.value;
      if identifier !in c.validators {
        return Ok([]);
      }
      if !submittedR1 {
        if identifier in c.round1 {
          submittedR1 := true;
        } else {
          match frost.part1(identifier, c.params, tape.part1) {
            case Err(e) =>
              return Err(FrostFailure(e));
            case Ok((secret, package)) =>
              secretR1 := Some(secret);
              submittedR1 := true;
              return Ok([DkgRound1(identifier, package)]);
          }
        }
      }
      if !c.R1Complete() {
        return Ok([]);
      }
      if !submittedR2 {
        r := SendRound2(frost, c, tape);
        return;
      }
      if c.params.total == 0 {
        return Err(Underflow);
      }
      if !c.R2Complete() || submittedFinalize {
        return Ok([]);
      }
      r := Finalize(frost, c);
    }

    method SendRound2(frost: Frost, c: DkgCeremony, tape: Tape) returns (r: Result<seq<Tx>, DkgError>)
      modifies this
      ensures Reaction(Memory(), r) == ReactRound2(frost, old(Memory()), c, tape)
    {
      var others := Others(c.round1, identifier);
      if secretR1.None? {
        return Err(Inconsistent("missing r1 secret for r2"));
      }
      var secret1 := secretR1.value;
      secretR1 := None;
      match frost.part2(secret1, others) {
        case Err(e) =>
          return Err(FrostFailure(e));
        case Ok((secret, sent)) =>
          secretR2 := Some(secret);
          r := SealAll(frost, c, tape, identifier, sent);
          if r.Ok? {
            submittedR2 := true;
          }
      }
    }

    method Finalize(frost: Frost, c: DkgCeremony) returns (r: Result<seq<Tx>, DkgError>)
      modifies this
      ensures Reaction(Memory(), r) == ReactFinalize(frost, old(Memory()), c)
    {
      if identifier in c.finalize {
        submittedFinalize := true;
        return Ok([]);
      }
      var received := OpenAll(frost, encSecret, identifier, c.round2);
      if received.None? {
        return Err(BadEnvelope);
      }
      if secretR2.None? {
        return Err(Inconsistent("missing r2 secret for finalize"));
      }
      var secret2 := secretR2.value;
      secretR2 := None;
      match frost.part3(secret2, Others(c.round1, identifier), received.value) {
        case Err(e) =>
          return Err(FrostFailure(e));
        case Ok((key, pkp)) =>
          keyPackage := Some(key);
          publicKeyPackage := Some(pkp);
          submittedFinalize := true;
          return Ok([DkgFinalize(identifier, pkp)]);
      }
    }

    /** A signing node with the default policy, once the ceremony is locally complete. */
    method IntoNode() returns (r: Result<Node, DkgError>)
      ensures r.Ok? <==> keyPackage.Some? && publicKeyPackage.Some?
      ensures keyPackage.None? ==> r == Err(Inconsistent("DKG not complete: no key package"))
      ensures keyPackage.Some? && publicKeyPackage.None? ==> r == Err(Inconsistent("DKG not complete: no PKP"))
      ensures r.Ok? ==> fresh(r.value)
      ensures r.Ok? ==>
        r.value.Memory() == NodeState(keyPackage.value.identifier, keyPackage.value, map[], {}, {}, AcceptAll)
    {
      if keyPackage.None? {
        return Err(Inconsistent("DKG not complete: no key package"));
      }
      if publicKeyPackage.None? {
        return Err(Inconsistent("DKG not complete: no PKP"));
      }
      var node := new Node(keyPackage.value, AcceptAll);
      return Ok(node);
    }
  }
}
