/** A ceremony among some honest participants and arbitrary others.

    Honest participants may be shown any states at all, in any order, with any
    randomness. Everyone else may submit any transaction except a ceremony
    transaction in an honest participant's name; what is submitted reaches the chain
    any number of times, in any order. Nothing is assumed of the FROST library. */
module DkgAdversary {
  import opened Core
  import opened FrostSuite
  import opened Chain
  import opened Runs
  import opened Participants
  import opened Ceremonies

  datatype World = World(log: seq<Tx>, pool: set<Tx>, people: map<Identifier, Participant>)

  datatype Event =
    | Inject(tx: Tx)
    | Arrive(tx: Tx)
    | Observe(i: Identifier, shown: State, tape: Tape)

  predicate IsCeremonyTx(tx: Tx) {
    tx.DkgRound1? || tx.DkgRound2? || tx.DkgFinalize?
  }

  predicate MayInject(w: World, tx: Tx) {
    !(IsCeremonyTx(tx) && tx.from in w.people)
  }

  ghost function Emitted(r: Reaction): set<Tx> {
    if r.result.Ok? then set tx | tx in r.result.value else {}
  }

  /** Events that are not possible are ignored. */
  ghost function Exec(frost: Frost, w: World, e: Event): World {
    match e
    case Inject(tx) => if MayInject(w, tx) then w.(pool := w.pool + {tx}) else w
    case Arrive(tx) => if tx in w.pool then w.(log := w.log + [tx]) else w
    case Observe(i, shown, tape) =>
      if i in w.people then
        var r := ReactCeremony(frost, w.people[i], shown, tape);
        w.(people := w.people[i := r.next], pool := w.pool + Emitted(r))
      else w
  }

  ghost function Run(frost: Frost, w: World, events: seq<Event>): World {
    if events == [] then w
    else Exec(frost, Run(frost, w, events[..|events| - 1]), events[|events| - 1])
  }

  ghost predicate Initial(w: World) {
    && w.log == [] && w.pool == {}
    && forall i :: i in w.people ==>
      w.people[i].identifier == i && w.people[i].keyPackage.None? && w.people[i].publicKeyPackage.None?
  }

  // ------------------------------------------------------ one participant

  /** A derived package is kept with its key and ends the participant's part. */
  predicate Committed(p: Participant) {
    p.publicKeyPackage.Some? ==> p.submittedFinalize && p.keyPackage.Some?
  }

  /** What a reaction may change, and what it may send. */
  ghost predicate KeepsItsWord(p: Participant, r: Reaction) {
    && r.next.identifier == p.identifier && Committed(r.next)
    && (p.publicKeyPackage.Some? ==> r.next.publicKeyPackage == p.publicKeyPackage)
    && forall tx :: tx in Emitted(r) ==>
      && IsCeremonyTx(tx) && tx.from == p.identifier
      && (tx.DkgFinalize? ==> p.publicKeyPackage.None? && r.next.publicKeyPackage == Some(tx.pkp))
  }

  lemma {:induction false} EnvelopesAreRound2(frost: Frost, c: DkgCeremony, tape: Tape, from: Identifier,
                                              sent: map<Identifier, Round2Package>, rest: set<Identifier>)
    requires rest <= sent.Keys && rest <= c.validators.Keys
    ensures forall tx :: tx in Envelopes(frost, c, tape, from, sent, rest) ==> tx.DkgRound2? && tx.from == from
    decreases |rest|
  {
    if rest == {} {
      assert Envelopes(frost, c, tape, from, sent, rest) == [];
    } else {
      EnvelopesAreRound2(frost, c, tape, from, sent, rest - {Min(rest)});
    }
  }

  lemma Round2KeepsWord(frost: Frost, p: Participant, c: DkgCeremony, tape: Tape)
    requires Committed(p)
    ensures KeepsItsWord(p, ReactRound2(frost, p, c, tape))
  {
    if p.secretR1.Some? {
      var r := frost.part2(p.secretR1.value, Others(c.round1, p.identifier));
      if r.Ok? && r.value.1.Keys <= c.validators.Keys {
        EnvelopesAreRound2(frost, c, tape, p.identifier, r.value.1, r.value.1.Keys);
      }
    }
  }

  lemma ReactionKeepsWord(frost: Frost, p: Participant, s: State, tape: Tape)
    requires Committed(p)
    ensures KeepsItsWord(p, ReactCeremony(frost, p, s, tape))
  {
    if s.ceremony.Some? {
      var c, p' := s.ceremony.value, p.(submittedR1 := true);
      Round2KeepsWord(frost, p', c, tape);
      if !p'.submittedFinalize {
        FinalizeKeepsWord(frost, p', c);
      }
    }
  }

  lemma FinalizeKeepsWord(frost: Frost, p: Participant, c: DkgCeremony)
    requires Committed(p) && !p.submittedFinalize
    ensures KeepsItsWord(p, ReactFinalize(frost, p, c))
  {
  }

  // ------------------------------------------------------ every run

  /** Whatever has been finalized in an honest name is that participant's package. */
  ghost predicate Truthful(w: World) {
    && (forall i :: 0 <= i < |w.log| ==> w.log[i] in w.pool)
    && (forall i :: i in w.people ==> w.people[i].identifier == i && Committed(w.people[i]))
    && (forall i, pkp :: i in w.people && DkgFinalize(i, pkp) in w.pool ==> w.people[i].publicKeyPackage == Some(pkp))
  }

  lemma StaysTruthful(frost: Frost, w: World, e: Event)
    requires Truthful(w)
    ensures Truthful(Exec(frost, w, e)) && Exec(frost, w, e).people.Keys == w.people.Keys
  {
    match e
    case Inject(tx) =>
    case Arrive(tx) =>
    case Observe(i, shown, tape) =>
      if i in w.people {
        var r, w' := ReactCeremony(frost, w.people[i], shown, tape), Exec(frost, w, e);
        ReactionKeepsWord(frost, w.people[i], shown, tape);
        forall j, pkp | j in w'.people && DkgFinalize(j, pkp) in w'.pool
          ensures w'.people[j].publicKeyPackage == Some(pkp)
        {
          if DkgFinalize(j, pkp) !in w.pool {
            assert DkgFinalize(j, pkp) in Emitted(r);
          }
        }
      }
  }

  lemma {:induction false} AlwaysTruthful(frost: Frost, w: World, events: seq<Event>)
    requires Initial(w)
    ensures Truthful(Run(frost, w, events)) && Run(frost, w, events).people.Keys == w.people.Keys
  {
    if events == [] {
      assert Truthful(w);
    } else {
      var front := events[..|events| - 1];
      AlwaysTruthful(frost, w, front);
      StaysTruthful(frost, Run(frost, w, front), events[|events| - 1]);
    }
  }

  /** Whatever the others do: if a ceremony is promoted, every honest validator in it
      has completed, and its own package agrees with the group's in verifying key and
      verifying shares. */
  lemma HonestPackagesStand(frost: Frost, w: World, events: seq<Event>, params: MpcParams,
                            validators: map<Identifier, EncPublicKey>, i: Identifier)
    requires Initial(w) && i in w.people && i in validators
    requires Promotes(frost, Run(frost, w, events).log, params, validators)
    ensures var w' := Run(frost, w, events); var g := Deliver(frost, GENESIS, w'.log).group.value;
      && i in w'.people && w'.people[i].keyPackage.Some? && w'.people[i].publicKeyPackage.Some?
      && w'.people[i].publicKeyPackage.value.verifyingKey == g.pkp.verifyingKey
      && w'.people[i].publicKeyPackage.value.verifyingShares == g.pkp.verifyingShares
  {
    var w' := Run(frost, w, events);
    AlwaysTruthful(frost, w, events);
    PromotionIsUnanimous(frost, w'.log, params, validators);
    KeptWasDelivered(frost, GENESIS, w'.log);
    var g := Deliver(frost, GENESIS, w'.log).group.value;
    var pkp :| DkgFinalize(i, pkp) in Kept(frost, GENESIS, w'.log)
      && pkp.verifyingKey == g.pkp.verifyingKey && pkp.verifyingShares == g.pkp.verifyingShares;
    assert DkgFinalize(i, pkp) in w'.log;
  }
}
