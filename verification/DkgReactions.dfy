/** What one step of a key generation participant amounts to: when it fails and with
    which error, what it sends, what it remembers, and which failures are final. */
module DkgReactions {
  import opened Core
  import opened FrostSuite
  import opened Chain
  import opened Participants

  // ------------------------------------------------------ whose turn it is

  /** The participant takes part in the ceremony that `s` shows. */
  predicate TakesPart(p: Participant, s: State) {
    s.group.None? && s.ceremony.Some? && p.identifier in s.ceremony.value.validators
  }

  predicate Round1Due(p: Participant, c: DkgCeremony) {
    !p.submittedR1 && p.identifier !in c.round1
  }

  predicate Round1Done(p: Participant, c: DkgCeremony) {
    (p.submittedR1 || p.identifier in c.round1) && |c.round1| == c.params.total
  }

  predicate Round2Due(p: Participant, c: DkgCeremony) {
    Round1Done(p, c) && !p.submittedR2
  }

  /** All of round 2 is in, and the participant has yet to finalize or to see that it did. */
  predicate ClosingDue(p: Participant, c: DkgCeremony) {
    && Round1Done(p, c) && p.submittedR2 && c.params.total != 0
    && |c.round2| == c.params.total * (c.params.total - 1) && !p.submittedFinalize
  }

  predicate FinalizeDue(p: Participant, c: DkgCeremony) {
    ClosingDue(p, c) && p.identifier !in c.finalize
  }

  // ------------------------------------------------------ what FROST is given

  /** `others` is `m` without the entry of `id`. */
  ghost predicate WithoutOwn<V>(m: map<Identifier, V>, id: Identifier, others: map<Identifier, V>) {
    && (forall j :: j in others <==> j in m && j != id)
    && (forall j :: j in others ==> others[j] == m[j])
  }

  /** An envelope to the participant that does not open, or whose content does not parse. */
  ghost predicate Unreadable(frost: Frost, p: Participant, c: DkgCeremony, from: Identifier) {
    && (from, p.identifier) in c.round2
    && var plain := frost.open(p.encSecret, c.round2[(from, p.identifier)]);
       plain.None? || frost.decode(plain.value).None?
  }

  ghost predicate AllReadable(frost: Frost, p: Participant, c: DkgCeremony) {
    forall from :: !Unreadable(frost, p, c, from)
  }

  /** `inbox` is what the envelopes to the participant hold, by sender. */
  ghost predicate Inbox(frost: Frost, p: Participant, c: DkgCeremony, inbox: map<Identifier, Round2Package>) {
    && (forall from :: from in inbox <==> (from, p.identifier) in c.round2)
    && (forall from :: from in inbox ==>
          var plain := frost.open(p.encSecret, c.round2[(from, p.identifier)]);
          plain.Some? && frost.decode(plain.value) == Some(inbox[from]))
  }

  /** The maps that FROST is given, if all envelopes are readable. */
  ghost predicate Given(frost: Frost, p: Participant, c: DkgCeremony, others: map<Identifier, Round1Package>,
                        inbox: map<Identifier, Round2Package>) {
    WithoutOwn(c.round1, p.identifier, others) && (AllReadable(frost, p, c) ==> Inbox(frost, p, c, inbox))
  }

  lemma GivenExists(frost: Frost, p: Participant, c: DkgCeremony)
    returns (others: map<Identifier, Round1Package>, inbox: map<Identifier, Round2Package>)
    ensures Given(frost, p, c, others, inbox)
    ensures others == Others(c.round1, p.identifier)
    ensures AllReadable(frost, p, c) <==> AllOpen(frost, p.encSecret, p.identifier, c.round2)
    ensures AllReadable(frost, p, c) ==> inbox == Received(frost, p.encSecret, p.identifier, c.round2)
  {
    others := Others(c.round1, p.identifier);
    if AllReadable(frost, p, c) {
      forall from | (from, p.identifier) in c.round2
        ensures OpenOne(frost, p.encSecret, c.round2[(from, p.identifier)]).Some?
      {
        assert !Unreadable(frost, p, c, from);
      }
      inbox := Received(frost, p.encSecret, p.identifier, c.round2);
    } else {
      inbox := map[];
    }
  }

  lemma GivenUnique(frost: Frost, p: Participant, c: DkgCeremony, others: map<Identifier, Round1Package>,
                    inbox: map<Identifier, Round2Package>)
    requires Given(frost, p, c, others, inbox)
    ensures others == Others(c.round1, p.identifier)
    ensures AllReadable(frost, p, c) <==> AllOpen(frost, p.encSecret, p.identifier, c.round2)
    ensures AllReadable(frost, p, c) ==> inbox == Received(frost, p.encSecret, p.identifier, c.round2)
  {
    var others', inbox' := GivenExists(frost, p, c);
  }

  // ------------------------------------------------------ failures

  ghost predicate Round1Cause(frost: Frost, p: Participant, c: DkgCeremony, tape: Tape, e: DkgError) {
    var made := frost.part1(p.identifier, c.params, tape.part1);
    made.Err? && e == FrostFailure(made.error)
  }

  ghost predicate Round2Cause(frost: Frost, p: Participant, c: DkgCeremony, others: map<Identifier, Round1Package>,
                              e: DkgError) {
    if p.secretR1.None? then e == Inconsistent("missing r1 secret for r2")
    else
      var made := frost.part2(p.secretR1.value, others);
      if made.Err? then e == FrostFailure(made.error)
      else KeyMissing(c, made.value.1) && e == Inconsistent("recipient has no enc pubkey")
  }

  /** Some recipient has no key in the ceremony. */
  ghost predicate KeyMissing(c: DkgCeremony, sent: map<Identifier, Round2Package>) {
    exists to :: to in sent && to !in c.validators
  }

  ghost predicate FinalizeCause(frost: Frost, p: Participant, c: DkgCeremony, others: map<Identifier, Round1Package>,
                                inbox: map<Identifier, Round2Package>, e: DkgError) {
    if !AllReadable(frost, p, c) then e == BadEnvelope
    else if p.secretR2.None? then e == Inconsistent("missing r2 secret for finalize")
    else
      var made := frost.part3(p.secretR2.value, others, inbox);
      made.Err? && e == FrostFailure(made.error)
  }

  /** The phase that is due is the one that reacts. */
  lemma Dispatch(frost: Frost, p: Participant, s: State, tape: Tape)
    requires TakesPart(p, s)
    ensures var c, q := s.ceremony.value, p.(submittedR1 := true);
      ReactCeremony(frost, p, s, tape) ==
      if Round1Due(p, c) then ReactRound1(frost, p, c, tape)
      else if Round2Due(p, c) then ReactRound2(frost, q, c, tape)
      else if FinalizeDue(p, c) then ReactFinalize(frost, q, c)
      else if Round1Done(p, c) && p.submittedR2 && c.params.total == 0 then Reaction(q, Err(Underflow))
      else Reaction(q.(submittedFinalize := p.submittedFinalize || ClosingDue(p, c)), Ok([]))
  {
  }

  lemma Round2FailsIff(frost: Frost, p: Participant, c: DkgCeremony, tape: Tape, others: map<Identifier, Round1Package>,
                       e: DkgError)
    requires others == Others(c.round1, p.identifier)
    ensures var r := ReactRound2(frost, p, c, tape);
      && (r.result == Err(e) <==> Round2Cause(frost, p, c, others, e))
      && (r.result.Err? ==> r.next == p.(secretR1 := None, secretR2 :=
            if p.secretR1.Some? && frost.part2(p.secretR1.value, others).Ok? then
              Some(frost.part2(p.secretR1.value, others).value.0)
            else p.secretR2))
  {
  }

  lemma FinalizeFailsIff(frost: Frost, p: Participant, c: DkgCeremony, others: map<Identifier, Round1Package>,
                         inbox: map<Identifier, Round2Package>, e: DkgError)
    requires Given(frost, p, c, others, inbox) && p.identifier !in c.finalize
    ensures var r := ReactFinalize(frost, p, c);
      && (r.result == Err(e) <==> FinalizeCause(frost, p, c, others, inbox, e))
      && (r.result.Err? ==> r.next == if AllReadable(frost, p, c) then p.(secretR2 := None) else p)
  {
    GivenUnique(frost, p, c, others, inbox);
  }

  /** The causes of a failure, phase by phase. */
  ghost predicate Cause(frost: Frost, p: Participant, c: DkgCeremony, tape: Tape,
                        others: map<Identifier, Round1Package>, inbox: map<Identifier, Round2Package>, e: DkgError) {
    || (Round1Due(p, c) && Round1Cause(frost, p, c, tape, e))
    || (Round2Due(p, c) && Round2Cause(frost, p, c, others, e))
    || (FinalizeDue(p, c) && FinalizeCause(frost, p, c, others, inbox, e))
    || (Round1Done(p, c) && p.submittedR2 && c.params.total == 0 && e == Underflow)
  }

  /** As `FinalizeFailsIff`, for a participant whose round-1 flag is set on the way. */
  lemma NotedFinalizeFails(frost: Frost, p: Participant, c: DkgCeremony, others: map<Identifier, Round1Package>,
                           inbox: map<Identifier, Round2Package>, e: DkgError)
    requires Given(frost, p, c, others, inbox) && p.identifier !in c.finalize
    ensures var q := p.(submittedR1 := true); var r := ReactFinalize(frost, q, c);
      && (r.result == Err(e) <==> FinalizeCause(frost, p, c, others, inbox, e))
      && (r.result.Err? ==> r.next == if AllReadable(frost, p, c) then q.(secretR2 := None) else q)
  {
    var q := p.(submittedR1 := true);
    SameGiven(frost, p, q, c, others, inbox);
    FinalizeFailsIff(frost, q, c, others, inbox, e);
  }

  /** A step fails with `e` exactly when the phase that is due has that cause to. */
  lemma FailsIff(frost: Frost, p: Participant, s: State, tape: Tape, others: map<Identifier, Round1Package>,
                 inbox: map<Identifier, Round2Package>, e: DkgError)
    requires TakesPart(p, s) && Given(frost, p, s.ceremony.value, others, inbox)
    ensures ReactCeremony(frost, p, s, tape).result == Err(e) <==>
      Cause(frost, p, s.ceremony.value, tape, others, inbox, e)
  {
    var c := s.ceremony.value;
    Dispatch(frost, p, s, tape);
    CauseOfDue(frost, p, c, tape, others, inbox, e);
    if Round2Due(p, c) {
      assert others == Others(c.round1, p.identifier);
      Round2FailsIff(frost, p.(submittedR1 := true), c, tape, others, e);
    } else if FinalizeDue(p, c) {
      NotedFinalizeFails(frost, p, c, others, inbox, e);
    }
  }

  /** At most one phase is due. */
  lemma CauseOfDue(frost: Frost, p: Participant, c: DkgCeremony, tape: Tape, others: map<Identifier, Round1Package>,
                   inbox: map<Identifier, Round2Package>, e: DkgError)
    ensures Cause(frost, p, c, tape, others, inbox, e) <==>
      if Round1Due(p, c) then Round1Cause(frost, p, c, tape, e)
      else if Round2Due(p, c) then Round2Cause(frost, p, c, others, e)
      else if FinalizeDue(p, c) then FinalizeCause(frost, p, c, others, inbox, e)
      else Round1Done(p, c) && p.submittedR2 && c.params.total == 0 && e == Underflow
  {
  }

  /** What FROST is given depends on the identity of the participant only. */
  lemma SameGiven(frost: Frost, p: Participant, q: Participant, c: DkgCeremony, others: map<Identifier, Round1Package>,
                  inbox: map<Identifier, Round2Package>)
    requires q == p.(submittedR1 := true)
    ensures AllReadable(frost, q, c) <==> AllReadable(frost, p, c)
    ensures Given(frost, q, c, others, inbox) <==> Given(frost, p, c, others, inbox)
    ensures forall e :: FinalizeCause(frost, q, c, others, inbox, e) <==> FinalizeCause(frost, p, c, others, inbox, e)
  {
    assert forall from :: Unreadable(frost, q, c, from) <==> Unreadable(frost, p, c, from);
  }

  /** What a failure leaves behind: the flag of the phase and the packages as they
      were, and the secret taken if the phase got as far as using it. */
  lemma FailureLeaves(frost: Frost, p: Participant, s: State, tape: Tape, others: map<Identifier, Round1Package>,
                      inbox: map<Identifier, Round2Package>)
    requires TakesPart(p, s) && Given(frost, p, s.ceremony.value, others, inbox)
    requires ReactCeremony(frost, p, s, tape).result.Err?
    ensures var c, next := s.ceremony.value, ReactCeremony(frost, p, s, tape).next;
      && next.identifier == p.identifier && next.encSecret == p.encSecret
      && next.submittedR1 == !Round1Due(p, c)
      && next.submittedR2 == p.submittedR2 && next.submittedFinalize == p.submittedFinalize
      && next.keyPackage == p.keyPackage && next.publicKeyPackage == p.publicKeyPackage
      && next.secretR1 == (if Round2Due(p, c) then None else p.secretR1)
      && next.secretR2 ==
           if Round2Due(p, c) && p.secretR1.Some? && frost.part2(p.secretR1.value, others).Ok? then
             Some(frost.part2(p.secretR1.value, others).value.0)
           else if FinalizeDue(p, c) && AllReadable(frost, p, c) then None
           else p.secretR2
  {
    var c, q := s.ceremony.value, p.(submittedR1 := true);
    var e := ReactCeremony(frost, p, s, tape).result.error;
    GivenUnique(frost, p, c, others, inbox);
    if Round2Due(p, c) {
      Round2FailsIff(frost, q, c, tape, others, e);
    } else if FinalizeDue(p, c) {
      NotedFinalizeFails(frost, p, c, others, inbox, e);
    }
  }

  /** Whoever does not take part does nothing at all. */
  lemma BystandersRest(frost: Frost, p: Participant, s: State, tape: Tape)
    requires !TakesPart(p, s)
    ensures ReactCeremony(frost, p, s, tape) == Reaction(p, Ok([]))
  {
  }

  // ------------------------------------------------------ successes

  ghost predicate InRecipientOrder(out: seq<Tx>) {
    && (forall i :: 0 <= i < |out| ==> out[i].DkgRound2?)
    && (forall i, j :: 0 <= i < j < |out| ==> out[i].to < out[j].to)
  }

  /** The envelope that carries `pkg` to `to`. */
  ghost predicate Carries(frost: Frost, c: DkgCeremony, tape: Tape, from: Identifier, to: Identifier,
                          pkg: Round2Package, tx: Tx) {
    to in c.validators && tx == DkgRound2(from, to, frost.seal(tape.seal(to), c.validators[to], frost.encode(pkg)))
  }

  ghost predicate CarriesOneOf(frost: Frost, c: DkgCeremony, tape: Tape, from: Identifier,
                               sent: map<Identifier, Round2Package>, rest: set<Identifier>, tx: Tx) {
    exists to :: to in rest && to in sent && Carries(frost, c, tape, from, to, sent[to], tx)
  }

  lemma {:induction false} EnvelopesCarryAll(frost: Frost, c: DkgCeremony, tape: Tape, from: Identifier,
                                             sent: map<Identifier, Round2Package>, rest: set<Identifier>)
    requires rest <= sent.Keys && rest <= c.validators.Keys
    ensures var out := Envelopes(frost, c, tape, from, sent, rest);
      && InRecipientOrder(out)
      && forall tx :: tx in out <==> CarriesOneOf(frost, c, tape, from, sent, rest, tx)
    decreases |rest|
  {
    var out := Envelopes(frost, c, tape, from, sent, rest);
    if rest == {} {
      assert out == [];
    } else {
      var to := Min(rest);
      var first := SealOne(frost, c, tape, from, to, sent[to]);
      var more := Envelopes(frost, c, tape, from, sent, rest - {to});
      EnvelopesCarryAll(frost, c, tape, from, sent, rest - {to});
      assert Carries(frost, c, tape, from, to, sent[to], first);
      forall tx ensures tx in out <==> CarriesOneOf(frost, c, tape, from, sent, rest, tx) {
        assert tx in out <==> tx == first || tx in more;
        if CarriesOneOf(frost, c, tape, from, sent, rest, tx) {
          var k :| k in rest && k in sent && Carries(frost, c, tape, from, k, sent[k], tx);
          assert k != to ==> CarriesOneOf(frost, c, tape, from, sent, rest - {to}, tx);
        }
      }
      forall i | 0 <= i < |more| ensures more[i].to > to {
        assert more[i] in more && CarriesOneOf(frost, c, tape, from, sent, rest - {to}, more[i]);
      }
    }
  }

  /** A step that succeeds in round 1 publishes the package that `part1` made. */
  lemma Round1Succeeds(frost: Frost, p: Participant, s: State, tape: Tape, secret: Round1Secret, package: Round1Package)
    requires TakesPart(p, s) && Round1Due(p, s.ceremony.value)
    requires frost.part1(p.identifier, s.ceremony.value.params, tape.part1) == Ok((secret, package))
    ensures ReactCeremony(frost, p, s, tape) ==
      Reaction(p.(secretR1 := Some(secret), submittedR1 := true), Ok([DkgRound1(p.identifier, package)]))
  {
  }

  /** A step that succeeds in round 2 seals every package that `part2` made to its
      recipient's key, once, in the order of the recipients, and nothing else. */
  lemma Round2Succeeds(frost: Frost, p: Participant, s: State, tape: Tape, others: map<Identifier, Round1Package>,
                       secret: Round2Secret, sent: map<Identifier, Round2Package>)
    requires TakesPart(p, s) && Round2Due(p, s.ceremony.value)
    requires WithoutOwn(s.ceremony.value.round1, p.identifier, others) && p.secretR1.Some?
    requires frost.part2(p.secretR1.value, others) == Ok((secret, sent))
    requires forall to :: to in sent ==> to in s.ceremony.value.validators
    ensures var r := ReactCeremony(frost, p, s, tape);
      && r.next == p.(submittedR1 := true, secretR1 := None, secretR2 := Some(secret), submittedR2 := true)
      && r.result.Ok? && InRecipientOrder(r.result.value)
      && forall tx :: tx in r.result.value <==>
           CarriesOneOf(frost, s.ceremony.value, tape, p.identifier, sent, sent.Keys, tx)
  {
    var c := s.ceremony.value;
    assert others == Others(c.round1, p.identifier);
    EnvelopesCarryAll(frost, c, tape, p.identifier, sent, sent.Keys);
  }

  /** A step that succeeds in the last phase keeps both packages and publishes one. */
  lemma FinalizeSucceeds(frost: Frost, p: Participant, s: State, tape: Tape, others: map<Identifier, Round1Package>,
                         inbox: map<Identifier, Round2Package>, key: KeyPackage, pkp: PublicKeyPackage)
    requires TakesPart(p, s) && FinalizeDue(p, s.ceremony.value) && AllReadable(frost, p, s.ceremony.value)
    requires Given(frost, p, s.ceremony.value, others, inbox) && p.secretR2.Some?
    requires frost.part3(p.secretR2.value, others, inbox) == Ok((key, pkp))
    ensures ReactCeremony(frost, p, s, tape) == Reaction(
      p.(submittedR1 := true, secretR2 := None, keyPackage := Some(key), publicKeyPackage := Some(pkp),
         submittedFinalize := true), Ok([DkgFinalize(p.identifier, pkp)]))
  {
    GivenUnique(frost, p, s.ceremony.value, others, inbox);
  }

  /** With nothing due, a step only notes what the chain shows of its own submissions. */
  lemma NothingDue(frost: Frost, p: Participant, s: State, tape: Tape)
    requires TakesPart(p, s)
    requires var c := s.ceremony.value;
      !Round1Due(p, c) && !Round2Due(p, c) && !FinalizeDue(p, c)
      && !(Round1Done(p, c) && p.submittedR2 && c.params.total == 0)
    ensures var c := s.ceremony.value;
      ReactCeremony(frost, p, s, tape) ==
      Reaction(p.(submittedR1 := true, submittedFinalize := p.submittedFinalize || ClosingDue(p, c)), Ok([]))
  {
  }

  // ------------------------------------------------------ failures that are final

  datatype Shown = Shown(state: State, tape: Tape)

  ghost function After(frost: Frost, p: Participant, shown: seq<Shown>): Participant {
    if shown == [] then p
    else
      var last := shown[|shown| - 1];
      ReactCeremony(frost, After(frost, p, shown[..|shown| - 1]), last.state, last.tape).next
  }

  /** The secret that the participant needs for its next phase is gone. */
  predicate Lost(p: Participant) {
    && p.submittedR1
    && if p.submittedR2 then p.submittedFinalize || p.secretR2.None? else p.secretR1.None?
  }

  lemma LostStays(frost: Frost, p: Participant, s: State, tape: Tape)
    requires Lost(p)
    ensures var r := ReactCeremony(frost, p, s, tape);
      && Lost(r.next) && (r.result.Ok? ==> r.result.value == [])
      && r.next.keyPackage == p.keyPackage && r.next.publicKeyPackage == p.publicKeyPackage
  {
  }

  lemma {:induction false} LostForGood(frost: Frost, p: Participant, shown: seq<Shown>)
    requires Lost(p)
    ensures var q := After(frost, p, shown);
      Lost(q) && q.keyPackage == p.keyPackage && q.publicKeyPackage == p.publicKeyPackage
  {
    if shown == [] {
    } else {
      var last := shown[|shown| - 1];
      LostForGood(frost, p, shown[..|shown| - 1]);
      LostStays(frost, After(frost, p, shown[..|shown| - 1]), last.state, last.tape);
    }
  }

  /** A failure in round 2, or in the last phase once the envelopes are open, is
      final: whatever states follow, the participant never sends anything again and
      never obtains a package. The other failures leave everything for a retry. */
  lemma FailureIsFinal(frost: Frost, p: Participant, s: State, tape: Tape, shown: seq<Shown>, next: Shown)
    requires TakesPart(p, s) && ReactCeremony(frost, p, s, tape).result.Err?
    ensures var c, failed := s.ceremony.value, ReactCeremony(frost, p, s, tape).next;
      if Round2Due(p, c) || (FinalizeDue(p, c) && AllReadable(frost, p, c)) then
        var q := After(frost, failed, shown);
        var r := ReactCeremony(frost, q, next.state, next.tape);
        && (r.result.Ok? ==> r.result.value == [])
        && q.keyPackage == p.keyPackage && q.publicKeyPackage == p.publicKeyPackage
      else failed == p.(submittedR1 := failed.submittedR1)
  {
    var c, failed := s.ceremony.value, ReactCeremony(frost, p, s, tape).next;
    var others, inbox := GivenExists(frost, p, c);
    FailureLeaves(frost, p, s, tape, others, inbox);
    if Round2Due(p, c) || (FinalizeDue(p, c) && AllReadable(frost, p, c)) {
      LostForGood(frost, failed, shown);
      LostStays(frost, After(frost, failed, shown), next.state, next.tape);
    }
  }
}
