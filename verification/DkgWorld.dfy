/** An honest ceremony over the chain under every interleaving.

    Participants react to the current or any earlier state; emitted transactions
    wait in a pool and reach the chain in any order, each once. */
module DkgWorld {
  import opened Core
  import opened FrostSuite
  import opened Chain
  import opened Ledgers
  import opened Acceptance
  import opened Runs
  import opened Accounting
  import opened Participants
  import opened Transcript

  datatype World = World(log: seq<Tx>, pool: multiset<Tx>, people: map<Identifier, Participant>)

  datatype Event = Observe(i: Identifier, at: nat) | Arrive(tx: Tx)

  ghost function Begin(frost: Frost, cast: Cast): Tx {
    DkgBegin(cast.params, PublicKeys(frost, cast))
  }

  function NewParticipant(i: Identifier, secret: EncSecretKey): Participant {
    Participant(i, secret, None, None, false, false, false, None, None)
  }

  ghost function Start(frost: Frost, cast: Cast): World {
    World([Begin(frost, cast)], multiset{},
          map i | i in cast.secrets :: NewParticipant(i, cast.secrets[i]))
  }

  ghost function StateAt(frost: Frost, w: World, at: nat): State
    requires at <= |w.log|
  {
    Deliver(frost, GENESIS, w.log[..at])
  }

  ghost function Current(frost: Frost, w: World): State {
    Deliver(frost, GENESIS, w.log)
  }

  ghost function ReactAt(frost: Frost, cast: Cast, w: World, i: Identifier, at: nat): Reaction
    requires i in w.people && i in cast.tapes && at <= |w.log|
  {
    ReactCeremony(frost, w.people[i], StateAt(frost, w, at), cast.tapes[i])
  }

  /** Events that are not possible are ignored. */
  ghost function Exec(frost: Frost, cast: Cast, w: World, e: Event): World {
    match e
    case Observe(i, at) =>
      if i in w.people && i in cast.tapes && at <= |w.log| then
        var r := ReactAt(frost, cast, w, i, at);
        w.(people := w.people[i := r.next],
           pool := if r.result.Ok? then w.pool + multiset(r.result.value) else w.pool)
      else w
    case Arrive(tx) =>
      if tx in w.pool then w.(log := w.log + [tx], pool := w.pool - multiset{tx}) else w
  }

  ghost function Run(frost: Frost, cast: Cast, events: seq<Event>): World {
    if events == [] then Start(frost, cast)
    else Exec(frost, cast, Run(frost, cast, events[..|events| - 1]), events[|events| - 1])
  }

  // ------------------------------------------------------ the plan

  ghost predicate InPlan(ids: set<Identifier>, k: Slot) {
    match k
    case Setup => true
    case R1(i) => i in ids
    case R2(i, j) => i in ids && j in ids && i != j
    case Fin(i) => i in ids
    case _ => false
  }

  /** The transactions of an honest ceremony, one per slot. */
  datatype Plan = Plan(begin: Tx, script: Script, sealed: map<(Identifier, Identifier), Sealed>) {
    ghost predicate Valid() {
      && begin.DkgBegin? && SetupJustified(begin)
      && begin.validators.Keys == script.roles.Keys
      && script.Addressed()
      && forall i, j :: i in script.roles && j in script.roles && i != j ==> (i, j) in sealed
    }

    ghost function Ids(): set<Identifier> {
      script.roles.Keys
    }

    /** The one transaction an honest ceremony can put into slot `k`. */
    ghost function At(k: Slot): (tx: Tx)
      requires Valid() && InPlan(Ids(), k)
      ensures SlotOf(tx) == k
    {
      match k
      case Setup => begin
      case R1(i) => DkgRound1(i, script.roles[i].package1)
      case R2(i, j) => DkgRound2(i, j, sealed[(i, j)])
      case Fin(i) => DkgFinalize(i, script.roles[i].pkp)
    }
  }

  ghost predicate Submitted(people: map<Identifier, Participant>, k: Slot)
    requires InPlan(people.Keys, k)
  {
    match k
    case Setup => true
    case R1(i) => people[i].submittedR1
    case R2(i, _) => people[i].submittedR2
    case Fin(i) => people[i].submittedFinalize
  }

  /** What participant `i` remembers, and how far the chain `L` must have come. */
  ghost predicate InPhase(plan: Plan, L: Ledger, i: Identifier, p: Participant)
    requires i in plan.script.roles && HasSetup(L)
  {
    var role := plan.script.roles[i];
    && p.identifier == i
    && (!p.submittedR1 ==> !p.submittedR2)
    && (!p.submittedR2 ==> !p.submittedFinalize)
    && (p.submittedR2 ==> Round1Full(L))
    && (p.submittedFinalize ==> Round2Full(L))
    && (p.submittedR1 && !p.submittedR2 ==> p.secretR1 == Some(role.secret1))
    && (p.submittedR2 && !p.submittedFinalize ==> p.secretR2 == Some(role.secret2))
    && (p.submittedFinalize ==> p.keyPackage == Some(role.key) && p.publicKeyPackage == Some(role.pkp))
  }

  ghost predicate Waiting(plan: Plan, people: map<Identifier, Participant>, L: Ledger, tx: Tx)
    requires plan.Valid() && people.Keys == plan.Ids()
  {
    var k := SlotOf(tx);
    InPlan(plan.Ids(), k) && tx == plan.At(k) && Submitted(people, k) && k !in L
  }

  /** `L` holds only planned transactions that were submitted, and every
      participant is in phase with the chain. */
  ghost predicate OnScript(plan: Plan, people: map<Identifier, Participant>, L: Ledger) {
    && plan.Valid()
    && people.Keys == plan.Ids()
    && HasSetup(L) && L[Setup] == plan.begin
    && (forall k {:trigger L[k]} :: k in L ==> InPlan(plan.Ids(), k) && Submitted(people, k) && L[k] == plan.At(k))
    && AllInPhase(plan, people, L)
  }

  /** The pool holds only planned transactions that were submitted. */
  ghost predicate PoolPlanned(plan: Plan, people: map<Identifier, Participant>, pool: multiset<Tx>)
    requires plan.Valid() && people.Keys == plan.Ids()
  {
    forall tx :: tx in pool ==>
      InPlan(plan.Ids(), SlotOf(tx)) && tx == plan.At(SlotOf(tx)) && Submitted(people, SlotOf(tx))
  }

  /** In addition, the pool holds exactly what was submitted and is not in `L`, and
      the packages agree. */
  ghost predicate OnPlan(plan: Plan, people: map<Identifier, Participant>, pool: multiset<Tx>, L: Ledger) {
    && OnScript(plan, people, L)
    && plan.script.Agrees()
    && forall tx :: pool[tx] == if Waiting(plan, people, L, tx) then 1 else 0
  }

  ghost predicate AllInPhase(plan: Plan, people: map<Identifier, Participant>, L: Ledger)
    requires people.Keys == plan.Ids() && HasSetup(L)
  {
    forall i {:trigger InPhase(plan, L, i, people[i])} :: i in people ==> InPhase(plan, L, i, people[i])
  }

  /** Everything waiting in the pool is acceptable right now. */
  lemma WaitingIsAcceptable(plan: Plan, people: map<Identifier, Participant>, pool: multiset<Tx>, L: Ledger, tx: Tx)
    requires OnPlan(plan, people, pool, L) && Admissible(L)
    requires tx in pool
    ensures SoundSetup(tx) && Extends(L, tx)
  {
    assert pool[tx] == 1 && Waiting(plan, people, L, tx);
    ExtendsIff(L, tx);
    var k := SlotOf(tx);
    var L' := L[k := tx];
    match k
    case R1(i) =>
    case R2(i, j) =>
      assert InPhase(plan, L, i, people[i]);
      assert Round1Full(L');
    case Fin(i) => FinalizeAcceptable(plan, people, L, tx, L');
  }

  lemma FinalizeAcceptable(plan: Plan, people: map<Identifier, Participant>, L: Ledger, tx: Tx, L': Ledger)
    requires OnScript(plan, people, L) && plan.script.Agrees() && Waiting(plan, people, L, tx) && tx.DkgFinalize?
    requires L' == L[SlotOf(tx) := tx] && Keyed(L')
    ensures HasSetup(L') && Justified(L', SlotOf(tx))
  {
    assert InPhase(plan, L, tx.from, people[tx.from]);
    RoundsStayFull(L, tx);
    forall g | Fin(g) in L' ensures SlotOf(L'[Fin(g)]) == Fin(g) && SamePkp(L'[Fin(g)].pkp, tx.pkp) {
      if Fin(g) in L { assert L[Fin(g)] == plan.At(Fin(g)); }
    }
  }

  /** What arrives and is accepted keeps the ledger on the script. */
  lemma ArriveOnScript(plan: Plan, people: map<Identifier, Participant>, L: Ledger, tx: Tx)
    requires OnScript(plan, people, L) && SlotOf(tx) !in L && Waiting(plan, people, L, tx)
    ensures OnScript(plan, people, L[SlotOf(tx) := tx])
  {
    SetupKept(L, tx);
    PhasesAfterArrive(plan, people, L, tx);
    LedgerAfterArrive(plan, people, L, tx, L[SlotOf(tx) := tx]);
  }

  lemma ArriveOnPlan(plan: Plan, people: map<Identifier, Participant>, pool: multiset<Tx>, L: Ledger, tx: Tx)
    requires OnPlan(plan, people, pool, L) && Admissible(L)
    requires tx in pool && Extends(L, tx)
    ensures OnPlan(plan, people, pool - multiset{tx}, L[SlotOf(tx) := tx])
  {
    assert Waiting(plan, people, L, tx);
    PoolAfterArrive(plan, people, pool, L, tx);
    ArriveOnScript(plan, people, L, tx);
  }

  lemma LedgerAfterArrive(plan: Plan, people: map<Identifier, Participant>, L: Ledger, tx: Tx, L': Ledger)
    requires plan.Valid() && people.Keys == plan.Ids() && Waiting(plan, people, L, tx) && L' == L[SlotOf(tx) := tx]
    requires forall k {:trigger L[k]} :: k in L ==> InPlan(plan.Ids(), k) && Submitted(people, k) && L[k] == plan.At(k)
    ensures forall k {:trigger L'[k]} :: k in L' ==>
      InPlan(plan.Ids(), k) && Submitted(people, k) && L'[k] == plan.At(k)
  {
    forall k | k in L' ensures InPlan(plan.Ids(), k) && Submitted(people, k) && L'[k] == plan.At(k) {
      if k != SlotOf(tx) { assert L'[k] == L[k]; }
    }
  }

  lemma PhasesAfterArrive(plan: Plan, people: map<Identifier, Participant>, L: Ledger, tx: Tx)
    requires people.Keys == plan.Ids() && HasSetup(L) && SlotOf(tx) !in L && AllInPhase(plan, people, L)
    ensures HasSetup(L[SlotOf(tx) := tx]) && AllInPhase(plan, people, L[SlotOf(tx) := tx])
  {
    RoundsStayFull(L, tx);
    forall i | i in people ensures InPhase(plan, L[SlotOf(tx) := tx], i, people[i]) {
      assert InPhase(plan, L, i, people[i]);
    }
  }

  lemma RoundsStayFull(L: Ledger, tx: Tx)
    requires HasSetup(L) && SlotOf(tx) !in L
    ensures HasSetup(L[SlotOf(tx) := tx])
    ensures Round1Full(L) ==> Round1Full(L[SlotOf(tx) := tx])
    ensures Round2Full(L) ==> Round2Full(L[SlotOf(tx) := tx])
  {
    SetupKept(L, tx);
  }

  lemma PoolAfterArrive(plan: Plan, people: map<Identifier, Participant>, pool: multiset<Tx>, L: Ledger, tx: Tx)
    requires plan.Valid() && people.Keys == plan.Ids() && Waiting(plan, people, L, tx)
    requires forall t :: pool[t] == if Waiting(plan, people, L, t) then 1 else 0
    ensures forall t :: (pool - multiset{tx})[t] == if Waiting(plan, people, L[SlotOf(tx) := tx], t) then 1 else 0
  {
    var pool', L' := pool - multiset{tx}, L[SlotOf(tx) := tx];
    forall t ensures pool'[t] == if Waiting(plan, people, L', t) then 1 else 0 {
      assert Waiting(plan, people, L', t) <==> Waiting(plan, people, L, t) && SlotOf(t) != SlotOf(tx);
    }
  }

  // ------------------------------------------------------ reacting

  /** `plan` is what the cast's script amounts to on the chain. */
  ghost predicate Realizes(frost: Frost, cast: Cast, plan: Plan) {
    && plan.Valid() && plan.begin == Begin(frost, cast)
    && Follows(frost, cast, plan.script)
    && (forall i, j {:trigger plan.sealed[(i, j)]} :: i in plan.script.roles && j in plan.script.roles && i != j ==>
          plan.sealed[(i, j)] == SealedFor(frost, cast, plan.script, i, j))
  }

  /** The cast can play the plan, and can tell what the others send. */
  ghost predicate Playable(frost: Frost, cast: Cast, plan: Plan) {
    Realizes(frost, cast, plan) && EnvelopesOpen(frost)
  }

  /** And the packages that the participants derive agree. */
  ghost predicate Harmonious(frost: Frost, cast: Cast, plan: Plan) {
    Playable(frost, cast, plan) && plan.script.Agrees()
  }

  ghost function SealedFor(frost: Frost, cast: Cast, script: Script, i: Identifier, j: Identifier): Sealed
    requires Follows(frost, cast, script) && i in script.roles && j in script.roles && i != j
  {
    frost.seal(cast.tapes[i].seal(j), frost.publicKey(cast.secrets[j]), frost.encode(script.roles[i].sent2[j]))
  }

  /** A snapshot `S` of the chain: admissible, and only plan transactions. */
  ghost predicate Snapshot(plan: Plan, people: map<Identifier, Participant>, S: Ledger) {
    && plan.Valid() && people.Keys == plan.Ids()
    && Admissible(S) && (Setup in S ==> S[Setup] == plan.begin)
    && forall k {:trigger S[k]} :: k in S ==> InPlan(plan.Ids(), k) && Submitted(people, k) && S[k] == plan.At(k)
  }

  /** The four things an honest reaction can be. */
  ghost predicate Idle(p: Participant, r: Reaction) {
    r == Reaction(p, Ok([]))
  }

  ghost predicate SendsRound1(plan: Plan, p: Participant, r: Reaction)
    requires plan.Valid() && p.identifier in plan.Ids()
  {
    && !p.submittedR1
    && r == Reaction(p.(secretR1 := Some(plan.script.roles[p.identifier].secret1), submittedR1 := true),
                     Ok([plan.At(R1(p.identifier))]))
  }

  ghost predicate SendsRound2(plan: Plan, p: Participant, S: Ledger, r: Reaction)
    requires plan.Valid() && p.identifier in plan.Ids() && HasSetup(S)
  {
    && p.submittedR1 && !p.submittedR2 && Round1Full(S)
    && r.next == p.(secretR1 := None, secretR2 := Some(plan.script.roles[p.identifier].secret2), submittedR2 := true)
    && r.result.Ok?
    && forall tx :: multiset(r.result.value)[tx] ==
         if IsEnvelope(plan, p.identifier, plan.Ids() - {p.identifier}, tx) then 1 else 0
  }

  /** `tx` is the planned envelope from `i` to one of `to`. */
  ghost predicate IsEnvelope(plan: Plan, i: Identifier, to: set<Identifier>, tx: Tx)
    requires plan.Valid() && i in plan.Ids() && to <= plan.Ids() - {i}
  {
    tx.DkgRound2? && tx.from == i && tx.to in to && tx.sealed == plan.sealed[(i, tx.to)]
  }

  ghost predicate SendsFinalize(plan: Plan, p: Participant, S: Ledger, r: Reaction)
    requires plan.Valid() && p.identifier in plan.Ids() && HasSetup(S)
  {
    && p.submittedR2 && !p.submittedFinalize && Round2Full(S)
    && r == Reaction(p.(secretR2 := None, keyPackage := Some(plan.script.roles[p.identifier].key),
                        publicKeyPackage := Some(plan.script.roles[p.identifier].pkp), submittedFinalize := true),
                     Ok([plan.At(Fin(p.identifier))]))
  }

  lemma Round1Maps(plan: Plan, people: map<Identifier, Participant>, S: Ledger)
    requires Snapshot(plan, people, S) && Setup in S && Round1Full(S)
    ensures Round1Of(S) == plan.script.Packages1()
  {
    forall i | i in plan.Ids() ensures i in Round1Of(S) && Round1Of(S)[i] == plan.script.roles[i].package1 {
      assert R1(i) in S && S[R1(i)] == plan.At(R1(i));
    }
    forall i | i in Round1Of(S) ensures i in plan.Ids() {
      assert InPlan(plan.Ids(), R1(i)) by { assert S[R1(i)] == S[R1(i)]; }
    }
  }

  /** Sealing to `rest` emits one envelope per recipient and nothing else. */
  lemma {:induction false} EnvelopesOut(frost: Frost, c: DkgCeremony, tape: Tape, i: Identifier,
                                        sent: map<Identifier, Round2Package>, rest: set<Identifier>)
    requires rest <= sent.Keys && rest <= c.validators.Keys
    ensures var out := Envelopes(frost, c, tape, i, sent, rest);
      forall tx :: multiset(out)[tx] ==
        if tx.DkgRound2? && tx.to in rest && tx == SealOne(frost, c, tape, i, tx.to, sent[tx.to]) then 1 else 0
    decreases |rest|
  {
    if rest == {} {
    } else {
      var to := Min(rest);
      EnvelopesOut(frost, c, tape, i, sent, rest - {to});
      var first := SealOne(frost, c, tape, i, to, sent[to]);
      var tail := Envelopes(frost, c, tape, i, sent, rest - {to});
      assert multiset([first] + tail) == multiset{first} + multiset(tail);
    }
  }

  lemma Round2Reaction(frost: Frost, cast: Cast, plan: Plan, p: Participant, S: Ledger, i: Identifier)
    requires Realizes(frost, cast, plan) && i in plan.Ids()
    requires HasSetup(S) && S[Setup] == plan.begin && Round1Full(S) && Round1Of(S) == plan.script.Packages1()
    requires p.identifier == i && p.submittedR1 && !p.submittedR2 && p.secretR1 == Some(plan.script.roles[i].secret1)
    ensures SendsRound2(plan, p, S, ReactRound2(frost, p, CeremonyOf(S), cast.tapes[i]))
  {
    assert FollowsPart2(frost, plan.script, i);
    var c, tape, sent := CeremonyOf(S), cast.tapes[i], plan.script.roles[i].sent2;
    EnvelopesOut(frost, c, tape, i, sent, plan.Ids() - {i});
    forall to | to in plan.Ids() - {i}
      ensures SealOne(frost, c, tape, i, to, sent[to]) == DkgRound2(i, to, plan.sealed[(i, to)])
    {
      assert plan.sealed[(i, to)] == SealedFor(frost, cast, plan.script, i, to);
    }
    var out := Envelopes(frost, c, tape, i, sent, plan.Ids() - {i});
    forall tx ensures multiset(out)[tx] == if IsEnvelope(plan, i, plan.Ids() - {i}, tx) then 1 else 0 {}
  }

  lemma SealThenOpen(frost: Frost, coin: nat, secret: EncSecretKey, pkg: Round2Package)
    requires EnvelopesOpen(frost)
    ensures OpenOne(frost, secret, frost.seal(coin, frost.publicKey(secret), frost.encode(pkg))) == Some(pkg)
  {
  }

  lemma EnvelopeOpens(frost: Frost, cast: Cast, plan: Plan, f: Identifier, i: Identifier)
    requires Playable(frost, cast, plan)
    requires f in plan.Ids() && i in plan.Ids() && f != i
    ensures OpenOne(frost, cast.secrets[i], plan.sealed[(f, i)]) == Some(plan.script.roles[f].sent2[i])
  {
    assert plan.sealed[(f, i)] == SealedFor(frost, cast, plan.script, f, i);
    SealThenOpen(frost, cast.tapes[f].seal(i), cast.secrets[i], plan.script.roles[f].sent2[i]);
  }

  lemma InboxOpens(frost: Frost, cast: Cast, plan: Plan, i: Identifier, round2: map<(Identifier, Identifier), Sealed>)
    requires Playable(frost, cast, plan) && i in plan.Ids()
    requires forall f :: (f, i) in round2 <==> f in plan.Ids() && f != i
    requires forall f :: (f, i) in round2 ==> round2[(f, i)] == plan.sealed[(f, i)]
    ensures AllOpen(frost, cast.secrets[i], i, round2)
    ensures Received(frost, cast.secrets[i], i, round2) == plan.script.Inbox(i)
  {
    var inbox := plan.script.Inbox(i);
    forall f | (f, i) in round2 ensures OpenOne(frost, cast.secrets[i], round2[(f, i)]) == Some(inbox[f]) {
      EnvelopeOpens(frost, cast, plan, f, i);
    }
    ReceivedIs(frost, cast.secrets[i], i, round2, inbox);
  }

  lemma ReceivedIs(frost: Frost, secret: EncSecretKey, i: Identifier, round2: map<(Identifier, Identifier), Sealed>,
                   inbox: map<Identifier, Round2Package>)
    requires forall f :: (f, i) in round2 <==> f in inbox
    requires forall f :: (f, i) in round2 ==> OpenOne(frost, secret, round2[(f, i)]) == Some(inbox[f])
    ensures AllOpen(frost, secret, i, round2)
    ensures Received(frost, secret, i, round2) == inbox
  {
  }

  lemma Round2Maps(plan: Plan, people: map<Identifier, Participant>, S: Ledger, i: Identifier)
    requires Snapshot(plan, people, S) && Setup in S && Round2Full(S) && i in plan.Ids()
    ensures forall f :: (f, i) in Round2Of(S) <==> f in plan.Ids() && f != i
    ensures forall f :: (f, i) in Round2Of(S) ==> Round2Of(S)[(f, i)] == plan.sealed[(f, i)]
  {
    forall f: Identifier
      ensures (f, i) in Round2Of(S) <==> f in plan.Ids() && f != i
      ensures (f, i) in Round2Of(S) ==> Round2Of(S)[(f, i)] == plan.sealed[(f, i)]
    {
      if R2(f, i) in S {
        assert S[R2(f, i)] == plan.At(R2(f, i));
      }
    }
  }

  lemma FinalizeReaction(frost: Frost, plan: Plan, p: Participant, c: DkgCeremony)
    requires plan.Valid() && p.identifier in plan.Ids() && FollowsPart3(frost, plan.script, p.identifier)
    requires c.round1 == plan.script.Packages1() && p.identifier !in c.finalize
    requires AllOpen(frost, p.encSecret, p.identifier, c.round2)
    requires Received(frost, p.encSecret, p.identifier, c.round2) == plan.script.Inbox(p.identifier)
    requires p.secretR2 == Some(plan.script.roles[p.identifier].secret2)
    ensures ReactFinalize(frost, p, c) ==
      Reaction(p.(secretR2 := None, keyPackage := Some(plan.script.roles[p.identifier].key),
                  publicKeyPackage := Some(plan.script.roles[p.identifier].pkp), submittedFinalize := true),
               Ok([plan.At(Fin(p.identifier))]))
  {
  }

  /** Exactly what an honest participant does when shown the snapshot `S`. */
  ghost predicate ReactsBySchedule(plan: Plan, p: Participant, S: Ledger, r: Reaction)
    requires plan.Valid() && p.identifier in plan.Ids() && Keyed(S)
  {
    if Setup !in S || HasGroup(S) then Idle(p, r)
    else if !p.submittedR1 then SendsRound1(plan, p, r)
    else if !p.submittedR2 && Round1Full(S) then SendsRound2(plan, p, S, r)
    else if p.submittedR2 && !p.submittedFinalize && Round2Full(S) then SendsFinalize(plan, p, S, r)
    else Idle(p, r)
  }

  lemma HonestReaction(frost: Frost, cast: Cast, plan: Plan, people: map<Identifier, Participant>, L: Ledger, S: Ledger,
                       i: Identifier)
    requires Playable(frost, cast, plan)
    requires Snapshot(plan, people, S) && i in people && HasSetup(L)
    requires InPhase(plan, L, i, people[i]) && people[i].encSecret == cast.secrets[i]
    ensures ReactsBySchedule(plan, people[i], S, ReactCeremony(frost, people[i], View(frost, S), cast.tapes[i]))
  {
    if Setup in S && !HasGroup(S) {
      Barriers(S);
      PromotedIsFull(S);
      OwnSlots(plan, people, S, i);
      assert View(frost, S) == State(Some(CeremonyOf(S)), None, map[]);
      CeremonyReaction(frost, cast, plan, people, S, i);
    }
  }

  /** What the chain shows as `i`'s own was submitted by `i`. */
  lemma OwnSlots(plan: Plan, people: map<Identifier, Participant>, S: Ledger, i: Identifier)
    requires Snapshot(plan, people, S) && i in people
    ensures R1(i) in S ==> people[i].submittedR1
    ensures Fin(i) in S ==> people[i].submittedFinalize
  {
    if R1(i) in S { assert S[R1(i)] == plan.At(R1(i)); }
    if Fin(i) in S { assert S[Fin(i)] == plan.At(Fin(i)); }
  }

  lemma CeremonyReaction(frost: Frost, cast: Cast, plan: Plan, people: map<Identifier, Participant>, S: Ledger,
                         i: Identifier)
    requires Playable(frost, cast, plan)
    requires Snapshot(plan, people, S) && i in people && Setup in S && !HasGroup(S)
    requires people[i].identifier == i && people[i].encSecret == cast.secrets[i]
    requires people[i].submittedR1 && !people[i].submittedR2 ==>
      people[i].secretR1 == Some(plan.script.roles[i].secret1)
    requires people[i].submittedR2 && !people[i].submittedFinalize ==>
      people[i].secretR2 == Some(plan.script.roles[i].secret2)
    requires !people[i].submittedR1 ==> !people[i].submittedR2
    requires CeremonyOf(S).params.total >= 2
    requires CeremonyOf(S).R1Complete() <==> Round1Full(S)
    requires CeremonyOf(S).R2Complete() <==> Round2Full(S)
    requires Round2Full(S) ==> Round1Full(S)
    requires R1(i) in S ==> people[i].submittedR1
    requires Fin(i) in S ==> people[i].submittedFinalize
    ensures ReactsBySchedule(plan, people[i], S,
      ReactCeremony(frost, people[i], State(Some(CeremonyOf(S)), None, map[]), cast.tapes[i]))
  {
    var p, c := people[i], CeremonyOf(S);
    Dispatch(frost, p, c, cast.tapes[i]);
    if !p.submittedR1 {
      assert FollowsPart1(frost, cast, plan.script, i);
      Round1Reaction(frost, cast, plan, p, c);
    } else if !p.submittedR2 && Round1Full(S) {
      Round1Maps(plan, people, S);
      Round2Reaction(frost, cast, plan, p, S, i);
    } else if p.submittedR2 && !p.submittedFinalize && Round2Full(S) {
      FinalizeStep(frost, cast, plan, people, S, i);
    }
  }

  lemma Round1Reaction(frost: Frost, cast: Cast, plan: Plan, p: Participant, c: DkgCeremony)
    requires plan.Valid() && p.identifier in plan.Ids() && p.identifier in cast.tapes && !p.submittedR1
    requires c.params == cast.params && FollowsPart1(frost, cast, plan.script, p.identifier)
    ensures SendsRound1(plan, p, ReactRound1(frost, p, c, cast.tapes[p.identifier]))
  {
  }

  /** Which of its three stages a reaction runs. */
  lemma Dispatch(frost: Frost, p: Participant, c: DkgCeremony, tape: Tape)
    requires p.identifier in c.validators && c.params.total >= 2
    requires p.submittedR1 || (p.identifier !in c.round1 && !p.submittedR2)
    ensures ReactCeremony(frost, p, State(Some(c), None, map[]), tape) ==
      if !p.submittedR1 then ReactRound1(frost, p, c, tape)
      else if !p.submittedR2 && c.R1Complete() then ReactRound2(frost, p, c, tape)
      else if p.submittedR2 && !p.submittedFinalize && c.R1Complete() && c.R2Complete() then ReactFinalize(frost, p, c)
      else Reaction(p, Ok([]))
  {
    if p.submittedR1 {
      assert p.(submittedR1 := true) == p;
    }
  }

  lemma FinalizeStep(frost: Frost, cast: Cast, plan: Plan, people: map<Identifier, Participant>, S: Ledger,
                     i: Identifier)
    requires Playable(frost, cast, plan)
    requires Snapshot(plan, people, S) && i in people && Setup in S
    requires people[i].identifier == i && people[i].encSecret == cast.secrets[i]
    requires people[i].submittedR2 && !people[i].submittedFinalize
    requires people[i].secretR2 == Some(plan.script.roles[i].secret2)
    requires Round1Full(S) && Round2Full(S) && Fin(i) !in S
    ensures SendsFinalize(plan, people[i], S, ReactFinalize(frost, people[i], CeremonyOf(S)))
  {
    Round1Maps(plan, people, S);
    Round2Maps(plan, people, S, i);
    InboxOpens(frost, cast, plan, i, Round2Of(S));
    assert FollowsPart3(frost, plan.script, i);
    FinalizeReaction(frost, plan, people[i], CeremonyOf(S));
  }

  // ------------------------------------------------------ the invariant

  /** The slots a reaction newly submits. */
  ghost predicate Newly(before: Participant, after: Participant, k: Slot) {
    match k
    case R1(i) => i == before.identifier && !before.submittedR1 && after.submittedR1
    case R2(i, _) => i == before.identifier && !before.submittedR2 && after.submittedR2
    case Fin(i) => i == before.identifier && !before.submittedFinalize && after.submittedFinalize
    case _ => false
  }

  /** The emitted transactions are exactly the plan's for the new slots, once each. */
  lemma EmitsNewSlots(plan: Plan, p: Participant, S: Ledger, r: Reaction, tx: Tx)
    requires plan.Valid() && p.identifier in plan.Ids() && Keyed(S) && ReactsBySchedule(plan, p, S, r)
    ensures r.result.Ok?
    ensures multiset(r.result.value)[tx] ==
      if InPlan(plan.Ids(), SlotOf(tx)) && tx == plan.At(SlotOf(tx)) && Newly(p, r.next, SlotOf(tx)) then 1 else 0
  {
    if Setup in S && !HasGroup(S) {
      if !p.submittedR1 {
      } else if !p.submittedR2 && Round1Full(S) {
        assert IsEnvelope(plan, p.identifier, plan.Ids() - {p.identifier}, tx) <==>
          InPlan(plan.Ids(), SlotOf(tx)) && tx == plan.At(SlotOf(tx)) && Newly(p, r.next, SlotOf(tx));
      }
    }
  }

  lemma ReactionInPhase(plan: Plan, p: Participant, S: Ledger, L: Ledger, r: Reaction)
    requires plan.Valid() && p.identifier in plan.Ids() && Keyed(S) && HasSetup(L)
    requires ReactsBySchedule(plan, p, S, r) && InPhase(plan, L, p.identifier, p)
    requires Setup in S ==> (Round1Full(S) ==> Round1Full(L)) && (Round2Full(S) ==> Round2Full(L))
    ensures InPhase(plan, L, p.identifier, r.next)
    ensures r.next.identifier == p.identifier && r.next.encSecret == p.encSecret
    ensures p.submittedR1 ==> r.next.submittedR1
    ensures p.submittedR2 ==> r.next.submittedR2
    ensures p.submittedFinalize ==> r.next.submittedFinalize
  {
  }

  lemma ObserveOnScript(plan: Plan, people: map<Identifier, Participant>, L: Ledger, S: Ledger, i: Identifier,
                        r: Reaction)
    requires OnScript(plan, people, L) && Reacts(plan, people, L, S, i, r)
    ensures r.result.Ok? && r.next.encSecret == people[i].encSecret
    ensures OnScript(plan, people[i := r.next], L)
    ensures people[i].submittedR1 ==> r.next.submittedR1
    ensures people[i].submittedR2 ==> r.next.submittedR2
    ensures people[i].submittedFinalize ==> r.next.submittedFinalize
  {
    assert InPhase(plan, L, i, people[i]);
    ReactionInPhase(plan, people[i], S, L, r);
    EmitsNewSlots(plan, people[i], S, r, plan.begin);
    assert people[i := r.next].Keys == people.Keys;
    LedgerAfterObserve(plan, people, L, i, r.next);
    PhasesAfterObserve(plan, people, L, i, r.next);
  }

  /** What a reaction adds to the pool is planned and submitted. */
  lemma PoolStaysPlanned(plan: Plan, people: map<Identifier, Participant>, pool: multiset<Tx>, S: Ledger, i: Identifier,
                         r: Reaction)
    requires plan.Valid() && people.Keys == plan.Ids() && PoolPlanned(plan, people, pool)
    requires i in people && people[i].identifier == i && Keyed(S) && ReactsBySchedule(plan, people[i], S, r)
      && r.result.Ok?
    requires people[i].submittedR1 ==> r.next.submittedR1
    requires people[i].submittedR2 ==> r.next.submittedR2
    requires people[i].submittedFinalize ==> r.next.submittedFinalize
    ensures people[i := r.next].Keys == plan.Ids()
    ensures PoolPlanned(plan, people[i := r.next], pool + multiset(r.result.value))
  {
    var people' := people[i := r.next];
    assert people'.Keys == plan.Ids();
    forall tx | tx in pool + multiset(r.result.value)
      ensures InPlan(plan.Ids(), SlotOf(tx)) && tx == plan.At(SlotOf(tx)) && Submitted(people', SlotOf(tx))
    {
      EmitsNewSlots(plan, people[i], S, r, tx);
      if tx in pool {
        assert Submitted(people, SlotOf(tx));
      }
    }
  }

  lemma ObserveOnPlan(plan: Plan, people: map<Identifier, Participant>, pool: multiset<Tx>, L: Ledger, S: Ledger,
                      i: Identifier, r: Reaction)
    requires OnPlan(plan, people, pool, L) && Reacts(plan, people, L, S, i, r)
    ensures r.result.Ok?
    ensures OnPlan(plan, people[i := r.next], pool + multiset(r.result.value), L)
    ensures r.next.encSecret == people[i].encSecret
  {
    ObserveOnScript(plan, people, L, S, i, r);
    PoolAfterObserve(plan, people, pool, L, S, i, r);
  }

  lemma PhasesAfterObserve(plan: Plan, people: map<Identifier, Participant>, L: Ledger, i: Identifier,
                           next: Participant)
    requires people.Keys == plan.Ids() && HasSetup(L) && AllInPhase(plan, people, L)
    requires i in people && InPhase(plan, L, i, next)
    ensures people[i := next].Keys == plan.Ids() && AllInPhase(plan, people[i := next], L)
  {
    var people' := people[i := next];
    forall j | j in people' ensures InPhase(plan, L, j, people'[j]) {
      if j != i { assert InPhase(plan, L, j, people[j]); }
    }
  }

  lemma PoolAfterObserve(plan: Plan, people: map<Identifier, Participant>, pool: multiset<Tx>, L: Ledger, S: Ledger,
                         i: Identifier, r: Reaction)
    requires plan.Valid() && people.Keys == plan.Ids() && i in people && people[i].identifier == i
    requires forall k {:trigger L[k]} :: k in L ==> InPlan(plan.Ids(), k) && Submitted(people, k)
    requires forall tx :: pool[tx] == if Waiting(plan, people, L, tx) then 1 else 0
    requires Keyed(S) && ReactsBySchedule(plan, people[i], S, r) && r.result.Ok?
    requires people[i].submittedR1 ==> r.next.submittedR1
    requires people[i].submittedR2 ==> r.next.submittedR2
    requires people[i].submittedFinalize ==> r.next.submittedFinalize
    ensures people[i := r.next].Keys == plan.Ids()
    ensures forall tx ::
      (pool + multiset(r.result.value))[tx] == if Waiting(plan, people[i := r.next], L, tx) then 1 else 0
  {
    assert people[i := r.next].Keys == plan.Ids();
    forall tx
      ensures (pool + multiset(r.result.value))[tx] == if Waiting(plan, people[i := r.next], L, tx) then 1 else 0
    {
      EmitsNewSlots(plan, people[i], S, r, tx);
      PoolUpdate(plan, people, L, i, r.next, tx);
    }
  }

  lemma LedgerAfterObserve(plan: Plan, people: map<Identifier, Participant>, L: Ledger, i: Identifier,
                           next: Participant)
    requires plan.Valid() && people.Keys == plan.Ids() && i in people && people[i].identifier == i
    requires forall k {:trigger L[k]} :: k in L ==> InPlan(plan.Ids(), k) && Submitted(people, k) && L[k] == plan.At(k)
    requires people[i].submittedR1 ==> next.submittedR1
    requires people[i].submittedR2 ==> next.submittedR2
    requires people[i].submittedFinalize ==> next.submittedFinalize
    ensures people[i := next].Keys == plan.Ids()
    ensures forall k {:trigger L[k]} :: k in L ==>
      InPlan(plan.Ids(), k) && Submitted(people[i := next], k) && L[k] == plan.At(k)
  {
    assert people[i := next].Keys == plan.Ids();
    forall k | k in L ensures InPlan(plan.Ids(), k) && Submitted(people[i := next], k) && L[k] == plan.At(k) {
      assert L[k] == plan.At(k);
    }
  }

  /** A slot becomes waiting exactly when it is newly submitted. */
  lemma PoolUpdate(plan: Plan, people: map<Identifier, Participant>, L: Ledger, i: Identifier, next: Participant,
                   tx: Tx)
    requires plan.Valid() && people.Keys == plan.Ids() && i in people
    requires forall k {:trigger L[k]} :: k in L ==> InPlan(plan.Ids(), k) && Submitted(people, k)
    requires people[i].identifier == i
    requires people[i].submittedR1 ==> next.submittedR1
    requires people[i].submittedR2 ==> next.submittedR2
    requires people[i].submittedFinalize ==> next.submittedFinalize
    ensures var planned := InPlan(plan.Ids(), SlotOf(tx)) && tx == plan.At(SlotOf(tx));
      var fresh' := planned && Newly(people[i], next, SlotOf(tx));
      && people[i := next].Keys == plan.Ids()
      && !(fresh' && Waiting(plan, people, L, tx))
      && (Waiting(plan, people[i := next], L, tx) <==> Waiting(plan, people, L, tx) || fresh')
  {
    var k := SlotOf(tx);
    assert people[i := next].Keys == plan.Ids();
    if InPlan(plan.Ids(), k) {
      SubmittedNext(people, i, next, k);
      if k in L {
        assert L[k] == L[k];
      }
    }
  }

  lemma SubmittedNext(people: map<Identifier, Participant>, i: Identifier, next: Participant, k: Slot)
    requires i in people && people[i].identifier == i && InPlan(people.Keys, k)
    requires people[i].submittedR1 ==> next.submittedR1
    requires people[i].submittedR2 ==> next.submittedR2
    requires people[i].submittedFinalize ==> next.submittedFinalize
    ensures people[i := next].Keys == people.Keys
    ensures Submitted(people[i := next], k) <==> Submitted(people, k) || Newly(people[i], next, k)
    ensures !(Submitted(people, k) && Newly(people[i], next, k))
  {
    assert people[i := next].Keys == people.Keys;
  }

  /** What holds in every run, whether or not the derived packages agree. */
  ghost predicate Faithful(frost: Frost, cast: Cast, plan: Plan, w: World) {
    && SoundRun(frost, w.log)
    && OnScript(plan, w.people, LedgerOf(frost, w.log))
    && PoolPlanned(plan, w.people, w.pool)
    && SameSecrets(cast, w.people)
  }

  ghost predicate SameSecrets(cast: Cast, people: map<Identifier, Participant>) {
    forall i :: i in people ==> i in cast.secrets && people[i].encSecret == cast.secrets[i]
  }

  /** The invariant of every run whose packages agree. */
  ghost predicate Honest(frost: Frost, cast: Cast, plan: Plan, w: World) {
    && SoundRun(frost, w.log) && FullyAccepted(frost, w.log)
    && OnPlan(plan, w.people, w.pool, LedgerOf(frost, w.log))
    && SameSecrets(cast, w.people)
  }

  lemma HonestIsFaithful(frost: Frost, cast: Cast, plan: Plan, w: World)
    requires Honest(frost, cast, plan, w)
    ensures Faithful(frost, cast, plan, w)
  {
    forall tx | tx in w.pool
      ensures InPlan(plan.Ids(), SlotOf(tx)) && tx == plan.At(SlotOf(tx)) && Submitted(w.people, SlotOf(tx))
    {
      assert w.pool[tx] == if Waiting(plan, w.people, LedgerOf(frost, w.log), tx) then 1 else 0;
    }
  }

  lemma PrefixLedger(frost: Frost, log: seq<Tx>, at: nat)
    requires SoundRun(frost, log) && at <= |log|
    ensures Admissible(LedgerOf(frost, log[..at]))
    ensures Deliver(frost, GENESIS, log[..at]) == View(frost, LedgerOf(frost, log[..at]))
    ensures forall k :: k in LedgerOf(frost, log[..at]) ==>
      k in LedgerOf(frost, log) && LedgerOf(frost, log)[k] == LedgerOf(frost, log[..at])[k]
  {
    assert log == log[..at] + log[at..];
    LedgerGrows(frost, log[..at], log[at..]);
    RunIsView(frost, log[..at]);
  }

  lemma ShownSnapshot(frost: Frost, cast: Cast, plan: Plan, w: World, at: nat)
    requires Faithful(frost, cast, plan, w) && at <= |w.log|
    ensures Snapshot(plan, w.people, LedgerOf(frost, w.log[..at]))
    ensures StateAt(frost, w, at) == View(frost, LedgerOf(frost, w.log[..at]))
    ensures var S, L := LedgerOf(frost, w.log[..at]), LedgerOf(frost, w.log);
      && HasSetup(L)
      && (Setup in S ==> (Round1Full(S) ==> Round1Full(L)) && (Round2Full(S) ==> Round2Full(L)))
  {
    PrefixLedger(frost, w.log, at);
    var S, L := LedgerOf(frost, w.log[..at]), LedgerOf(frost, w.log);
    forall k | k in S ensures InPlan(plan.Ids(), k) && Submitted(w.people, k) && S[k] == plan.At(k) {
      assert L[k] == plan.At(k);
    }
    if Setup in S {
      assert S[Setup] == L[Setup];
    }
  }

  lemma ScheduledReaction(frost: Frost, cast: Cast, plan: Plan, w: World, i: Identifier, at: nat)
    requires Playable(frost, cast, plan) && Faithful(frost, cast, plan, w)
    requires i in w.people && at <= |w.log|
    ensures i in cast.tapes && w.people[i].identifier == i && Keyed(LedgerOf(frost, w.log[..at]))
    ensures ReactsBySchedule(plan, w.people[i], LedgerOf(frost, w.log[..at]), ReactAt(frost, cast, w, i, at))
  {
    ShownSnapshot(frost, cast, plan, w, at);
    assert InPhase(plan, LedgerOf(frost, w.log), i, w.people[i]);
    HonestReaction(frost, cast, plan, w.people, LedgerOf(frost, w.log), LedgerOf(frost, w.log[..at]), i);
  }

  /** The reaction of `i`, shown the snapshot `S` of a chain that has come to `L`. */
  ghost predicate Reacts(plan: Plan, people: map<Identifier, Participant>, L: Ledger, S: Ledger, i: Identifier,
                         r: Reaction) {
    && plan.Valid() && i in plan.Ids() && i in people && people[i].identifier == i
    && Keyed(S) && ReactsBySchedule(plan, people[i], S, r) && HasSetup(L)
    && (Setup in S ==> (Round1Full(S) ==> Round1Full(L)) && (Round2Full(S) ==> Round2Full(L)))
  }

  lemma Scheduled(frost: Frost, cast: Cast, plan: Plan, w: World, i: Identifier, at: nat)
    requires Playable(frost, cast, plan) && Faithful(frost, cast, plan, w)
    requires i in w.people && at <= |w.log|
    ensures i in cast.tapes
    ensures Reacts(plan, w.people, LedgerOf(frost, w.log), LedgerOf(frost, w.log[..at]), i,
      ReactAt(frost, cast, w, i, at))
  {
    ScheduledReaction(frost, cast, plan, w, i, at);
    ShownSnapshot(frost, cast, plan, w, at);
  }

  // -- whatever the packages

  lemma ObserveKeepsFaithful(frost: Frost, cast: Cast, plan: Plan, w: World, i: Identifier, at: nat)
    requires Playable(frost, cast, plan) && Faithful(frost, cast, plan, w)
    requires i in w.people && at <= |w.log|
    ensures Faithful(frost, cast, plan, Exec(frost, cast, w, Observe(i, at)))
  {
    Scheduled(frost, cast, plan, w, i, at);
    var r, L, S := ReactAt(frost, cast, w, i, at), LedgerOf(frost, w.log), LedgerOf(frost, w.log[..at]);
    ObserveOnScript(plan, w.people, L, S, i, r);
    PoolStaysPlanned(plan, w.people, w.pool, S, i, r);
    StillFaithful(frost, cast, plan, w, Exec(frost, cast, w, Observe(i, at)), i, r);
  }

  lemma StillFaithful(frost: Frost, cast: Cast, plan: Plan, w: World, w': World, i: Identifier, r: Reaction)
    requires Faithful(frost, cast, plan, w) && i in w.people && r.next.encSecret == w.people[i].encSecret
      && r.result.Ok?
    requires w' == w.(people := w.people[i := r.next], pool := w.pool + multiset(r.result.value))
    requires OnScript(plan, w'.people, LedgerOf(frost, w.log)) && PoolPlanned(plan, w'.people, w'.pool)
    ensures Faithful(frost, cast, plan, w')
  {
  }

  lemma ArriveKeepsFaithful(frost: Frost, cast: Cast, plan: Plan, w: World, tx: Tx)
    requires Faithful(frost, cast, plan, w) && tx in w.pool
    ensures Faithful(frost, cast, plan, Exec(frost, cast, w, Arrive(tx)))
  {
    var log := w.log + [tx];
    assert log[..|log| - 1] == w.log;
    PlannedIsSound(plan, tx);
    NextPlanned(frost, w.log, tx);
    if Extends(LedgerOf(frost, w.log), tx) {
      ArriveOnScript(plan, w.people, LedgerOf(frost, w.log), tx);
    }
    PoolShrinks(plan, w.people, w.pool, tx);
  }

  lemma PlannedIsSound(plan: Plan, tx: Tx)
    requires plan.Valid() && InPlan(plan.Ids(), SlotOf(tx)) && tx == plan.At(SlotOf(tx))
    ensures SoundSetup(tx)
  {
  }

  lemma NextPlanned(frost: Frost, log: seq<Tx>, tx: Tx)
    requires SoundRun(frost, log) && SoundSetup(tx)
    ensures SoundRun(frost, log + [tx])
    ensures LedgerOf(frost, log + [tx]) ==
      if Extends(LedgerOf(frost, log), tx) then LedgerOf(frost, log)[SlotOf(tx) := tx] else LedgerOf(frost, log)
  {
    assert (log + [tx])[..|log + [tx]| - 1] == log;
    AcceptedIffExtends(frost, log, tx);
  }

  lemma PoolShrinks(plan: Plan, people: map<Identifier, Participant>, pool: multiset<Tx>, tx: Tx)
    requires plan.Valid() && people.Keys == plan.Ids() && PoolPlanned(plan, people, pool)
    ensures PoolPlanned(plan, people, pool - multiset{tx})
  {
    forall t | t in pool - multiset{tx} ensures t in pool {}
  }

  lemma StartIsFaithful(frost: Frost, cast: Cast, plan: Plan)
    requires Realizes(frost, cast, plan)
    ensures Faithful(frost, cast, plan, Start(frost, cast))
    ensures LedgerOf(frost, Start(frost, cast).log) == map[Setup := plan.begin]
    ensures FullyAccepted(frost, Start(frost, cast).log)
  {
    var begin := Begin(frost, cast);
    var L := map[Setup := begin];
    assert Justified(L, Setup);
    assert map[][Setup := begin] == L;
    DeliverOne(frost, [], begin);
    assert [] + [begin] == [begin];
    StartOnScript(cast, plan, Start(frost, cast).people, L);
  }

  lemma StartOnScript(cast: Cast, plan: Plan, people: map<Identifier, Participant>, L: Ledger)
    requires plan.Valid() && plan.Ids() == cast.secrets.Keys && L == map[Setup := plan.begin]
    requires people == map i | i in cast.secrets :: NewParticipant(i, cast.secrets[i])
    ensures OnScript(plan, people, L) && PoolPlanned(plan, people, multiset{})
    ensures forall tx :: !Waiting(plan, people, L, tx)
  {
    assert people.Keys == plan.Ids();
    forall tx: Tx ensures !Waiting(plan, people, L, tx) {}
  }

  lemma {:induction false} AlwaysFaithful(frost: Frost, cast: Cast, plan: Plan, events: seq<Event>)
    requires Playable(frost, cast, plan)
    ensures Faithful(frost, cast, plan, Run(frost, cast, events))
  {
    if events == [] {
      StartIsFaithful(frost, cast, plan);
    } else {
      var w, e := Run(frost, cast, events[..|events| - 1]), events[|events| - 1];
      AlwaysFaithful(frost, cast, plan, events[..|events| - 1]);
      match e
      case Observe(i, at) =>
        if i in w.people && i in cast.tapes && at <= |w.log| { ObserveKeepsFaithful(frost, cast, plan, w, i, at); }
      case Arrive(tx) =>
        if tx in w.pool { ArriveKeepsFaithful(frost, cast, plan, w, tx); }
    }
  }

  // -- with agreeing packages

  lemma ObserveKeepsHonest(frost: Frost, cast: Cast, plan: Plan, w: World, i: Identifier, at: nat)
    requires Playable(frost, cast, plan) && Honest(frost, cast, plan, w)
    requires i in w.people && at <= |w.log|
    ensures i in cast.tapes && ReactAt(frost, cast, w, i, at).result.Ok?
    ensures Honest(frost, cast, plan, Exec(frost, cast, w, Observe(i, at)))
  {
    HonestIsFaithful(frost, cast, plan, w);
    Scheduled(frost, cast, plan, w, i, at);
    var r, L, S := ReactAt(frost, cast, w, i, at), LedgerOf(frost, w.log), LedgerOf(frost, w.log[..at]);
    ObserveOnPlan(plan, w.people, w.pool, L, S, i, r);
    StillHonest(frost, cast, plan, w, Exec(frost, cast, w, Observe(i, at)), i, r);
  }

  lemma StillHonest(frost: Frost, cast: Cast, plan: Plan, w: World, w': World, i: Identifier, r: Reaction)
    requires Honest(frost, cast, plan, w) && i in w.people && r.next.encSecret == w.people[i].encSecret && r.result.Ok?
    requires w' == w.(people := w.people[i := r.next], pool := w.pool + multiset(r.result.value))
    requires OnPlan(plan, w'.people, w'.pool, LedgerOf(frost, w.log))
    ensures Honest(frost, cast, plan, w')
  {
  }

  lemma ArriveKeepsHonest(frost: Frost, cast: Cast, plan: Plan, w: World, tx: Tx)
    requires Honest(frost, cast, plan, w) && tx in w.pool
    ensures ApplyTx(frost, Current(frost, w), tx).Accepted?
    ensures Honest(frost, cast, plan, Exec(frost, cast, w, Arrive(tx)))
  {
    var L := LedgerOf(frost, w.log);
    RunIsView(frost, w.log);
    WaitingIsAcceptable(plan, w.people, w.pool, L, tx);
    ArriveOnPlan(plan, w.people, w.pool, L, tx);
    DeliverOne(frost, w.log, tx);
  }

  lemma StartIsHonest(frost: Frost, cast: Cast, plan: Plan)
    requires Harmonious(frost, cast, plan)
    ensures Honest(frost, cast, plan, Start(frost, cast))
  {
    StartIsFaithful(frost, cast, plan);
    StartOnScript(cast, plan, Start(frost, cast).people, map[Setup := plan.begin]);
  }

  lemma {:induction false} AlwaysHonest(frost: Frost, cast: Cast, plan: Plan, events: seq<Event>)
    requires Harmonious(frost, cast, plan)
    ensures Honest(frost, cast, plan, Run(frost, cast, events))
  {
    if events == [] {
      StartIsHonest(frost, cast, plan);
    } else {
      var w, e := Run(frost, cast, events[..|events| - 1]), events[|events| - 1];
      AlwaysHonest(frost, cast, plan, events[..|events| - 1]);
      match e
      case Observe(i, at) =>
        if i in w.people && i in cast.tapes && at <= |w.log| { ObserveKeepsHonest(frost, cast, plan, w, i, at); }
      case Arrive(tx) =>
        if tx in w.pool { ArriveKeepsHonest(frost, cast, plan, w, tx); }
    }
  }

  // ------------------------------------------------------ what every run guarantees

  /** Nothing an honest participant emits is ever rejected, no reaction to any
      state it may be shown fails, and nothing already delivered was rejected. */
  lemma NothingIsRejected(frost: Frost, cast: Cast, plan: Plan, events: seq<Event>)
    requires Harmonious(frost, cast, plan)
    ensures var w := Run(frost, cast, events);
      && Kept(frost, GENESIS, w.log) == w.log
      && (forall tx :: tx in w.pool ==> ApplyTx(frost, Current(frost, w), tx).Accepted?)
      && (forall i, at :: i in w.people && 0 <= at <= |w.log| ==>
            i in cast.tapes && ReactAt(frost, cast, w, i, at).result.Ok?)
  {
    var w := Run(frost, cast, events);
    AlwaysHonest(frost, cast, plan, events);
    forall tx | tx in w.pool ensures ApplyTx(frost, Current(frost, w), tx).Accepted? {
      ArriveKeepsHonest(frost, cast, plan, w, tx);
    }
    forall i, at | i in w.people && 0 <= at <= |w.log|
      ensures i in cast.tapes && ReactAt(frost, cast, w, i, at).result.Ok?
    {
      ObserveKeepsHonest(frost, cast, plan, w, i, at);
    }
  }

  /** The ceremony never deadlocks: a world that no event changes is promoted. */
  lemma NoDeadlock(frost: Frost, cast: Cast, plan: Plan, events: seq<Event>)
    requires Harmonious(frost, cast, plan)
    requires forall e :: Exec(frost, cast, Run(frost, cast, events), e) == Run(frost, cast, events)
    ensures Current(frost, Run(frost, cast, events)).group.Some?
  {
    var w := Run(frost, cast, events);
    AlwaysHonest(frost, cast, plan, events);
    StuckPool(frost, cast, w);
    RunIsView(frost, w.log);
    var L := LedgerOf(frost, w.log);
    forall i | i in w.people ensures Idles(plan, i, w.people[i], L) {
      StuckParticipant(frost, cast, plan, w, i);
    }
    StuckIsFull(plan, w.people, L);
  }

  /** Shown `L`, participant `i` does nothing. */
  ghost predicate Idles(plan: Plan, i: Identifier, p: Participant, L: Ledger) {
    && plan.Valid() && i in plan.Ids() && p.identifier == i && Keyed(L)
    && ReactsBySchedule(plan, p, L, Reaction(p, Ok([])))
  }

  lemma StuckPool(frost: Frost, cast: Cast, w: World)
    requires forall e :: Exec(frost, cast, w, e) == w
    ensures w.pool == multiset{}
  {
    forall tx: Tx ensures tx !in w.pool {
      assert |Exec(frost, cast, w, Arrive(tx)).log| == |w.log|;
    }
  }

  lemma StuckParticipant(frost: Frost, cast: Cast, plan: Plan, w: World, i: Identifier)
    requires Playable(frost, cast, plan) && Honest(frost, cast, plan, w)
    requires Exec(frost, cast, w, Observe(i, |w.log|)) == w
    requires i in w.people && w.pool == multiset{}
    ensures Idles(plan, i, w.people[i], LedgerOf(frost, w.log))
  {
    ObserveKeepsHonest(frost, cast, plan, w, i, |w.log|);
    NothingChanged(w, i, ReactAt(frost, cast, w, i, |w.log|));
    IdleBySchedule(frost, cast, plan, w, i);
  }

  lemma IdleBySchedule(frost: Frost, cast: Cast, plan: Plan, w: World, i: Identifier)
    requires Playable(frost, cast, plan) && Honest(frost, cast, plan, w)
    requires i in w.people && i in cast.tapes
    requires ReactAt(frost, cast, w, i, |w.log|) == Reaction(w.people[i], Ok([]))
    ensures Idles(plan, i, w.people[i], LedgerOf(frost, w.log))
  {
    assert w.log[..|w.log|] == w.log;
    HonestIsFaithful(frost, cast, plan, w);
    ScheduledReaction(frost, cast, plan, w, i, |w.log|);
  }

  lemma NothingChanged(w: World, i: Identifier, r: Reaction)
    requires i in w.people && r.result.Ok? && w.pool == multiset{}
    requires w == w.(people := w.people[i := r.next], pool := w.pool + multiset(r.result.value))
    ensures r == Reaction(w.people[i], Ok([]))
  {
    assert r.next == w.people[i] by { assert w.people[i := r.next][i] == r.next; }
    assert multiset(r.result.value) == multiset{} by {
      assert w.pool + multiset(r.result.value) == w.pool;
    }
    assert |r.result.value| == |multiset(r.result.value)|;
  }

  /** With an empty pool and nobody left to act, all three rounds are full. */
  lemma StuckIsFull(plan: Plan, people: map<Identifier, Participant>, L: Ledger)
    requires OnPlan(plan, people, multiset{}, L) && AllIdle(plan, people, L)
    ensures HasGroup(L)
  {
    if !HasGroup(L) {
      StuckRound1(plan, people, L);
      StuckRound2(plan, people, L);
      forall i | i in people ensures Fin(i) in L {
        assert Idles(plan, i, people[i], L);
        StuckFinalized(plan, people, L, i);
      }
    }
  }

  /** Nobody has anything to do. */
  ghost predicate AllIdle(plan: Plan, people: map<Identifier, Participant>, L: Ledger) {
    forall i {:trigger Idles(plan, i, people[i], L)} :: i in people ==> Idles(plan, i, people[i], L)
  }

  lemma StuckRound1(plan: Plan, people: map<Identifier, Participant>, L: Ledger)
    requires OnPlan(plan, people, multiset{}, L) && AllIdle(plan, people, L) && !HasGroup(L)
    ensures Round1Full(L) && forall i :: i in people ==> people[i].submittedR1
  {
    forall i | i in people ensures people[i].submittedR1 && R1(i) in L {
      assert Idles(plan, i, people[i], L);
      assert !Waiting(plan, people, L, plan.At(R1(i)));
    }
  }

  lemma StuckRound2(plan: Plan, people: map<Identifier, Participant>, L: Ledger)
    requires OnPlan(plan, people, multiset{}, L) && AllIdle(plan, people, L) && !HasGroup(L)
    requires Round1Full(L) && forall i :: i in people ==> people[i].submittedR1
    ensures Round2Full(L) && forall i :: i in people ==> people[i].submittedR2
  {
    forall i | i in people ensures people[i].submittedR2 {
      assert Idles(plan, i, people[i], L) && InPhase(plan, L, i, people[i]);
    }
    forall i, j | i in people && j in people && i != j ensures R2(i, j) in L {
      assert !Waiting(plan, people, L, plan.At(R2(i, j)));
    }
  }

  lemma StuckFinalized(plan: Plan, people: map<Identifier, Participant>, L: Ledger, i: Identifier)
    requires OnPlan(plan, people, multiset{}, L) && i in people && Idles(plan, i, people[i], L) && !HasGroup(L)
    requires people[i].submittedR2 && Round2Full(L)
    ensures Fin(i) in L
  {
    assert InPhase(plan, L, i, people[i]);
    assert !Waiting(plan, people, L, plan.At(Fin(i)));
  }

  /** Everyone has completed its role, all packages agree, and the group's is the
      smallest identifier's. */
  ghost predicate Agreed(cast: Cast, plan: Plan, people: map<Identifier, Participant>, s: State) {
    var roles := plan.script.roles;
    && roles.Keys != {} && people.Keys == cast.secrets.Keys == roles.Keys
    && s.group == Some(GroupConfig(cast.params, roles[Min(roles.Keys)].pkp, roles.Keys))
    && plan.script.Agrees()
    && forall i :: i in people ==>
      && people[i].keyPackage == Some(roles[i].key)
      && people[i].publicKeyPackage == Some(roles[i].pkp)
      && roles[i].pkp.verifyingKey == s.group.value.pkp.verifyingKey
      && roles[i].pkp.verifyingShares == s.group.value.pkp.verifyingShares
  }

  /** Promotion proves agreement: then every local package equals the group's in
      all that is compared, and everyone holds the key package of its role. */
  lemma PromotionAgrees(frost: Frost, cast: Cast, plan: Plan, events: seq<Event>)
    requires Playable(frost, cast, plan)
    requires Current(frost, Run(frost, cast, events)).group.Some?
    ensures Agreed(cast, plan, Run(frost, cast, events).people, Current(frost, Run(frost, cast, events)))
  {
    var w := Run(frost, cast, events);
    AlwaysFaithful(frost, cast, plan, events);
    RunIsView(frost, w.log);
    PromotedAgree(frost, cast, plan, w.people, LedgerOf(frost, w.log), Current(frost, w));
  }

  lemma PromotedAgree(frost: Frost, cast: Cast, plan: Plan, people: map<Identifier, Participant>, L: Ledger, s: State)
    requires Realizes(frost, cast, plan) && OnScript(plan, people, L)
    requires Admissible(L) && s == View(frost, L) && s.group.Some?
    ensures Agreed(cast, plan, people, s)
  {
    PromotedPlan(plan, people, L);
    assert PublicKeys(frost, cast).Keys == cast.secrets.Keys;
  }

  lemma PromotedPlan(plan: Plan, people: map<Identifier, Participant>, L: Ledger)
    requires OnScript(plan, people, L) && Admissible(L) && HasGroup(L)
    ensures plan.Ids() != {} && plan.script.Agrees()
    ensures GroupOf(L) == GroupConfig(plan.begin.params, plan.script.roles[Min(plan.Ids())].pkp, plan.Ids())
    ensures forall i :: i in people ==>
      && people[i].keyPackage == Some(plan.script.roles[i].key)
      && people[i].publicKeyPackage == Some(plan.script.roles[i].pkp)
  {
    PromotedPackage(plan, people, L);
    forall i | i in people
      ensures people[i].keyPackage == Some(plan.script.roles[i].key)
      ensures people[i].publicKeyPackage == Some(plan.script.roles[i].pkp)
    {
      assert L[Fin(i)] == plan.At(Fin(i));
      assert InPhase(plan, L, i, people[i]);
    }
    forall i, j | i in plan.Ids() && j in plan.Ids()
      ensures plan.script.roles[i].pkp.verifyingKey == plan.script.roles[j].pkp.verifyingKey
      ensures plan.script.roles[i].pkp.verifyingShares == plan.script.roles[j].pkp.verifyingShares
    {
      FinalizedAgree(plan, people, L, i, j);
    }
  }

  lemma PromotedPackage(plan: Plan, people: map<Identifier, Participant>, L: Ledger)
    requires OnScript(plan, people, L) && Admissible(L) && HasGroup(L)
    ensures plan.Ids() != {}
    ensures GroupOf(L) == GroupConfig(plan.begin.params, plan.script.roles[Min(plan.Ids())].pkp, plan.Ids())
  {
    var g := DkgGroup(L);
    var m := Min(Members(L));
    assert L[Fin(m)] == plan.At(Fin(m));
  }

  lemma FinalizedAgree(plan: Plan, people: map<Identifier, Participant>, L: Ledger, i: Identifier, j: Identifier)
    requires OnScript(plan, people, L) && Admissible(L) && Fin(i) in L && Fin(j) in L
    ensures i in plan.Ids() && j in plan.Ids()
    ensures plan.script.roles[i].pkp.verifyingKey == plan.script.roles[j].pkp.verifyingKey
    ensures plan.script.roles[i].pkp.verifyingShares == plan.script.roles[j].pkp.verifyingShares
  {
    assert L[Fin(i)] == plan.At(Fin(i)) && L[Fin(j)] == plan.At(Fin(j));
    assert Justified(L, Fin(j));
  }

  // ------------------------------------------------------ how long it can take

  datatype Round = First | Second | Last

  predicate Entered(p: Participant, round: Round) {
    match round
    case First => p.submittedR1
    case Second => p.submittedR2
    case Last => p.submittedFinalize
  }

  ghost function In(people: map<Identifier, Participant>, round: Round): set<Identifier> {
    set i | i in people && Entered(people[i], round)
  }

  /** Deliveries made plus rounds entered, over all participants. */
  ghost function Done(w: World): nat {
    |w.log| + |In(w.people, First)| + |In(w.people, Second)| + |In(w.people, Last)|
  }

  /** The events that changed something. */
  ghost function Effective(frost: Frost, cast: Cast, events: seq<Event>): nat {
    if events == [] then 0
    else
      var front := events[..|events| - 1];
      Effective(frost, cast, front) + if Run(frost, cast, events) == Run(frost, cast, front) then 0 else 1
  }

  lemma FlagStep(people: map<Identifier, Participant>, i: Identifier, next: Participant, round: Round)
    requires i in people
    requires Entered(people[i], round) ==> Entered(next, round)
    ensures |In(people[i := next], round)| ==
      |In(people, round)| + if Entered(next, round) && !Entered(people[i], round) then 1 else 0
  {
    assert In(people[i := next], round) == if Entered(next, round) then In(people, round) + {i} else In(people, round);
    if Entered(people[i], round) {
      assert In(people, round) + {i} == In(people, round);
    }
  }

  /** Every effective event makes one unit of progress. */
  lemma EventProgress(frost: Frost, cast: Cast, plan: Plan, w: World, e: Event)
    requires Playable(frost, cast, plan) && Honest(frost, cast, plan, w)
    ensures Done(Exec(frost, cast, w, e)) == Done(w) + if Exec(frost, cast, w, e) == w then 0 else 1
  {
    match e
    case Arrive(tx) =>
    case Observe(i, at) =>
      if i in w.people && i in cast.tapes && at <= |w.log| {
        ObserveProgress(frost, cast, plan, w, i, at);
      }
  }

  lemma ObserveProgress(frost: Frost, cast: Cast, plan: Plan, w: World, i: Identifier, at: nat)
    requires Playable(frost, cast, plan) && Honest(frost, cast, plan, w)
    requires i in w.people && i in cast.tapes && at <= |w.log|
    ensures var w' := Exec(frost, cast, w, Observe(i, at)); Done(w') == Done(w) + if w' == w then 0 else 1
  {
    HonestIsFaithful(frost, cast, plan, w);
    ScheduledReaction(frost, cast, plan, w, i, at);
    var p, S, r := w.people[i], LedgerOf(frost, w.log[..at]), ReactAt(frost, cast, w, i, at);
    OneFlag(plan, p, S, r);
    FlagStep(w.people, i, r.next, First);
    FlagStep(w.people, i, r.next, Second);
    FlagStep(w.people, i, r.next, Last);
    ReactionChanges(w, i, r);
  }

  lemma ReactionChanges(w: World, i: Identifier, r: Reaction)
    requires i in w.people && r.result.Ok?
    requires r.next == w.people[i] ==> r.result.value == []
    ensures w.(people := w.people[i := r.next], pool := w.pool + multiset(r.result.value)) == w <==>
      r.next == w.people[i]
  {
    if r.next == w.people[i] {
      assert w.people[i := r.next] == w.people && w.pool + multiset([]) == w.pool;
    } else {
      assert w.people[i := r.next][i] != w.people[i];
    }
  }

  lemma OneFlag(plan: Plan, p: Participant, S: Ledger, r: Reaction)
    requires plan.Valid() && p.identifier in plan.Ids() && Keyed(S) && ReactsBySchedule(plan, p, S, r)
    ensures p.submittedR1 ==> r.next.submittedR1
    ensures p.submittedR2 ==> r.next.submittedR2
    ensures p.submittedFinalize ==> r.next.submittedFinalize
    ensures r.result.Ok? && (Idle(p, r) <==> r.next == p)
    ensures (if r.next.submittedR1 && !p.submittedR1 then 1 else 0)
          + (if r.next.submittedR2 && !p.submittedR2 then 1 else 0)
          + (if r.next.submittedFinalize && !p.submittedFinalize then 1 else 0) == if Idle(p, r) then 0 else 1
  {
  }

  lemma {:induction false} ProgressCounts(frost: Frost, cast: Cast, plan: Plan, events: seq<Event>)
    requires Harmonious(frost, cast, plan)
    ensures Done(Run(frost, cast, events)) == 1 + Effective(frost, cast, events)
  {
    if events == [] {
      var people := Start(frost, cast).people;
      assert In(people, First) == {} && In(people, Second) == {} && In(people, Last) == {};
    } else {
      var front := events[..|events| - 1];
      ProgressCounts(frost, cast, plan, front);
      AlwaysHonest(frost, cast, plan, front);
      EventProgress(frost, cast, plan, Run(frost, cast, front), events[|events| - 1]);
    }
  }

  /** Termination: no run has more than n^2 + 4n effective events, and a promoted
      log has exactly n^2 + n + 1 transactions. */
  lemma CeremonyTerminates(frost: Frost, cast: Cast, plan: Plan, events: seq<Event>)
    requires Harmonious(frost, cast, plan)
    ensures var n: nat := cast.params.total; var w := Run(frost, cast, events);
      && Effective(frost, cast, events) <= n * n + 4 * n
      && |w.log| <= n * n + n + 1
      && (Current(frost, w).group.Some? ==> |w.log| == n * n + n + 1)
  {
    var n: nat, w := cast.params.total, Run(frost, cast, events);
    ProgressCounts(frost, cast, plan, events);
    AlwaysHonest(frost, cast, plan, events);
    var people := w.people;
    assert people.Keys == cast.secrets.Keys;
    SubsetCardinality(In(people, First), people.Keys);
    SubsetCardinality(In(people, Second), people.Keys);
    SubsetCardinality(In(people, Last), people.Keys);
    CeremonyLog(frost, cast, plan, w);
  }

  ghost predicate Promoted(frost: Frost, cast: Cast, events: seq<Event>) {
    Current(frost, Run(frost, cast, events)).group.Some?
  }

  /** From every reachable world the ceremony can still be promoted. */
  lemma StaysPromotable(frost: Frost, cast: Cast, plan: Plan, events: seq<Event>) returns (all: seq<Event>)
    requires Harmonious(frost, cast, plan)
    ensures |events| <= |all| && all[..|events|] == events && Promoted(frost, cast, all)
  {
    var n: nat := cast.params.total;
    CeremonyTerminates(frost, cast, plan, events);
    all := Continued(frost, cast, plan, events, n * n + 4 * n - Effective(frost, cast, events));
  }

  /** `left` effective events remain. */
  ghost predicate Remaining(frost: Frost, cast: Cast, events: seq<Event>, left: nat) {
    var n: nat := cast.params.total;
    Effective(frost, cast, events) + left == n * n + 4 * n
  }

  lemma {:induction false} Continued(frost: Frost, cast: Cast, plan: Plan, events: seq<Event>, left: nat)
    returns (all: seq<Event>)
    requires Harmonious(frost, cast, plan) && Remaining(frost, cast, events, left)
    ensures |events| <= |all| && all[..|events|] == events && Promoted(frost, cast, all)
    decreases left
  {
    if Promoted(frost, cast, events) {
      all := events;
    } else {
      var next := OneMoreEffective(frost, cast, plan, events, left);
      all := Continued(frost, cast, plan, next, left - 1);
      assert all[..|events|] == all[..|next|][..|events|];
    }
  }

  lemma OneMoreEffective(frost: Frost, cast: Cast, plan: Plan, events: seq<Event>, left: nat) returns (next: seq<Event>)
    requires Harmonious(frost, cast, plan) && !Promoted(frost, cast, events) && Remaining(frost, cast, events, left)
    ensures |next| == |events| + 1 && next[..|events|] == events
    ensures left > 0 && Remaining(frost, cast, next, left - 1)
  {
    var e := SomethingToDo(frost, cast, plan, events);
    next := events + [e];
    CeremonyTerminates(frost, cast, plan, next);
  }

  lemma SomethingToDo(frost: Frost, cast: Cast, plan: Plan, events: seq<Event>) returns (e: Event)
    requires Harmonious(frost, cast, plan)
    requires !Promoted(frost, cast, events)
    ensures Exec(frost, cast, Run(frost, cast, events), e) != Run(frost, cast, events)
  {
    var w := Run(frost, cast, events);
    if forall e :: Exec(frost, cast, w, e) == w {
      NoDeadlock(frost, cast, plan, events);
    }
    e :| Exec(frost, cast, w, e) != w;
  }

  /** A ceremony can be promoted if and only if everyone derives the same verifying
      key and verifying shares. */
  lemma PromotableIff(frost: Frost, cast: Cast, plan: Plan)
    requires Playable(frost, cast, plan)
    ensures (exists events :: Promoted(frost, cast, events)) <==> plan.script.Agrees()
  {
    if plan.script.Agrees() {
      var events := StaysPromotable(frost, cast, plan, []);
    }
    if events :| Promoted(frost, cast, events) {
      PromotionAgrees(frost, cast, plan, events);
    }
  }

  lemma CeremonyLog(frost: Frost, cast: Cast, plan: Plan, w: World)
    requires Realizes(frost, cast, plan) && Honest(frost, cast, plan, w)
    ensures var n: nat := cast.params.total;
      && |w.log| <= n * n + n + 1
      && (Current(frost, w).group.Some? ==> |w.log| == n * n + n + 1)
  {
    LogLength(frost, w.log);
    RunIsView(frost, w.log);
    PlanShape(frost, plan, w.people, w.pool, LedgerOf(frost, w.log));
    ShapeSize(plan.begin.params, Current(frost, w));
  }

  /** A state of an honest ceremony: still open, or promoted with no requests. */
  ghost predicate CeremonyShape(params: MpcParams, s: State) {
    && params.total >= 2
    && if s.group.Some? then s == State(None, s.group, map[]) && s.group.value.params == params
       else s.ceremony.Some? && s.ceremony.value.params == params && CeremonyBounded(s.ceremony.value)
  }

  lemma ShapeSize(params: MpcParams, s: State)
    requires CeremonyShape(params, s)
    ensures var n: nat := params.total;
      && Size(s, true) <= n * n + n + 1
      && (s.group.Some? ==> Size(s, true) == n * n + n + 1)
  {
    if s.group.Some? {
      PromotedSize(s);
    } else {
      UnpromotedSize(s.ceremony.value, s);
    }
  }

  lemma PlanShape(frost: Frost, plan: Plan, people: map<Identifier, Participant>, pool: multiset<Tx>, L: Ledger)
    requires OnPlan(plan, people, pool, L) && Admissible(L)
    ensures CeremonyShape(plan.begin.params, View(frost, L)) && ByDkg(L)
  {
    CeremonySize(L);
    if HasGroup(L) {
      NoPlannedRequests(frost, plan, people, pool, L);
    }
  }

  lemma NoPlannedRequests(frost: Frost, plan: Plan, people: map<Identifier, Participant>, pool: multiset<Tx>, L: Ledger)
    requires OnPlan(plan, people, pool, L) && Admissible(L) && HasGroup(L)
    ensures View(frost, L).requests == map[]
  {
    assert forall k :: k in L ==> L[k] == plan.At(k) && !k.Req?;
    assert RequestsOf(frost, GroupOf(L), L) == map[];
  }

  lemma PromotedSize(s: State)
    requires s.ceremony.None? && s.group.Some? && s.requests == map[]
    ensures var n: nat := s.group.value.params.total; Size(s, true) == n * n + n + 1
  {
  }

  lemma UnpromotedSize(c: DkgCeremony, s: State)
    requires c.params.total >= 2 && CeremonyBounded(c) && s.ceremony == Some(c)
    ensures var n: nat := c.params.total; Size(s, true) <= n * n + n + 1
  {
    SquareCount(c.params.total);
  }
}
