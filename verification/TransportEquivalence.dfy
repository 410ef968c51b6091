/** The ceremony over the chain and the in-process protocol are the same protocol
    with a different transport. */
module TransportEquivalence {
  import opened Core
  import opened FrostSuite
  import opened Chain
  import opened Participants
  import opened Transcript
  import opened InProcessDkg
  import opened DkgWorld

  ghost function Coins(cast: Cast): map<Identifier, nat> {
    map i | i in cast.tapes :: cast.tapes[i].part1
  }

  ghost function KeysOf(script: Script): map<Identifier, KeyPackage> {
    map i | i in script.roles :: script.roles[i].key
  }

  /** What the script generates: everyone's key, and participant 1's package. */
  ghost function ScriptKeys(script: Script): GroupKeys
    requires 1 in script.roles
  {
    (KeysOf(script), script.roles[1].pkp)
  }

  ghost function RoundsOf(script: Script): (r: Rounds)
    ensures r.secrets.Keys == r.publics.Keys == r.secrets2.Keys == r.sent.Keys == r.pkps.Keys == script.roles.Keys
  {
    Rounds(map i | i in script.roles :: script.roles[i].secret1,
           script.Packages1(),
           map i | i in script.roles :: script.roles[i].secret2,
           map i | i in script.roles :: script.roles[i].sent2,
           map i | i in script.roles :: script.roles[i].pkp)
  }

  /** The cast's participants are `1..=total` and follow the script. */
  ghost predicate Plays(frost: Frost, cast: Cast, script: Script) {
    && Follows(frost, cast, script) && cast.secrets.Keys == Numbered(cast.params.total)
    && 1 in script.roles
  }

  /** Both transports hand `part3` the same inbox. */
  lemma SameInbox(script: Script, i: Identifier)
    requires script.Addressed() && i in script.roles
    ensures InboxOf(RoundsOf(script).sent, i) == script.Inbox(i)
  {
    InboxFromSent(script, RoundsOf(script).sent, i);
  }

  /** All three rounds of the in-process protocol play out the script. */
  lemma RoundsPlayOut(frost: Frost, cast: Cast, script: Script)
    requires Plays(frost, cast, script)
    ensures var ids, r := Numbered(cast.params.total), RoundsOf(script);
      && Round1Made(frost, cast.params, Coins(cast), ids, r.secrets, r.publics)
      && Round2Made(frost, r.secrets, r.publics, ids, r.secrets2, r.sent)
      && Round3Made(frost, r.publics, r.secrets2, r.sent, ids, KeysOf(script), r.pkps)
  {
    PlaysRound1(frost, cast, script, RoundsOf(script));
    PlaysRound2(frost, cast, script, RoundsOf(script));
    PlaysRound3(frost, cast, script, RoundsOf(script), KeysOf(script));
  }

  /** It succeeds if the derived verifying keys agree. */
  lemma ScriptGenerates(frost: Frost, cast: Cast, script: Script)
    requires Plays(frost, cast, script) && script.SharesVerifyingKey()
    ensures Generated(frost, cast.params, Coins(cast), ScriptKeys(script))
  {
    RoundsPlayOut(frost, cast, script);
    KeyShared(script);
    assert RoundsCompleted(frost, cast.params, Coins(cast), RoundsOf(script), ScriptKeys(script));
  }

  lemma KeyShared(script: Script)
    requires 1 in script.roles
    ensures FirstAgreed(RoundsOf(script).pkps, Some(script.roles[1].pkp)) <==> script.SharesVerifyingKey()
  {
    var pkps := RoundsOf(script).pkps;
    assert forall i :: i in script.roles ==> pkps[i] == script.roles[i].pkp;
    if FirstAgreed(pkps, Some(script.roles[1].pkp)) {
      forall i, j | i in script.roles && j in script.roles
        ensures script.roles[i].pkp.verifyingKey == script.roles[j].pkp.verifyingKey
      {
        assert pkps[i].verifyingKey == pkps[j].verifyingKey;
      }
    }
  }

  ghost predicate Completes(frost: Frost, cast: Cast, rounds: Rounds, r: GroupKeys) {
    RoundsCompleted(frost, cast.params, Coins(cast), rounds, r)
  }

  lemma SamePackages(frost: Frost, params: MpcParams, coins: map<Identifier, nat>, a: Rounds,
                     keys: map<Identifier, KeyPackage>, b: Rounds, keys': map<Identifier, KeyPackage>)
    requires Round1Made(frost, params, coins, Numbered(params.total), a.secrets, a.publics)
    requires Round1Made(frost, params, coins, Numbered(params.total), b.secrets, b.publics)
    requires Round2Made(frost, a.secrets, a.publics, Numbered(params.total), a.secrets2, a.sent)
    requires Round2Made(frost, b.secrets, b.publics, Numbered(params.total), b.secrets2, b.sent)
    requires Round3Made(frost, a.publics, a.secrets2, a.sent, Numbered(params.total), keys, a.pkps)
    requires Round3Made(frost, b.publics, b.secrets2, b.sent, Numbered(params.total), keys', b.pkps)
    ensures a.pkps == b.pkps
  {
    RoundsUnique(frost, params, coins, a, b);
    Round3Unique(frost, b.publics, b.secrets2, b.sent, Numbered(params.total), keys, a.pkps, keys', b.pkps);
  }

  /** And only if they do. */
  lemma GeneratedAgrees(frost: Frost, cast: Cast, script: Script, rounds: Rounds, r: GroupKeys)
    requires Plays(frost, cast, script) && Completes(frost, cast, rounds, r)
    ensures script.SharesVerifyingKey()
  {
    RoundsPlayOut(frost, cast, script);
    SamePackages(frost, cast.params, Coins(cast), rounds, r.0, RoundsOf(script), KeysOf(script));
    KeyShared(script);
  }

  lemma PlaysRound1(frost: Frost, cast: Cast, script: Script, r: Rounds)
    requires Follows(frost, cast, script) && r == RoundsOf(script)
    ensures Round1Made(frost, cast.params, Coins(cast), script.roles.Keys, r.secrets, r.publics)
  {
    forall i | i in script.roles
      ensures frost.part1(i, cast.params, Coins(cast)[i]) == Ok((r.secrets[i], r.publics[i]))
    {
      assert FollowsPart1(frost, cast, script, i);
      PlaysPart1(frost, cast, script, r, i);
    }
  }

  lemma PlaysPart1(frost: Frost, cast: Cast, script: Script, r: Rounds, i: Identifier)
    requires i in cast.tapes && i in script.roles && FollowsPart1(frost, cast, script, i) && r == RoundsOf(script)
    ensures frost.part1(i, cast.params, Coins(cast)[i]) == Ok((r.secrets[i], r.publics[i]))
  {
  }

  lemma PlaysRound2(frost: Frost, cast: Cast, script: Script, r: Rounds)
    requires Follows(frost, cast, script) && r == RoundsOf(script)
    ensures Round2Made(frost, r.secrets, r.publics, script.roles.Keys, r.secrets2, r.sent)
  {
    forall i | i in script.roles
      ensures frost.part2(r.secrets[i], Others(r.publics, i)) == Ok((r.secrets2[i], r.sent[i]))
    {
      assert FollowsPart2(frost, script, i);
      PlaysPart2(frost, script, r, i);
    }
  }

  lemma PlaysPart2(frost: Frost, script: Script, r: Rounds, i: Identifier)
    requires i in script.roles && FollowsPart2(frost, script, i) && r == RoundsOf(script)
    ensures frost.part2(r.secrets[i], Others(r.publics, i)) == Ok((r.secrets2[i], r.sent[i]))
  {
  }

  lemma PlaysRound3(frost: Frost, cast: Cast, script: Script, r: Rounds, keys: map<Identifier, KeyPackage>)
    requires Follows(frost, cast, script) && r == RoundsOf(script) && keys == KeysOf(script)
    ensures Round3Made(frost, r.publics, r.secrets2, r.sent, script.roles.Keys, keys, r.pkps)
  {
    forall i | i in script.roles
      ensures frost.part3(r.secrets2[i], Others(r.publics, i), InboxOf(r.sent, i)) == Ok((keys[i], r.pkps[i]))
    {
      assert FollowsPart3(frost, script, i);
      PlaysPart3(frost, script, r, i);
    }
  }

  lemma PlaysPart3(frost: Frost, script: Script, r: Rounds, i: Identifier)
    requires script.Addressed() && i in script.roles && FollowsPart3(frost, script, i) && r == RoundsOf(script)
    ensures frost.part3(r.secrets2[i], Others(r.publics, i), InboxOf(r.sent, i)) ==
      Ok((script.roles[i].key, script.roles[i].pkp))
  {
    SameInbox(script, i);
  }

  /** Every completed script can be played over the chain. */
  lemma ScriptHasPlan(frost: Frost, cast: Cast, script: Script) returns (plan: Plan)
    requires Follows(frost, cast, script)
    ensures Realizes(frost, cast, plan) && plan.script == script
  {
    var ids := script.roles.Keys;
    var routes := set i, j | i in ids && j in ids && i != j :: (i, j);
    assert forall p :: p in routes ==> p.0 in ids && p.1 in ids && p.0 != p.1;
    assert forall i, j :: i in ids && j in ids && i != j ==> (i, j) in routes;
    plan := Plan(Begin(frost, cast), script, map p | p in routes :: SealedFor(frost, cast, script, p.0, p.1));
    assert PublicKeys(frost, cast).Keys == cast.secrets.Keys;
  }

  /** What the participants and the chain hold after promotion. */
  ghost function ChainKeys(people: map<Identifier, Participant>, pkp: PublicKeyPackage): GroupKeys
    requires forall i :: i in people ==> people[i].keyPackage.Some?
  {
    (map i | i in people :: people[i].keyPackage.value, pkp)
  }

  /** A promoted world in which everyone is complete, with these keys. */
  ghost predicate Holds(frost: Frost, w: World, keys: GroupKeys) {
    && Current(frost, w).group.Some?
    && (forall i :: i in w.people ==> w.people[i].IsComplete())
    && ChainKeys(w.people, Current(frost, w).group.value.pkp) == keys
  }

  /** Transport equivalence: from the same round-1 randomness and identifiers, the
      in-process protocol returns exactly the key packages and the group key of
      the promoted ceremony over the chain, whatever its interleaving. */
  lemma SameKeys(frost: Frost, cast: Cast, plan: Plan, events: seq<Event>, inProcess: GroupKeys)
    requires Playable(frost, cast, plan) && Plays(frost, cast, plan.script) && Promoted(frost, cast, events)
    ensures Generated(frost, cast.params, Coins(cast), inProcess) <==> Holds(frost, Run(frost, cast, events), inProcess)
  {
    PromotedKeys(frost, cast, plan, events);
    ScriptIsSoleOutcome(frost, cast, plan.script);
  }

  lemma PromotedKeys(frost: Frost, cast: Cast, plan: Plan, events: seq<Event>)
    requires Playable(frost, cast, plan) && Plays(frost, cast, plan.script) && Promoted(frost, cast, events)
    ensures plan.script.SharesVerifyingKey()
    ensures Holds(frost, Run(frost, cast, events), ScriptKeys(plan.script))
  {
    PromotionAgrees(frost, cast, plan, events);
    AgreedKeys(cast, plan, Run(frost, cast, events).people, Current(frost, Run(frost, cast, events)));
  }

  lemma AgreedKeys(cast: Cast, plan: Plan, people: map<Identifier, Participant>, s: State)
    requires Agreed(cast, plan, people, s) && cast.secrets.Keys == Numbered(cast.params.total) && 1 in plan.script.roles
    ensures plan.script.SharesVerifyingKey() && s.group.Some?
    ensures forall i :: i in people ==> people[i].IsComplete()
    ensures ChainKeys(people, s.group.value.pkp) == ScriptKeys(plan.script)
  {
    assert Min(plan.script.roles.Keys) == 1;
    assert ChainKeys(people, s.group.value.pkp).0 == KeysOf(plan.script);
  }

  /** The in-process protocol has `r` for an outcome and no other. */
  ghost predicate SoleOutcome(frost: Frost, params: MpcParams, coins: map<Identifier, nat>, r: GroupKeys) {
    forall other {:trigger Generated(frost, params, coins, other)} ::
      Generated(frost, params, coins, other) <==> other == r
  }

  lemma ScriptIsSoleOutcome(frost: Frost, cast: Cast, script: Script)
    requires Plays(frost, cast, script) && script.SharesVerifyingKey()
    ensures SoleOutcome(frost, cast.params, Coins(cast), ScriptKeys(script))
  {
    ScriptGenerates(frost, cast, script);
    GeneratedIsSole(frost, cast.params, Coins(cast), ScriptKeys(script));
  }

  lemma GeneratedIsSole(frost: Frost, params: MpcParams, coins: map<Identifier, nat>, r: GroupKeys)
    requires Generated(frost, params, coins, r)
    ensures SoleOutcome(frost, params, coins, r)
  {
    forall other | Generated(frost, params, coins, other) ensures other == r {
      GeneratedUnique(frost, params, coins, other, r);
    }
  }

  // ------------------------------------------- where the transports differ

  /** The in-process protocol succeeds. */
  ghost predicate Succeeds(frost: Frost, cast: Cast) {
    exists r :: Generated(frost, cast.params, Coins(cast), r)
  }

  lemma FailsUnlessShared(frost: Frost, cast: Cast, script: Script)
    requires Plays(frost, cast, script) && !script.SharesVerifyingKey()
    ensures !Succeeds(frost, cast)
  {
    forall r, rounds | Completes(frost, cast, rounds, r) ensures false {
      GeneratedAgrees(frost, cast, script, rounds, r);
    }
    NeverCompletes(frost, cast);
  }

  lemma NeverCompletes(frost: Frost, cast: Cast)
    requires forall r, rounds {:trigger Completes(frost, cast, rounds, r)} :: !Completes(frost, cast, rounds, r)
    ensures !Succeeds(frost, cast)
  {
    forall r ensures !Generated(frost, cast.params, Coins(cast), r) {
      forall rounds ensures !RoundsCompleted(frost, cast.params, Coins(cast), rounds, r) {
        assert !Completes(frost, cast, rounds, r);
      }
    }
  }

  lemma SucceedsIff(frost: Frost, cast: Cast, script: Script)
    requires Plays(frost, cast, script)
    ensures Succeeds(frost, cast) <==> script.SharesVerifyingKey()
  {
    if script.SharesVerifyingKey() {
      ScriptGenerates(frost, cast, script);
    } else {
      FailsUnlessShared(frost, cast, script);
    }
  }

  /** Some schedule of the ceremony over the chain is promoted. */
  ghost predicate CanPromote(frost: Frost, cast: Cast) {
    exists events :: Promoted(frost, cast, events)
  }

  /** The in-process protocol compares verifying keys only, the chain verifying
      shares too: one succeeds iff the keys agree, the other can be promoted iff
      keys and shares do. */
  lemma EachSucceedsIff(frost: Frost, cast: Cast, plan: Plan)
    requires Playable(frost, cast, plan) && Plays(frost, cast, plan.script)
    ensures Succeeds(frost, cast) <==> plan.script.SharesVerifyingKey()
    ensures CanPromote(frost, cast) <==> plan.script.Agrees()
  {
    SucceedsIff(frost, cast, plan.script);
    PromotableIff(frost, cast, plan);
  }

  /** So with one verifying key but different verifying shares, the in-process
      protocol succeeds and the chain never promotes. */
  lemma TransportsPart(frost: Frost, cast: Cast, script: Script)
    requires Plays(frost, cast, script) && EnvelopesOpen(frost) && script.SharesVerifyingKey() && !script.Agrees()
    ensures Succeeds(frost, cast) && !CanPromote(frost, cast)
  {
    var plan := ScriptHasPlan(frost, cast, script);
    EachSucceedsIff(frost, cast, plan);
  }

  /** What participant `i` derives from its coin and what it receives: its round-1
      package and the public key package. */
  ghost function Derived(frost: Frost, i: Identifier, params: MpcParams, coin: nat,
                         others: map<Identifier, Round1Package>,
                         inbox: map<Identifier, Round2Package>): Option<(Round1Package, PublicKeyPackage)>
  {
    match frost.part1(i, params, coin)
    case Err(_) => None
    case Ok((secret1, package)) =>
      match frost.part2(secret1, others)
      case Err(_) => None
      case Ok((secret2, _)) =>
        match frost.part3(secret2, others, inbox)
        case Err(_) => None
        case Ok((_, pkp)) => Some((package, pkp))
  }

  /** The derived public key package is `f` of the full round-1 map. */
  ghost predicate PkpFromRound1(frost: Frost, f: map<Identifier, Round1Package> -> PublicKeyPackage) {
    forall i, params, coin, others, inbox {:trigger Derived(frost, i, params, coin, others, inbox)} ::
      var d := Derived(frost, i, params, coin, others, inbox);
      d.Some? && i !in others ==> d.value.1 == f(others[i := d.value.0])
  }

  lemma DerivedFromRound1(frost: Frost, f: map<Identifier, Round1Package> -> PublicKeyPackage, cast: Cast,
                          script: Script, i: Identifier)
    requires PkpFromRound1(frost, f) && Follows(frost, cast, script) && i in script.roles
    ensures script.roles[i].pkp == f(script.Packages1())
  {
    var role, others := script.roles[i], Others(script.Packages1(), i);
    FollowsDerives(frost, cast, script, i);
    OwnBack(script, i);
    assert Derived(frost, i, cast.params, cast.tapes[i].part1, others, script.Inbox(i)) ==
      Some((role.package1, role.pkp));
  }

  lemma OwnBack(script: Script, i: Identifier)
    requires i in script.roles
    ensures i !in Others(script.Packages1(), i)
    ensures Others(script.Packages1(), i)[i := script.roles[i].package1] == script.Packages1()
  {
  }

  lemma FollowsDerives(frost: Frost, cast: Cast, script: Script, i: Identifier)
    requires Follows(frost, cast, script) && i in script.roles
    ensures Derived(frost, i, cast.params, cast.tapes[i].part1, Others(script.Packages1(), i), script.Inbox(i))
      == Some((script.roles[i].package1, script.roles[i].pkp))
  {
    assert FollowsPart1(frost, cast, script, i) && FollowsPart2(frost, script, i) && FollowsPart3(frost, script, i);
  }

  lemma AgreeFromRound1(frost: Frost, f: map<Identifier, Round1Package> -> PublicKeyPackage, cast: Cast,
                        script: Script)
    requires PkpFromRound1(frost, f) && Plays(frost, cast, script)
    ensures script.Agrees()
  {
    forall i | i in script.roles ensures script.roles[i].pkp == f(script.Packages1()) {
      DerivedFromRound1(frost, f, cast, script, i);
    }
  }

  /** A library whose packages depend only on the round-1 map makes both transports
      succeed. */
  lemma BothSucceed(frost: Frost, f: map<Identifier, Round1Package> -> PublicKeyPackage, cast: Cast, script: Script)
    requires PkpFromRound1(frost, f) && Plays(frost, cast, script) && EnvelopesOpen(frost)
    ensures script.Agrees() && Succeeds(frost, cast) && CanPromote(frost, cast)
  {
    AgreeFromRound1(frost, f, cast, script);
    var plan := ScriptHasPlan(frost, cast, script);
    EachSucceedsIff(frost, cast, plan);
  }

  // ------------------------------------------- from one process to the chain

  ghost function ScriptOf(ids: set<Identifier>, rounds: Rounds, keys: map<Identifier, KeyPackage>): (script: Script)
    requires ids <= rounds.secrets.Keys && ids <= rounds.publics.Keys && ids <= rounds.secrets2.Keys
    requires ids <= rounds.sent.Keys && ids <= rounds.pkps.Keys && ids <= keys.Keys
    ensures script.roles.Keys == ids
  {
    Script(map i | i in ids ::
      Role(rounds.secrets[i], rounds.publics[i], rounds.secrets2[i], rounds.sent[i], keys[i], rounds.pkps[i]))
  }

  /** All the maps of a completed run are about the same participants. */
  ghost predicate Uniform(ids: set<Identifier>, rounds: Rounds, keys: map<Identifier, KeyPackage>) {
    && rounds.secrets.Keys == rounds.publics.Keys == rounds.secrets2.Keys == rounds.sent.Keys == ids
    && rounds.pkps.Keys == keys.Keys == ids
  }

  lemma ScriptParts(ids: set<Identifier>, rounds: Rounds, keys: map<Identifier, KeyPackage>)
    requires Uniform(ids, rounds, keys)
    ensures ScriptOf(ids, rounds, keys).Packages1() == rounds.publics
    ensures KeysOf(ScriptOf(ids, rounds, keys)) == keys
  {
  }

  lemma ScriptInbox(ids: set<Identifier>, rounds: Rounds, keys: map<Identifier, KeyPackage>, i: Identifier)
    requires Uniform(ids, rounds, keys) && i in ids && ScriptOf(ids, rounds, keys).Addressed()
    ensures ScriptOf(ids, rounds, keys).Inbox(i) == InboxOf(rounds.sent, i)
  {
    InboxFromSent(ScriptOf(ids, rounds, keys), rounds.sent, i);
  }

  lemma InboxFromSent(script: Script, sent: Sent, i: Identifier)
    requires script.Addressed() && i in script.roles && sent.Keys == script.roles.Keys
    requires forall j :: j in sent ==> sent[j] == script.roles[j].sent2
    ensures script.Inbox(i) == InboxOf(sent, i)
  {
    forall j ensures j in sent && i in sent[j] <==> j in script.roles && j != i {}
  }

  lemma ScriptAddressed(frost: Frost, ids: set<Identifier>, rounds: Rounds, keys: map<Identifier, KeyPackage>)
    requires RoutesToOthers(frost) && Uniform(ids, rounds, keys)
    requires Round2Made(frost, rounds.secrets, rounds.publics, ids, rounds.secrets2, rounds.sent)
    ensures ScriptOf(ids, rounds, keys).Addressed()
  {
    forall i | i in ids ensures rounds.sent[i].Keys == ids - {i} {
      assert frost.part2(rounds.secrets[i], Others(rounds.publics, i)).value.1 == rounds.sent[i];
      assert Others(rounds.publics, i).Keys == ids - {i};
    }
  }

  lemma FollowedPart1(frost: Frost, cast: Cast, ids: set<Identifier>, rounds: Rounds, keys: map<Identifier, KeyPackage>,
                      i: Identifier)
    requires Uniform(ids, rounds, keys) && i in ids && i in cast.tapes
    requires Round1Made(frost, cast.params, Coins(cast), ids, rounds.secrets, rounds.publics)
    ensures FollowsPart1(frost, cast, ScriptOf(ids, rounds, keys), i)
  {
    assert frost.part1(i, cast.params, Coins(cast)[i]) == Ok((rounds.secrets[i], rounds.publics[i]));
  }

  lemma FollowedPart2(frost: Frost, ids: set<Identifier>, rounds: Rounds, keys: map<Identifier, KeyPackage>,
                      i: Identifier)
    requires Uniform(ids, rounds, keys) && i in ids
    requires Round2Made(frost, rounds.secrets, rounds.publics, ids, rounds.secrets2, rounds.sent)
    ensures FollowsPart2(frost, ScriptOf(ids, rounds, keys), i)
  {
    ScriptParts(ids, rounds, keys);
  }

  lemma FollowedPart3(frost: Frost, ids: set<Identifier>, rounds: Rounds, keys: map<Identifier, KeyPackage>,
                      i: Identifier)
    requires Uniform(ids, rounds, keys) && i in ids && ScriptOf(ids, rounds, keys).Addressed()
    requires Round3Made(frost, rounds.publics, rounds.secrets2, rounds.sent, ids, keys, rounds.pkps)
    ensures FollowsPart3(frost, ScriptOf(ids, rounds, keys), i)
  {
    ScriptParts(ids, rounds, keys);
    ScriptInbox(ids, rounds, keys, i);
  }

  lemma FollowedPart1s(frost: Frost, cast: Cast, ids: set<Identifier>, rounds: Rounds,
                       keys: map<Identifier, KeyPackage>, script: Script)
    requires Uniform(ids, rounds, keys) && ids <= cast.tapes.Keys && script == ScriptOf(ids, rounds, keys)
    requires Round1Made(frost, cast.params, Coins(cast), ids, rounds.secrets, rounds.publics)
    ensures forall i {:trigger FollowsPart1(frost, cast, script, i)} :: i in script.roles ==>
      FollowsPart1(frost, cast, script, i)
  {
    forall i | i in script.roles ensures FollowsPart1(frost, cast, script, i) {
      FollowedPart1(frost, cast, ids, rounds, keys, i);
    }
  }

  lemma FollowedPart2s(frost: Frost, ids: set<Identifier>, rounds: Rounds, keys: map<Identifier, KeyPackage>,
                       script: Script)
    requires Uniform(ids, rounds, keys) && script == ScriptOf(ids, rounds, keys)
    requires Round2Made(frost, rounds.secrets, rounds.publics, ids, rounds.secrets2, rounds.sent)
    ensures forall i {:trigger FollowsPart2(frost, script, i)} :: i in script.roles ==> FollowsPart2(frost, script, i)
  {
    forall i | i in script.roles ensures FollowsPart2(frost, script, i) {
      FollowedPart2(frost, ids, rounds, keys, i);
    }
  }

  lemma FollowedPart3s(frost: Frost, ids: set<Identifier>, rounds: Rounds, keys: map<Identifier, KeyPackage>,
                       script: Script)
    requires Uniform(ids, rounds, keys) && script == ScriptOf(ids, rounds, keys) && script.Addressed()
    requires Round3Made(frost, rounds.publics, rounds.secrets2, rounds.sent, ids, keys, rounds.pkps)
    ensures forall i {:trigger FollowsPart3(frost, script, i)} :: i in script.roles ==> FollowsPart3(frost, script, i)
  {
    forall i | i in script.roles ensures FollowsPart3(frost, script, i) {
      FollowedPart3(frost, ids, rounds, keys, i);
    }
  }

  /** The in-process run with the cast's randomness. */
  ghost predicate Played(frost: Frost, cast: Cast, rounds: Rounds, r: GroupKeys) {
    && cast.Valid() && cast.secrets.Keys == Numbered(cast.params.total)
    && RoundsCompleted(frost, cast.params, Coins(cast), rounds, r)
  }

  /** Whatever the in-process protocol generates, a script does. */
  lemma RoundsPlayed(frost: Frost, cast: Cast, rounds: Rounds, r: GroupKeys) returns (script: Script)
    requires RoutesToOthers(frost) && Played(frost, cast, rounds, r)
    ensures Plays(frost, cast, script) && r == ScriptKeys(script)
  {
    script := ScriptOf(Numbered(cast.params.total), rounds, r.0);
    PlayedFollows(frost, cast, Numbered(cast.params.total), rounds, r.0, script);
    PlayedKeys(Numbered(cast.params.total), rounds, r, script);
  }

  lemma PlayedKeys(ids: set<Identifier>, rounds: Rounds, r: GroupKeys, script: Script)
    requires Uniform(ids, rounds, r.0) && script == ScriptOf(ids, rounds, r.0) && 1 in ids && rounds.pkps[1] == r.1
    ensures r == ScriptKeys(script)
  {
    ScriptParts(ids, rounds, r.0);
  }

  lemma PlayedFollows(frost: Frost, cast: Cast, ids: set<Identifier>, rounds: Rounds, keys: map<Identifier, KeyPackage>,
                      script: Script)
    requires RoutesToOthers(frost) && cast.Valid() && cast.secrets.Keys == ids
    requires Uniform(ids, rounds, keys) && script == ScriptOf(ids, rounds, keys)
    requires Round1Made(frost, cast.params, Coins(cast), ids, rounds.secrets, rounds.publics)
    requires Round2Made(frost, rounds.secrets, rounds.publics, ids, rounds.secrets2, rounds.sent)
    requires Round3Made(frost, rounds.publics, rounds.secrets2, rounds.sent, ids, keys, rounds.pkps)
    ensures Follows(frost, cast, script)
  {
    ScriptAddressed(frost, ids, rounds, keys);
    FollowedPart1s(frost, cast, ids, rounds, keys, script);
    FollowedPart2s(frost, ids, rounds, keys, script);
    FollowedPart3s(frost, ids, rounds, keys, script);
  }

  /** The other direction: if the in-process protocol completes (through whatever
      `rounds`), then whenever the ceremony over the chain from the same randomness
      promotes, under whatever interleaving, it has generated the same keys. */
  lemma InProcessForetellsChain(frost: Frost, cast: Cast, rounds: Rounds, r: GroupKeys, events: seq<Event>)
    requires RoutesToOthers(frost) && Played(frost, cast, rounds, r) && EnvelopesOpen(frost)
    requires Promoted(frost, cast, events)
    ensures Holds(frost, Run(frost, cast, events), r)
  {
    var script := RoundsPlayed(frost, cast, rounds, r);
    ScriptForetellsChain(frost, cast, script, events);
  }

  lemma ScriptForetellsChain(frost: Frost, cast: Cast, script: Script, events: seq<Event>)
    requires Plays(frost, cast, script) && EnvelopesOpen(frost) && Promoted(frost, cast, events)
    ensures Holds(frost, Run(frost, cast, events), ScriptKeys(script))
  {
    var plan := ScriptHasPlan(frost, cast, script);
    PromotedKeys(frost, cast, plan, events);
  }
}
