/** Key generation inside one process: the same three rounds, with maps for a
    network. */
module InProcessDkg {
  import opened Core
  import opened FrostSuite
  import opened Participants

  type Sent = map<Identifier, map<Identifier, Round2Package>>
  type GroupKeys = (map<Identifier, KeyPackage>, PublicKeyPackage)

  /** Identifiers `1..=total`. */
  function Numbered(total: nat): (r: set<Identifier>)
    ensures forall i :: i in r <==> 1 <= i <= total
  {
    if total == 0 then {} else Numbered(total - 1) + {total}
  }

  /** `part2` returns exactly one package per other participant. */
  ghost predicate RoutesToOthers(frost: Frost) {
    forall secret, others :: var r := frost.part2(secret, others); r.Ok? ==> r.value.1.Keys == others.Keys
  }

  /** Everything sent to `id`, by sender. */
  ghost function InboxOf(sent: Sent, id: Identifier): map<Identifier, Round2Package> {
    map j | j in sent && id in sent[j] :: sent[j][id]
  }

  ghost predicate Round1Made(frost: Frost, params: MpcParams, coins: map<Identifier, nat>, ids: set<Identifier>,
                             secrets: map<Identifier, Round1Secret>, publics: map<Identifier, Round1Package>)
  {
    && ids <= coins.Keys && secrets.Keys == ids && publics.Keys == ids
    && forall i {:trigger frost.part1(i, params, coins[i])} :: i in ids ==>
      frost.part1(i, params, coins[i]) == Ok((secrets[i], publics[i]))
  }

  ghost predicate Round2Made(frost: Frost, secrets: map<Identifier, Round1Secret>,
                             publics: map<Identifier, Round1Package>, ids: set<Identifier>,
                             secrets2: map<Identifier, Round2Secret>, sent: Sent)
  {
    && ids <= secrets.Keys && secrets2.Keys == ids && sent.Keys == ids
    && forall i {:trigger frost.part2(secrets[i], Others(publics, i))} :: i in ids ==>
      frost.part2(secrets[i], Others(publics, i)) == Ok((secrets2[i], sent[i]))
  }

  ghost predicate Round3Made(frost: Frost, publics: map<Identifier, Round1Package>,
                             secrets2: map<Identifier, Round2Secret>, sent: Sent, ids: set<Identifier>,
                             keys: map<Identifier, KeyPackage>, pkps: map<Identifier, PublicKeyPackage>)
  {
    && ids <= secrets2.Keys && keys.Keys == ids && pkps.Keys == ids
    && forall i {:trigger frost.part3(secrets2[i], Others(publics, i), InboxOf(sent, i))} :: i in ids ==>
      frost.part3(secrets2[i], Others(publics, i), InboxOf(sent, i)) == Ok((keys[i], pkps[i]))
  }

  /** What a complete run passes through. */
  datatype Rounds = Rounds(
    secrets: map<Identifier, Round1Secret>, publics: map<Identifier, Round1Package>,
    secrets2: map<Identifier, Round2Secret>, sent: Sent, pkps: map<Identifier, PublicKeyPackage>)

  /** All rounds made for everyone, group keys agreeing, and the first
      participant's public key package returned. */
  ghost predicate RoundsCompleted(frost: Frost, params: MpcParams, coins: map<Identifier, nat>, rounds: Rounds,
                                  r: GroupKeys) {
    var ids := Numbered(params.total);
    && Round1Made(frost, params, coins, ids, rounds.secrets, rounds.publics)
    && Round2Made(frost, rounds.secrets, rounds.publics, ids, rounds.secrets2, rounds.sent)
    && Round3Made(frost, rounds.publics, rounds.secrets2, rounds.sent, ids, r.0, rounds.pkps)
    && FirstAgreed(rounds.pkps, Some(r.1))
  }

  ghost predicate Generated(frost: Frost, params: MpcParams, coins: map<Identifier, nat>, r: GroupKeys) {
    exists rounds :: RoundsCompleted(frost, params, coins, rounds, r)
  }

  method Round1(frost: Frost, params: MpcParams, coins: map<Identifier, nat>)
    returns (ok: bool, secrets: map<Identifier, Round1Secret>, publics: map<Identifier, Round1Package>)
    requires Numbered(params.total) <= coins.Keys
    ensures !ok ==> exists i :: i in Numbered(params.total) && frost.part1(i, params, coins[i]).Err?
    ensures ok ==> Round1Made(frost, params, coins, Numbered(params.total), secrets, publics)
  {
    secrets, publics := map[], map[];
    var n: nat := 0;
    while n < params.total
      invariant n <= params.total
      invariant Round1Made(frost, params, coins, Numbered(n), secrets, publics)
    {
      var i: nat := n + 1;
      match frost.part1(i, params, coins[i]) {
        case Err(_) => return false, map[], map[];
        case Ok((secret, package)) =>
          secrets, publics := secrets[i := secret], publics[i := package];
      }
      n := i;
    }
    ok := true;
  }

  /** Delivers one participant's packages to the recipients' inboxes. */
  method Distribute(inbox: Sent, id: Identifier, packages: map<Identifier, Round2Package>, ghost sent: Sent)
    returns (next: Sent)
    requires id !in sent && packages.Keys <= inbox.Keys
    requires forall r :: r in inbox ==> inbox[r] == InboxOf(sent, r)
    ensures next.Keys == inbox.Keys
    ensures forall r :: r in next ==> next[r] == InboxOf(sent[id := packages], r)
  {
    next := inbox;
    var rest := packages.Keys;
    while rest != {}
      invariant rest <= packages.Keys && next.Keys == inbox.Keys
      invariant forall r :: r in next ==>
        next[r] == if r in packages && r !in rest then inbox[r][id := packages[r]] else inbox[r]
      decreases |rest|
    {
      var recipient := Min(rest);
      var box: map<Identifier, Round2Package> := next[recipient];
      box := box[id := packages[recipient]];
      next := next[recipient := box];
      rest := rest - {recipient};
    }
    forall r | r in next ensures next[r] == InboxOf(sent[id := packages], r) {
      InboxGains(sent, id, packages, r);
    }
  }

  lemma InboxGains(sent: Sent, id: Identifier, packages: map<Identifier, Round2Package>, r: Identifier)
    requires id !in sent
    ensures InboxOf(sent[id := packages], r) ==
      if r in packages then InboxOf(sent, r)[id := packages[r]] else InboxOf(sent, r)
  {
  }

  method Round2(frost: Frost, total: nat, secrets: map<Identifier, Round1Secret>,
                publics: map<Identifier, Round1Package>)
    returns (ok: bool, secrets2: map<Identifier, Round2Secret>, inbox: Sent, ghost sent: Sent)
    requires RoutesToOthers(frost)
    requires secrets.Keys == publics.Keys == Numbered(total)
    ensures !ok ==> exists i :: i in secrets && frost.part2(secrets[i], Others(publics, i)).Err?
    ensures ok ==> Round2Made(frost, secrets, publics, Numbered(total), secrets2, sent)
    ensures ok ==> Sorted(inbox, sent, Numbered(total))
  {
    secrets2, sent := map[], map[];
    inbox := map i | i in publics :: map[];
    var n: nat := 0;
    while n < total
      invariant n <= total
      invariant Round2Made(frost, secrets, publics, Numbered(n), secrets2, sent)
      invariant Sorted(inbox, sent, Numbered(total))
    {
      var id: nat := n + 1;
      match frost.part2(secrets[id], Others(publics, id)) {
        case Err(_) => return false, map[], map[], map[];
        case Ok((secret, packages)) =>
          assert packages.Keys == Others(publics, id).Keys;
          inbox := Distribute(inbox, id, packages, sent);
          Round2Extends(frost, secrets, publics, id, secrets2, sent, secret, packages);
          secrets2, sent := secrets2[id := secret], sent[id := packages];
      }
      n := id;
    }
    ok := true;
  }

  /** Every inbox holds exactly what was sent to its owner. */
  ghost predicate Sorted(inbox: Sent, sent: Sent, ids: set<Identifier>) {
    inbox.Keys == ids && forall r :: r in inbox ==> inbox[r] == InboxOf(sent, r)
  }

  lemma Round2Extends(frost: Frost, secrets: map<Identifier, Round1Secret>, publics: map<Identifier, Round1Package>,
                      id: nat, secrets2: map<Identifier, Round2Secret>, sent: Sent,
                      secret: Round2Secret, packages: map<Identifier, Round2Package>)
    requires id >= 1 && Round2Made(frost, secrets, publics, Numbered(id - 1), secrets2, sent) && id in secrets
    requires frost.part2(secrets[id], Others(publics, id)) == Ok((secret, packages))
    ensures Round2Made(frost, secrets, publics, Numbered(id), secrets2[id := secret], sent[id := packages])
  {
  }

  /** Why round 3 can fail: someone's `part3` fails, or two group keys differ. */
  ghost predicate Round3Broken(frost: Frost, publics: map<Identifier, Round1Package>,
                               secrets2: map<Identifier, Round2Secret>, sent: Sent)
  {
    exists i, j ::
      && i in secrets2 && j in secrets2
      && var a, b := Part3For(frost, publics, secrets2, sent, i), Part3For(frost, publics, secrets2, sent, j);
         a.Err? || (b.Ok? && a.value.1.verifyingKey != b.value.1.verifyingKey)
  }

  ghost function Part3For(frost: Frost, publics: map<Identifier, Round1Package>,
                          secrets2: map<Identifier, Round2Secret>, sent: Sent, i: Identifier)
    : Result<(KeyPackage, PublicKeyPackage), string>
    requires i in secrets2
  {
    frost.part3(secrets2[i], Others(publics, i), InboxOf(sent, i))
  }

  method Round3(frost: Frost, total: nat, publics: map<Identifier, Round1Package>,
                secrets2: map<Identifier, Round2Secret>, inbox: Sent, ghost sent: Sent)
    returns (ok: bool, keys: map<Identifier, KeyPackage>, groupPkp: Option<PublicKeyPackage>,
             ghost pkps: map<Identifier, PublicKeyPackage>)
    requires secrets2.Keys == Numbered(total) && Sorted(inbox, sent, Numbered(total))
    ensures ok ==> Round3Made(frost, publics, secrets2, sent, Numbered(total), keys, pkps)
    ensures ok ==> FirstAgreed(pkps, groupPkp)
    ensures !ok ==> Round3Broken(frost, publics, secrets2, sent)
  {
    keys, groupPkp, pkps := map[], None, map[];
    var n: nat := 0;
    while n < total
      invariant n <= total
      invariant Round3Made(frost, publics, secrets2, sent, Numbered(n), keys, pkps)
      invariant FirstAgreed(pkps, groupPkp)
    {
      var id: nat := n + 1;
      assert inbox[id] == InboxOf(sent, id);
      var r := frost.part3(secrets2[id], Others(publics, id), inbox[id]);
      assert r == Part3For(frost, publics, secrets2, sent, id);
      if r.Err? {
        return false, map[], None, map[];
      }
      var (key, pkp) := r.value;
      if groupPkp.None? {
        groupPkp := Some(pkp);
      } else if groupPkp.value.verifyingKey != pkp.verifyingKey {
        assert Part3For(frost, publics, secrets2, sent, 1) == Ok((keys[1], pkps[1]));
        return false, map[], None, map[];
      }
      Round3Extends(frost, publics, secrets2, sent, id, keys, pkps, key, pkp);
      FirstStays(pkps, groupPkp, id, pkp);
      keys, pkps := keys[id := key], pkps[id := pkp];
      n := id;
    }
    ok := true;
  }

  lemma FirstStays(pkps: map<Identifier, PublicKeyPackage>, first: Option<PublicKeyPackage>, id: Identifier,
                   pkp: PublicKeyPackage)
    requires first.Some? && first.value.verifyingKey == pkp.verifyingKey && SameVerifyingKey(pkps)
    requires if pkps == map[] then id == 1 && first.value == pkp else id != 1 && 1 in pkps && pkps[1] == first.value
    ensures FirstAgreed(pkps[id := pkp], first)
  {
  }

  lemma Round3Extends(frost: Frost, publics: map<Identifier, Round1Package>, secrets2: map<Identifier, Round2Secret>,
                      sent: Sent, id: nat, keys: map<Identifier, KeyPackage>, pkps: map<Identifier, PublicKeyPackage>,
                      key: KeyPackage, pkp: PublicKeyPackage)
    requires id >= 1 && Round3Made(frost, publics, secrets2, sent, Numbered(id - 1), keys, pkps) && id in secrets2
    requires frost.part3(secrets2[id], Others(publics, id), InboxOf(sent, id)) == Ok((key, pkp))
    ensures Round3Made(frost, publics, secrets2, sent, Numbered(id), keys[id := key], pkps[id := pkp])
  {
  }

  ghost predicate SameVerifyingKey(pkps: map<Identifier, PublicKeyPackage>) {
    forall i, j :: i in pkps && j in pkps ==> pkps[i].verifyingKey == pkps[j].verifyingKey
  }

  /** The retained package is participant 1's, and all group keys equal its. */
  ghost predicate FirstAgreed(pkps: map<Identifier, PublicKeyPackage>, first: Option<PublicKeyPackage>) {
    && (first.None? <==> pkps == map[])
    && (first.Some? ==> 1 in pkps && pkps[1] == first.value)
    && SameVerifyingKey(pkps)
  }

  lemma RoundsUnique(frost: Frost, params: MpcParams, coins: map<Identifier, nat>, a: Rounds, b: Rounds)
    requires Round1Made(frost, params, coins, Numbered(params.total), a.secrets, a.publics)
    requires Round1Made(frost, params, coins, Numbered(params.total), b.secrets, b.publics)
    requires Round2Made(frost, a.secrets, a.publics, Numbered(params.total), a.secrets2, a.sent)
    requires Round2Made(frost, b.secrets, b.publics, Numbered(params.total), b.secrets2, b.sent)
    ensures a.secrets == b.secrets && a.publics == b.publics && a.secrets2 == b.secrets2 && a.sent == b.sent
  {
    Round1Unique(frost, params, coins, a, b);
    forall i | i in Numbered(params.total) ensures a.secrets2[i] == b.secrets2[i] && a.sent[i] == b.sent[i] {
      assert frost.part2(a.secrets[i], Others(a.publics, i)).value == (b.secrets2[i], b.sent[i]);
    }
  }

  lemma Round1Unique(frost: Frost, params: MpcParams, coins: map<Identifier, nat>, a: Rounds, b: Rounds)
    requires Round1Made(frost, params, coins, Numbered(params.total), a.secrets, a.publics)
    requires Round1Made(frost, params, coins, Numbered(params.total), b.secrets, b.publics)
    ensures a.secrets == b.secrets && a.publics == b.publics
  {
    forall i | i in Numbered(params.total) ensures a.secrets[i] == b.secrets[i] && a.publics[i] == b.publics[i] {
      assert frost.part1(i, params, coins[i]).value == (b.secrets[i], b.publics[i]);
    }
  }

  /** The outcome is determined by the inputs and the randomness. */
  lemma GeneratedUnique(frost: Frost, params: MpcParams, coins: map<Identifier, nat>, x: GroupKeys, y: GroupKeys)
    requires Generated(frost, params, coins, x) && Generated(frost, params, coins, y)
    ensures x == y
  {
    var a :| RoundsCompleted(frost, params, coins, a, x);
    var b :| RoundsCompleted(frost, params, coins, b, y);
    RoundsUnique(frost, params, coins, a, b);
    Round3Unique(frost, a.publics, a.secrets2, a.sent, Numbered(params.total), x.0, a.pkps, y.0, b.pkps);
  }

  lemma Round3Unique(frost: Frost, publics: map<Identifier, Round1Package>, secrets2: map<Identifier, Round2Secret>,
                     sent: Sent, ids: set<Identifier>,
                     keys: map<Identifier, KeyPackage>, pkps: map<Identifier, PublicKeyPackage>,
                     keys': map<Identifier, KeyPackage>, pkps': map<Identifier, PublicKeyPackage>)
    requires Round3Made(frost, publics, secrets2, sent, ids, keys, pkps)
    requires Round3Made(frost, publics, secrets2, sent, ids, keys', pkps')
    ensures keys == keys' && pkps == pkps'
  {
    forall i | i in ids ensures keys[i] == keys'[i] && pkps[i] == pkps'[i] {
      assert Part3For(frost, publics, secrets2, sent, i).value == (keys[i], pkps[i]);
      assert Part3For(frost, publics, secrets2, sent, i).value == (keys'[i], pkps'[i]);
    }
  }

  /** Runs the whole protocol in one process. It succeeds exactly when all three
      parts succeed for everyone and the group keys agree. */
  method GenerateWithDkg(frost: Frost, params: MpcParams, coins: map<Identifier, nat>) returns (r: Option<GroupKeys>)
    requires params.total >= 1 && Numbered(params.total) <= coins.Keys
    requires RoutesToOthers(frost)
    ensures r.Some? ==> Generated(frost, params, coins, r.value)
    ensures r.None? ==> forall keys :: !Generated(frost, params, coins, keys)
  {
    var ok, secrets, publics := Round1(frost, params, coins);
    if !ok {
      return None;
    }
    var ok2, secrets2, inbox, sent := Round2(frost, params.total, secrets, publics);
    if !ok2 {
      Round2Failure(frost, params, coins, secrets, publics);
      return None;
    }
    var ok3, keys, groupPkp, pkps := Round3(frost, params.total, publics, secrets2, inbox, sent);
    if !ok3 {
      Round3Failure(frost, params, coins, secrets, publics, secrets2, sent);
      return None;
    }
    assert 1 in Numbered(params.total);
    assert RoundsCompleted(frost, params, coins, Rounds(secrets, publics, secrets2, sent, pkps),
      (keys, groupPkp.value));
    return Some((keys, groupPkp.value));
  }

  lemma Round2Failure(frost: Frost, params: MpcParams, coins: map<Identifier, nat>,
                      secrets: map<Identifier, Round1Secret>, publics: map<Identifier, Round1Package>)
    requires Round1Made(frost, params, coins, Numbered(params.total), secrets, publics)
    requires exists i :: i in secrets && frost.part2(secrets[i], Others(publics, i)).Err?
    ensures forall keys :: !Generated(frost, params, coins, keys)
  {
    forall keys, rounds | RoundsCompleted(frost, params, coins, rounds, keys) ensures false {
      Round1Unique(frost, params, coins, rounds, Rounds(secrets, publics, map[], map[], map[]));
    }
  }

  lemma Round3Failure(frost: Frost, params: MpcParams, coins: map<Identifier, nat>,
                      secrets: map<Identifier, Round1Secret>, publics: map<Identifier, Round1Package>,
                      secrets2: map<Identifier, Round2Secret>, sent: Sent)
    requires Round1Made(frost, params, coins, Numbered(params.total), secrets, publics)
    requires Round2Made(frost, secrets, publics, Numbered(params.total), secrets2, sent)
    requires Round3Broken(frost, publics, secrets2, sent)
    ensures forall keys :: !Generated(frost, params, coins, keys)
  {
    forall keys, rounds | RoundsCompleted(frost, params, coins, rounds, keys) ensures false {
      RoundsUnique(frost, params, coins, rounds, Rounds(secrets, publics, secrets2, sent, map[]));
      BrokenIsNotMade(frost, publics, secrets2, sent, keys.0, rounds.pkps);
    }
  }

  lemma BrokenIsNotMade(frost: Frost, publics: map<Identifier, Round1Package>, secrets2: map<Identifier, Round2Secret>,
                        sent: Sent, keys: map<Identifier, KeyPackage>, pkps: map<Identifier, PublicKeyPackage>)
    requires Round3Broken(frost, publics, secrets2, sent)
    requires SameVerifyingKey(pkps)
    ensures !Round3Made(frost, publics, secrets2, sent, secrets2.Keys, keys, pkps)
  {
    var i, j :| i in secrets2 && j in secrets2
      && var a, b := Part3For(frost, publics, secrets2, sent, i), Part3For(frost, publics, secrets2, sent, j);
         a.Err? || (b.Ok? && a.value.1.verifyingKey != b.value.1.verifyingKey);
  }
}
