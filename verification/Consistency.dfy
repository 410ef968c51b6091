/** The laws assumed of FROST hold together: a toy suite satisfies all of them, and
    every cast of participants completes key generation with it. A variant shows
    where the two transports part. */
module Consistency {
  import opened Core
  import opened FrostSuite
  import opened Chain
  import opened Participants
  import opened Transcript
  import opened NonceCustody
  import opened InProcessDkg
  import opened TransportEquivalence
  import Sessions
  import SessionOutcome

  /** The package participant `id` derives: with `split`, everyone its own shares. */
  function ToyPkp(split: bool, id: Identifier): PublicKeyPackage {
    PublicKeyPackage(VerifyingKey(0), if split then map[id := 0] else map[], 0)
  }

  /** No secrecy at all: envelopes are tagged with the recipient's key. Signing and
      aggregation still refuse packages that do not fit. */
  ghost function Toy(split: bool): Frost {
    Frost(
      (key: KeyPackage, nonces: Nonces) => Commitments(nonces.draw),
      (pkg: SigningPackage, nonces: Nonces, key: KeyPackage, r: Randomizer) =>
        if |pkg.commitments| < key.minSigners then Err("too few commitments")
        else if key.identifier !in pkg.commitments || pkg.commitments[key.identifier].point != nonces.draw
        then Err("commitment is not ours")
        else Ok(Share(nonces.draw)),
      (pkg: SigningPackage, shares: map<Identifier, Share>, pkp: PublicKeyPackage, r: Randomizer) =>
        if shares.Keys != pkg.commitments.Keys then Err("shares do not match") else Ok(Signature(0)),
      (vk: VerifyingKey, r: Randomizer, message: Message, signature: Signature) => signature == Signature(0),
      (id: Identifier, params: MpcParams, coin: nat) => Ok((Round1Secret(id, params.threshold), Round1Package(coin))),
      (secret: Round1Secret, others: map<Identifier, Round1Package>) =>
        Ok((Round2Secret(secret.secret, secret.minSigners), map j | j in others :: Round2Package(secret.secret))),
      (secret: Round2Secret, others: map<Identifier, Round1Package>, received: map<Identifier, Round2Package>) =>
        Ok((KeyPackage(secret.secret, secret.minSigners, 0), ToyPkp(split, secret.secret))),
      (pkg: Round2Package) => [pkg.body],
      (bytes: Bytes) => if |bytes| == 1 then Some(Round2Package(bytes[0])) else None,
      (secret: EncSecretKey) => EncPublicKey(secret.scalar),
      (coin: nat, to: EncPublicKey, bytes: Bytes) => Sealed([to.point] + bytes),
      (secret: EncSecretKey, sealed: Sealed) =>
        if |sealed.bytes| > 0 && sealed.bytes[0] == secret.scalar then Some(sealed.bytes[1..]) else None)
  }

  lemma ToyEnvelopesOpen(split: bool)
    ensures EnvelopesOpen(Toy(split))
  {
    var frost := Toy(split);
    forall coin, secret, bytes
      ensures frost.open(secret, frost.seal(coin, frost.publicKey(secret), bytes)) == Some(bytes)
    {
      assert ([secret.scalar] + bytes)[1..] == bytes;
    }
  }

  lemma ToyFromRound1()
    ensures PkpFromRound1(Toy(false), _ => ToyPkp(false, 0))
  {
  }

  lemma ToySigns(x: Sessions.Session, message: Message, r: Randomizer)
    requires x.state.group.Some?
    ensures SignsOwnCommitment(Toy(false)) && AggregateSound(Toy(false))
    ensures SessionOutcome.AggregatesHonestShares(Toy(false), x, message, r)
  {
  }

  ghost function ToyScript(cast: Cast, split: bool): (script: Script)
    requires cast.Valid()
    ensures script.roles.Keys == cast.secrets.Keys && script.Addressed()
    ensures forall i :: i in script.roles ==> script.roles[i].pkp == ToyPkp(split, i)
  {
    Script(map i | i in cast.secrets :: Role(Round1Secret(i, cast.params.threshold), Round1Package(cast.tapes[i].part1),
                                             Round2Secret(i, cast.params.threshold),
                                             map j | j in cast.secrets.Keys - {i} :: Round2Package(i),
                                             KeyPackage(i, cast.params.threshold, 0), ToyPkp(split, i)))
  }

  lemma ToyPart2(cast: Cast, split: bool, script: Script, i: Identifier)
    requires cast.Valid() && script == ToyScript(cast, split) && i in script.roles
    ensures FollowsPart2(Toy(split), script, i)
  {
    var others := Others(script.Packages1(), i);
    assert others.Keys == cast.secrets.Keys - {i};
    assert script.roles[i].sent2 == map j | j in others :: Round2Package(i);
  }

  lemma ToyFollows(cast: Cast, split: bool)
    requires cast.Valid()
    ensures Follows(Toy(split), cast, ToyScript(cast, split))
  {
    var script := ToyScript(cast, split);
    forall i | i in script.roles ensures FollowsPart1(Toy(split), cast, script, i) {}
    forall i | i in script.roles ensures FollowsPart2(Toy(split), script, i) {
      ToyPart2(cast, split, script, i);
    }
    forall i | i in script.roles ensures FollowsPart3(Toy(split), script, i) {}
  }

  /** All assumptions of the project are jointly satisfiable, for every cast and
      every session. */
  lemma LawsHoldTogether(cast: Cast, x: Sessions.Session, message: Message, r: Randomizer)
    requires cast.Valid() && x.state.group.Some?
    ensures exists frost, script ::
      && Follows(frost, cast, script) && EnvelopesOpen(frost) && RoutesToOthers(frost)
      && (exists f :: PkpFromRound1(frost, f))
      && SignsOwnCommitment(frost) && AggregateSound(frost)
      && SessionOutcome.AggregatesHonestShares(frost, x, message, r)
  {
    ToyFollows(cast, false);
    ToyEnvelopesOpen(false);
    ToyFromRound1();
    ToySigns(x, message, r);
    assert RoutesToOthers(Toy(false));
  }

  /** The two comparisons are not the same: with an invented suite under which everyone
      derives its own verifying shares, the in-process protocol succeeds and no
      schedule of the ceremony over the chain is ever promoted. */
  lemma OnlyOneTransportSucceeds(cast: Cast)
    requires cast.Valid() && cast.secrets.Keys == Numbered(cast.params.total)
    ensures Succeeds(Toy(true), cast) && !CanPromote(Toy(true), cast)
  {
    ToyFollows(cast, true);
    ToyEnvelopesOpen(true);
    ToyDisagrees(cast, ToyScript(cast, true));
    TransportsPart(Toy(true), cast, ToyScript(cast, true));
  }

  lemma ToyDisagrees(cast: Cast, script: Script)
    requires cast.Valid() && cast.secrets.Keys == Numbered(cast.params.total) && script.roles.Keys == cast.secrets.Keys
    requires forall i :: i in script.roles ==> script.roles[i].pkp == ToyPkp(true, i)
    ensures 1 in script.roles && script.SharesVerifyingKey() && !script.Agrees()
  {
    assert 1 in script.roles && 2 in script.roles;
    assert 1 in ToyPkp(true, 1).verifyingShares && 1 !in ToyPkp(true, 2).verifyingShares;
    assert !SamePkp(script.roles[1].pkp, script.roles[2].pkp);
  }
}
