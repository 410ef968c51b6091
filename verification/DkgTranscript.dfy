/** The key generation transcript that a cast of participants determines once
    their randomness is fixed, whatever carries the messages. */
module Transcript {
  import opened Core
  import opened FrostSuite
  import opened Chain
  import opened Participants

  /** Who takes part: envelope keys and randomness, by identifier. */
  datatype Cast = Cast(params: MpcParams, secrets: map<Identifier, EncSecretKey>, tapes: map<Identifier, Tape>) {
    ghost predicate Valid() {
      && tapes.Keys == secrets.Keys
      && |secrets| == params.total
      && params.total >= 2 && params.threshold >= 1
    }
  }

  /** What the three FROST parts produce for one participant. */
  datatype Role = Role(
    secret1: Round1Secret, package1: Round1Package,
    secret2: Round2Secret, sent2: map<Identifier, Round2Package>,
    key: KeyPackage, pkp: PublicKeyPackage)

  datatype Script = Script(roles: map<Identifier, Role>) {
    /** Everyone addresses exactly the others. */
    ghost predicate Addressed() {
      forall i :: i in roles ==> roles[i].sent2.Keys == roles.Keys - {i}
    }

    /** All derived packages have the same verifying key and the same verifying shares. */
    ghost predicate Agrees() {
      forall i, j :: i in roles && j in roles ==>
        && roles[i].pkp.verifyingKey == roles[j].pkp.verifyingKey
        && roles[i].pkp.verifyingShares == roles[j].pkp.verifyingShares
    }

    /** All derived packages pass the comparison of the in-process protocol. */
    ghost predicate SharesVerifyingKey() {
      forall i, j :: i in roles && j in roles ==> roles[i].pkp.verifyingKey == roles[j].pkp.verifyingKey
    }

    ghost function Packages1(): map<Identifier, Round1Package> {
      map i | i in roles :: roles[i].package1
    }

    /** What everyone else sent to `i`. */
    ghost function Inbox(i: Identifier): map<Identifier, Round2Package>
      requires Addressed() && i in roles
    {
      map j | j in roles && j != i :: roles[j].sent2[i]
    }
  }

  ghost predicate FollowsPart1(frost: Frost, cast: Cast, script: Script, i: Identifier)
    requires i in cast.tapes && i in script.roles
  {
    frost.part1(i, cast.params, cast.tapes[i].part1) == Ok((script.roles[i].secret1, script.roles[i].package1))
  }

  ghost predicate FollowsPart2(frost: Frost, script: Script, i: Identifier)
    requires i in script.roles
  {
    frost.part2(script.roles[i].secret1, Others(script.Packages1(), i))
    == Ok((script.roles[i].secret2, script.roles[i].sent2))
  }

  ghost predicate FollowsPart3(frost: Frost, script: Script, i: Identifier)
    requires script.Addressed() && i in script.roles
  {
    frost.part3(script.roles[i].secret2, Others(script.Packages1(), i), script.Inbox(i))
    == Ok((script.roles[i].key, script.roles[i].pkp))
  }

  /** On these honest inputs the library completes: all three parts succeed, and
      every `part2` output addresses exactly the others. */
  ghost predicate Follows(frost: Frost, cast: Cast, script: Script) {
    && cast.Valid() && script.roles.Keys == cast.secrets.Keys
    && script.Addressed()
    && (forall i {:trigger FollowsPart1(frost, cast, script, i)} :: i in script.roles ==>
      FollowsPart1(frost, cast, script, i))
    && (forall i {:trigger FollowsPart2(frost, script, i)} :: i in script.roles ==> FollowsPart2(frost, script, i))
    && (forall i {:trigger FollowsPart3(frost, script, i)} :: i in script.roles ==> FollowsPart3(frost, script, i))
  }

  /** Sealing and encoding are inverted by opening and decoding. */
  ghost predicate EnvelopesOpen(frost: Frost) {
    && (forall coin, secret, bytes ::
          frost.open(secret, frost.seal(coin, frost.publicKey(secret), bytes)) == Some(bytes))
    && (forall pkg :: frost.decode(frost.encode(pkg)) == Some(pkg))
  }

  ghost function PublicKeys(frost: Frost, cast: Cast): map<Identifier, EncPublicKey> {
    map i | i in cast.secrets :: frost.publicKey(cast.secrets[i])
  }
}
