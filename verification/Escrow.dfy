/** The escrow release predicate and the signing policies built on it. */
module Escrow {
  import opened Core

  datatype Address = Address(text: string)
  datatype EscrowId = EscrowId(bytes: seq<nat>)
  datatype Witness = Witness(bytes: seq<nat>)

  datatype EscrowTerms = EscrowTerms(
    escrowId: EscrowId, amount: nat, payee: Address, refundTo: Address, timeoutHeight: nat, condition: seq<nat>)

  datatype PaymentLeg = PaymentLeg(amount: nat, to: Address)
  datatype SettlementIntent = SettlementIntent(payment: PaymentLeg, evidence: Witness)
  datatype ReleaseProposal = ReleaseProposal(escrowId: EscrowId, intent: SettlementIntent)

  datatype EscrowError =
    | AmountMismatch(want: nat, got: nat)
    | PayeeMismatch
    | ConditionNotMet

  type Verifier = (EscrowTerms, Witness) -> bool

  function ValidateSettlement(terms: EscrowTerms, intent: SettlementIntent,
                              verify: Verifier): (r: Result<(), EscrowError>)
    ensures r.Ok? <==> Honours(terms, intent, verify)
    ensures r.Err? && r.error.AmountMismatch? <==> terms.amount != intent.payment.amount
    ensures r.Err? && r.error.AmountMismatch? ==> r.error.want == terms.amount && r.error.got == intent.payment.amount
    ensures r == Err(PayeeMismatch) <==> terms.amount == intent.payment.amount && intent.payment.to != terms.payee
    ensures r == Err(ConditionNotMet) ==> !verify(terms, intent.evidence)
  {
    if intent.payment.amount != terms.amount then Err(AmountMismatch(terms.amount, intent.payment.amount))
    else if intent.payment.to != terms.payee then Err(PayeeMismatch)
    else if !verify(terms, intent.evidence) then Err(ConditionNotMet)
    else Ok(())
  }

  /** The release pays exactly what the terms hold, to the agreed payee, with a
      witness the verifier accepts. */
  predicate Honours(terms: EscrowTerms, intent: SettlementIntent, verify: Verifier) {
    intent.payment == PaymentLeg(terms.amount, terms.payee) && verify(terms, intent.evidence)
  }

  datatype PolicyError = NotAProposal | UnknownEscrow(id: EscrowId) | Refused(error: EscrowError)

  /** `parse` is JSON decoding of the signed message, `verify` the injected
      condition verifier; both belong to the node that runs the policy. */
  datatype Policy =
    | AcceptAll
    | EscrowPolicy(escrows: map<EscrowId, EscrowTerms>, verify: Verifier, parse: Message -> Option<ReleaseProposal>)
  {
    /** Every registered escrow is filed under its own id. */
    ghost predicate Filed() {
      EscrowPolicy? ==> forall id :: id in escrows ==> escrows[id].escrowId == id
    }

    function WithEscrow(terms: EscrowTerms): (p: Policy)
      requires EscrowPolicy?
      ensures p.EscrowPolicy? && p.verify == verify && p.parse == parse
      ensures p.escrows == escrows[terms.escrowId := terms]
      ensures Filed() ==> p.Filed()
    {
      this.(escrows := escrows[terms.escrowId := terms])
    }

    function Approve(message: Message): Result<(), PolicyError> {
      match this
      case AcceptAll => Ok(())
      case EscrowPolicy(escrows, verify, parse) =>
        match parse(message)
        case None => Err(NotAProposal)
        case Some(proposal) =>
          if proposal.escrowId !in escrows then Err(UnknownEscrow(proposal.escrowId)) else
          match ValidateSettlement(escrows[proposal.escrowId], proposal.intent, verify)
          case Ok(_) => Ok(())
          case Err(e) => Err(Refused(e))
    }

    predicate Approves(message: Message) {
      Approve(message).Ok?
    }
  }

  /** Why a message is refused: under an escrow policy, it is no proposal, names no
      registered escrow, or fails one of its terms, the first of which is named. */
  lemma RefusalReason(p: Policy, message: Message, e: PolicyError)
    ensures p.Approve(message) == Err(e) <==> p.EscrowPolicy? && Reason(p, message, e)
  {
  }

  predicate Reason(p: Policy, message: Message, e: PolicyError)
    requires p.EscrowPolicy?
  {
    match e
    case NotAProposal => p.parse(message).None?
    case UnknownEscrow(id) => p.parse(message).Some? && p.parse(message).value.escrowId == id && id !in p.escrows
    case Refused(error) =>
      && p.parse(message).Some? && p.parse(message).value.escrowId in p.escrows
      && var proposal := p.parse(message).value;
         FirstFailure(p.escrows[proposal.escrowId], proposal.intent, p.verify, error)
  }

  /** `e` names the first term that `intent` fails, in the order amount, payee, condition. */
  predicate FirstFailure(terms: EscrowTerms, intent: SettlementIntent, verify: Verifier, e: EscrowError) {
    match e
    case AmountMismatch(want, got) => want == terms.amount && got == intent.payment.amount && want != got
    case PayeeMismatch => intent.payment.amount == terms.amount && intent.payment.to != terms.payee
    case ConditionNotMet =>
      intent.payment == PaymentLeg(terms.amount, terms.payee) && !verify(terms, intent.evidence)
  }

  /** The default policy approves every message; an escrow policy exactly those that
      parse to a release honouring this node's own terms for the escrow they name. */
  lemma ApproveIff(p: Policy, message: Message)
    requires p.Filed()
    ensures p.AcceptAll? ==> p.Approves(message)
    ensures p.EscrowPolicy? ==>
      (p.Approves(message) <==>
        exists terms: EscrowTerms, intent: SettlementIntent ::
          && p.parse(message) == Some(ReleaseProposal(terms.escrowId, intent))
          && terms.escrowId in p.escrows && p.escrows[terms.escrowId] == terms
          && Honours(terms, intent, p.verify))
  {
    if p.EscrowPolicy? && p.Approves(message) {
      var proposal := p.parse(message).value;
      var terms := p.escrows[proposal.escrowId];
      assert p.parse(message) == Some(ReleaseProposal(terms.escrowId, proposal.intent));
    }
  }
}
