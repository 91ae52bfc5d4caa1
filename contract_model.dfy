/**
 * The `contracts` table row (epicevents/app/models/contract.py). Money is
 * `Decimal` with two places in the source and integer cents here.
 */
module ContractModel {
  import opened Wrappers
  import opened Rows

  datatype Contract = Contract(
    totalAmount: int,
    amountDue: int,
    createdAt: int,
    signed: bool,
    clientId: int,
    commercialId: Option<int>)

  /** `Contract(...)`: created `now`, unsigned unless stated otherwise. */
  function NewContract(clientId: int, totalAmount: int, amountDue: int, commercialId: Option<int>, now: int,
                       signed: bool := false): (c: Contract)
    ensures c.clientId == clientId && c.totalAmount == totalAmount && c.amountDue == amountDue
    ensures c.commercialId == commercialId && c.createdAt == now && c.signed == signed
  {
    Contract(totalAmount, amountDue, now, signed, clientId, commercialId)
  }

  /** A contract built without a `signed` value is unsigned. */
  lemma NewContractIsUnsigned(clientId: int, totalAmount: int, amountDue: int, commercialId: Option<int>, now: int)
    ensures !NewContract(clientId, totalAmount, amountDue, commercialId, now).signed
  {
  }

  /** The derived `amount_paid` property: what has been paid plus what is due makes the total. */
  function AmountPaid(c: Contract): (r: int)
    ensures r + c.amountDue == c.totalAmount
  {
    c.totalAmount - c.amountDue
  }

  /** `sign_contract()`: the contract is signed, whatever it was before; nothing else changes. */
  function Sign(c: Contract): (r: Contract)
    ensures r.signed
    ensures r.(signed := c.signed) == c
  {
    c.(signed := true)
  }

  /**
   * `update_payment(amount_paid)`: the amount due becomes what is left of the
   * TOTAL after `amount_paid`, never below zero. The argument is the amount
   * paid so far, not an instalment: the previous amount due plays no part.
   */
  function UpdatePayment(c: Contract, amountPaid: int): (r: Contract)
    ensures r.amountDue >= 0
    ensures r.amountDue >= c.totalAmount - amountPaid
    ensures r.amountDue == 0 || r.amountDue == c.totalAmount - amountPaid
    ensures r.(amountDue := c.amountDue) == c
  {
    var left := c.totalAmount - amountPaid;
    c.(amountDue := if left > 0 then left else 0)
  }

  /** After a payment, `amount_paid` is the payment, capped at the total. */
  lemma AmountPaidAfterPayment(c: Contract, amountPaid: int)
    ensures AmountPaid(UpdatePayment(c, amountPaid)) == Min(amountPaid, c.totalAmount)
    ensures AmountPaid(UpdatePayment(c, amountPaid)) + UpdatePayment(c, amountPaid).amountDue == c.totalAmount
  {
  }

  /** Two contracts with the same total end with the same amount due, whatever they owed before. */
  lemma PaymentIgnoresPreviousDue(c1: Contract, c2: Contract, amountPaid: int)
    requires c1.totalAmount == c2.totalAmount
    ensures UpdatePayment(c1, amountPaid).amountDue == UpdatePayment(c2, amountPaid).amountDue
  {
  }

  /** A second `update_payment` overrides the first. */
  lemma LatestPaymentWins(c: Contract, first: int, second: int)
    ensures UpdatePayment(UpdatePayment(c, first), second) == UpdatePayment(c, second)
  {
  }

  /** With a non-negative total and payment, the amount due stays within [0, total]. */
  lemma PaymentKeepsDueWithinTotal(c: Contract, amountPaid: int)
    requires c.totalAmount >= 0 && amountPaid >= 0
    ensures 0 <= UpdatePayment(c, amountPaid).amountDue <= c.totalAmount
  {
  }

  /**
   * A payment of 4000 on a 10000 contract that still owes 6000 leaves 6000
   * due: the amount is read as the total paid, not deducted from what is owed.
   */
  lemma PaymentIsNotDeducted()
    ensures var c := NewContract(1, 10000, 6000, None, 0);
      UpdatePayment(c, 4000).amountDue == 6000 && c.amountDue - 4000 == 2000
  {
  }

  // ---------------------------------------------------------------------
  // Attribute access

  const ContractColumns: set<string> :=
    {"total_amount", "amount_due", "created_at", "signed", "client_id", "commercial_id"}

  function ContractFits(k: string, v: Value): bool {
    if k == "total_amount" || k == "amount_due" || k == "created_at" || k == "client_id" then v.Int?
    else if k == "signed" then v.Bool?
    else if k == "commercial_id" then v.Int? || v.Null?
    else false
  }

  function ContractGet(c: Contract, k: string): Value {
    if k == "total_amount" then Int(c.totalAmount)
    else if k == "amount_due" then Int(c.amountDue)
    else if k == "created_at" then Int(c.createdAt)
    else if k == "signed" then Bool(c.signed)
    else if k == "client_id" then Int(c.clientId)
    else if k == "commercial_id" then OptionalId(c.commercialId)
    else Null
  }

  function ContractPut(c: Contract, k: string, v: Value): Contract {
    if !ContractFits(k, v) then c
    else if k == "total_amount" then c.(totalAmount := v.i)
    else if k == "amount_due" then c.(amountDue := v.i)
    else if k == "created_at" then c.(createdAt := v.i)
    else if k == "signed" then c.(signed := v.b)
    else if k == "client_id" then c.(clientId := v.i)
    else c.(commercialId := if v.Int? then Some(v.i) else None)
  }

  const ContractSchema: Schema<Contract> := Schema(ContractColumns, ContractFits, ContractGet, ContractPut)

  lemma ContractSchemaLawful()
    ensures Lawful(ContractSchema)
  {
  }

  /** One step of the kwargs loop for each column `update_contract` passes. */
  lemma ContractSetAttrSteps(c: Contract, i: int, b: bool)
    ensures SetAttr(ContractSchema, c, ("total_amount", Int(i))) == c.(totalAmount := i)
    ensures SetAttr(ContractSchema, c, ("amount_due", Int(i))) == c.(amountDue := i)
    ensures SetAttr(ContractSchema, c, ("signed", Bool(b))) == c.(signed := b)
  {
  }
}
