/**
 * `ContractService` (epicevents/app/services/contract_service.py): the
 * contract use cases, each a fixed sequence of gates followed by a
 * repository call.
 */
module ContractService {
  import opened Wrappers
  import opened Rows
  import opened AuthModels
  import opened Errors
  import opened ClientModel
  import opened ContractModel
  import opened BaseRepository
  import ContractRepo

  /**
   * `create_contract(...)`: refused without the create-contract permission
   * (only MANAGEMENT has it) before anything is read; refused when the
   * client does not exist; otherwise an unsigned contract is stored.
   */
  method CreateContract(contracts: Table<Contract>, clients: Table<Client>, clientId: int, totalAmount: int,
                        amountDue: int, commercialId: int, me: Identity, now: int) returns (r: Result<(int, Contract)>)
    requires contracts.Valid()
    modifies contracts
    ensures contracts.Valid()
    ensures r.Err? ==> contracts.rows == old(contracts.rows)
    ensures !IsManagement(me.user) ==> r == Err(NoPermission("create", "contracts"))
    ensures IsManagement(me.user) && clientId !in clients.rows ==> r == Err(NotFound("Client", clientId))
    ensures r.Ok? <==> IsManagement(me.user) && clientId in clients.rows
    ensures r.Ok? ==>
      && r.value.0 !in old(contracts.rows)
      && r.value.1 == NewContract(clientId, totalAmount, amountDue, Some(commercialId), now, false)
      && !r.value.1.signed
      && contracts.rows == old(contracts.rows)[r.value.0 := r.value.1]
  {
    CreateRules(me.user, "contract");
    if !HasPermission(me.user, "create", "contract") {
      return Err(NoPermission("create", "contracts"));
    }
    var client := clients.GetById(clientId);
    if client.None? {
      return Err(NotFound("Client", clientId));
    }
    var contract := NewContract(clientId, totalAmount, amountDue, Some(commercialId), now, false);
    var id := contracts.Create(contract);
    r := Ok((id, contract));
  }

  /** Who may change a contract: MANAGEMENT, or the COMMERCIAL it belongs to. */
  predicate MayChangeContract(me: Identity, c: Contract) {
    IsManagement(me.user) || (IsCommercial(me.user) && c.commercialId == Some(me.id))
  }

  /**
   * The ownership gate shared by update, sign and payment: a COMMERCIAL
   * caller must own the contract, any other non-MANAGEMENT caller is
   * refused. The message names the operation.
   */
  function OwnershipRefusal(me: Identity, c: Contract, action: string, noun: string): (f: Option<Failure>)
    ensures f.None? <==> MayChangeContract(me, c)
    ensures IsCommercial(me.user) && f.Some? ==> f.value == NotOwner(action, noun)
    ensures IsSupport(me.user) ==> f == Some(NoPermission(action, noun))
  {
    if IsCommercial(me.user) then
      if c.commercialId != Some(me.id) then Some(NotOwner(action, noun)) else None
    else if !IsManagement(me.user) then Some(NoPermission(action, noun))
    else None
  }

  /** The contract after `update_contract`'s changes; `signed` can be set back to false. */
  function ContractAfterUpdate(c: Contract, totalAmount: Option<int>, amountDue: Option<int>, signed: Option<bool>): (u: Contract)
    ensures u.totalAmount == totalAmount.GetOr(c.totalAmount) && u.amountDue == amountDue.GetOr(c.amountDue)
    ensures u.signed == signed.GetOr(c.signed)
    ensures u.clientId == c.clientId && u.commercialId == c.commercialId && u.createdAt == c.createdAt
  {
    c.(totalAmount := totalAmount.GetOr(c.totalAmount), amountDue := amountDue.GetOr(c.amountDue),
       signed := signed.GetOr(c.signed))
  }

  /** The `update_data` dict of `update_contract`: one entry per argument that is not `None`. */
  method ContractUpdateData(c: Contract, totalAmount: Option<int>, amountDue: Option<int>, signed: Option<bool>)
    returns (updateData: Kwargs)
    ensures ApplyKwargs(ContractSchema, c, updateData) == ContractAfterUpdate(c, totalAmount, amountDue, signed)
  {
    updateData := [];
    ghost var expected := c;
    if totalAmount.Some? {
      ApplyKwargsSnoc(ContractSchema, c, updateData, ("total_amount", Int(totalAmount.value)));
      ContractSetAttrSteps(expected, totalAmount.value, false);
      updateData := updateData + [("total_amount", Int(totalAmount.value))];
      expected := expected.(totalAmount := totalAmount.value);
    }
    assert ApplyKwargs(ContractSchema, c, updateData) == expected;
    if amountDue.Some? {
      ApplyKwargsSnoc(ContractSchema, c, updateData, ("amount_due", Int(amountDue.value)));
      ContractSetAttrSteps(expected, amountDue.value, false);
      updateData := updateData + [("amount_due", Int(amountDue.value))];
      expected := expected.(amountDue := amountDue.value);
    }
    assert ApplyKwargs(ContractSchema, c, updateData) == expected;
    if signed.Some? {
      ApplyKwargsSnoc(ContractSchema, c, updateData, ("signed", Bool(signed.value)));
      ContractSetAttrSteps(expected, 0, signed.value);
      updateData := updateData + [("signed", Bool(signed.value))];
      expected := expected.(signed := signed.value);
    }
    assert ApplyKwargs(ContractSchema, c, updateData) == expected;
  }

  /**
   * `update_contract(contract_id, ...)`: the contract exists, then the
   * ownership gate; then the fields given (not `None`) are written back,
   * `signed=False` included.
   */
  method UpdateContract(contracts: Table<Contract>, contractId: int, me: Identity, totalAmount: Option<int>,
                        amountDue: Option<int>, signed: Option<bool>) returns (r: Result<Contract>)
    requires contracts.Valid() && contracts.schema == ContractSchema
    modifies contracts
    ensures contracts.Valid() && contracts.nextId == old(contracts.nextId)
    ensures r.Err? ==> contracts.rows == old(contracts.rows)
    ensures contractId !in old(contracts.rows) ==> r == Err(NotFound("Contract", contractId))
    ensures contractId in old(contracts.rows) ==>
      var c := old(contracts.rows)[contractId];
      && (!MayChangeContract(me, c) ==> r == Err(OwnershipRefusal(me, c, "update", "contracts").value))
      && (MayChangeContract(me, c) ==>
            r == Ok(ContractAfterUpdate(c, totalAmount, amountDue, signed))
            && contracts.rows == old(contracts.rows)[contractId := r.value])
  {
    var found := contracts.GetById(contractId);
    if found.None? {
      return Err(NotFound("Contract", contractId));
    }
    var refusal := OwnershipRefusal(me, found.value, "update", "contracts");
    if refusal.Some? {
      return Err(refusal.value);
    }
    var updateData := ContractUpdateData(found.value, totalAmount, amountDue, signed);
    var updated := contracts.Update(contractId, updateData);
    r := Ok(updated.value);
  }

  /**
   * `sign_contract(contract_id)`, gates in order: the contract exists, the
   * ownership gate, the contract is not yet signed. Then it is signed. (The
   * audit log entry is not modelled.)
   */
  method SignContract(contracts: Table<Contract>, contractId: int, me: Identity) returns (r: Result<Contract>)
    requires contracts.Valid()
    modifies contracts
    ensures contracts.Valid() && contracts.nextId == old(contracts.nextId)
    ensures r.Err? ==> contracts.rows == old(contracts.rows)
    ensures contractId !in old(contracts.rows) ==> r == Err(NotFound("Contract", contractId))
    ensures contractId in old(contracts.rows) ==>
      var c := old(contracts.rows)[contractId];
      && (!MayChangeContract(me, c) ==> r == Err(OwnershipRefusal(me, c, "sign", "contracts").value))
      && (MayChangeContract(me, c) && c.signed ==> r == Err(AlreadySigned))
      && (MayChangeContract(me, c) && !c.signed ==>
            r == Ok(Sign(c)) && contracts.rows == old(contracts.rows)[contractId := r.value])
    ensures r.Ok? ==> contracts.rows[contractId].signed
  {
    var found := contracts.GetById(contractId);
    if found.None? {
      return Err(NotFound("Contract", contractId));
    }
    var refusal := OwnershipRefusal(me, found.value, "sign", "contracts");
    if refusal.Some? {
      return Err(refusal.value);
    }
    if found.value.signed {
      return Err(AlreadySigned);
    }
    var signed := ContractRepo.SignContract(contracts, contractId);
    r := Ok(signed.value);
  }

  /**
   * `update_payment(contract_id, amount_paid)`: the contract exists, the
   * ownership gate; then `Contract.update_payment` on it.
   */
  method UpdatePayment(contracts: Table<Contract>, contractId: int, amountPaid: int, me: Identity)
    returns (r: Result<Contract>)
    requires contracts.Valid()
    modifies contracts
    ensures contracts.Valid() && contracts.nextId == old(contracts.nextId)
    ensures r.Err? ==> contracts.rows == old(contracts.rows)
    ensures contractId !in old(contracts.rows) ==> r == Err(NotFound("Contract", contractId))
    ensures contractId in old(contracts.rows) ==>
      var c := old(contracts.rows)[contractId];
      && (!MayChangeContract(me, c) ==> r == Err(OwnershipRefusal(me, c, "update", "payments").value))
      && (MayChangeContract(me, c) ==>
            r == Ok(ContractModel.UpdatePayment(c, amountPaid))
            && contracts.rows == old(contracts.rows)[contractId := r.value])
  {
    var found := contracts.GetById(contractId);
    if found.None? {
      return Err(NotFound("Contract", contractId));
    }
    var refusal := OwnershipRefusal(me, found.value, "update", "payments");
    if refusal.Some? {
      return Err(refusal.value);
    }
    var paid := ContractRepo.UpdatePaymentOf(contracts, contractId, amountPaid);
    r := Ok(paid.value);
  }

  /** `get_contract(contract_id)`: every department may read contracts, so the lookup always runs. */
  function GetContract(contracts: Table<Contract>, contractId: int, me: Identity): (r: Result<Option<Contract>>)
    reads contracts
    ensures r.Ok?
    ensures r.value.Some? <==> contractId in contracts.rows
    ensures r.value.Some? ==> r.value.value == contracts.rows[contractId]
  {
    if !HasPermission(me.user, "read", "contract") then Err(NoPermission("view", "contracts"))
    else Ok(contracts.GetById(contractId))
  }

  /**
   * `list_contracts(...)`: the first flag that holds picks the query —
   * unsigned only, unpaid only, a truthy client id — then a COMMERCIAL
   * caller's own contracts, then the first page of `get_all()`.
   */
  method ListContracts(contracts: Table<Contract>, me: Identity, unsignedOnly: bool, unpaidOnly: bool,
                       clientId: Option<int>) returns (r: Result<seq<(int, Contract)>>)
    ensures r.Ok?
    ensures unsignedOnly ==> Enumerates(r.value, ContractRepo.Unsigned(contracts.rows))
    ensures !unsignedOnly && unpaidOnly ==> Enumerates(r.value, ContractRepo.Unpaid(contracts.rows))
    ensures !unsignedOnly && !unpaidOnly && clientId.Some? && clientId.value != 0 ==>
      Enumerates(r.value, ContractRepo.ByClient(contracts.rows, clientId.value))
    ensures !unsignedOnly && !unpaidOnly && (clientId.None? || clientId.value == 0) && IsCommercial(me.user) ==>
      Enumerates(r.value, ContractRepo.ByCommercial(contracts.rows, me.id))
    ensures !unsignedOnly && !unpaidOnly && (clientId.None? || clientId.value == 0) && !IsCommercial(me.user) ==>
      IsPage(r.value, contracts.rows, 0, 100)
  {
    ReadRules(me.user);
    var s: seq<(int, Contract)>;
    if !HasPermission(me.user, "read", "contract") {
      return Err(NoPermission("view", "contracts"));
    } else if unsignedOnly {
      s := ListOf(ContractRepo.Unsigned(contracts.rows));
    } else if unpaidOnly {
      s := ListOf(ContractRepo.Unpaid(contracts.rows));
    } else if clientId.Some? && clientId.value != 0 {
      s := ListOf(ContractRepo.ByClient(contracts.rows, clientId.value));
    } else if IsCommercial(me.user) {
      s := ListOf(ContractRepo.ByCommercial(contracts.rows, me.id));
    } else {
      s := contracts.GetAll();
    }
    r := Ok(s);
  }
}
