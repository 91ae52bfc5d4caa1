/**
 * `ContractRepository` (epicevents/app/repositories/contract_repo.py): the
 * contract queries as selections of the stored rows, and the two row
 * mutators applied through the table.
 */
module ContractRepo {
  import opened Wrappers
  import opened Rows
  import opened ContractModel
  import opened EventModel
  import opened BaseRepository

  /** `get_by_client(k)`: the contracts of client `k`. */
  function ByClient(rows: map<int, Contract>, clientId: int): (r: map<int, Contract>)
    ensures forall id :: id in r <==> id in rows && rows[id].clientId == clientId
    ensures forall id :: id in r ==> r[id] == rows[id]
  {
    map id | id in rows && rows[id].clientId == clientId :: rows[id]
  }

  /** `get_by_client(k)` is `filter_by(client_id=k)`. */
  lemma ByClientIsFilter(rows: map<int, Contract>, clientId: int)
    ensures ByClient(rows, clientId) == Select(ContractSchema, rows, [("client_id", Int(clientId))])
  {
    var kw := [("client_id", Int(clientId))];
    forall id | id in rows
      ensures MatchesAll(ContractSchema, rows[id], kw) <==> rows[id].clientId == clientId
    {
      assert kw[0] in kw;
    }
  }

  /** `get_by_commercial(c)`: the contracts whose commercial is `c`. */
  function ByCommercial(rows: map<int, Contract>, commercialId: int): (r: map<int, Contract>)
    ensures forall id :: id in r <==> id in rows && rows[id].commercialId == Some(commercialId)
    ensures forall id :: id in r ==> r[id] == rows[id]
  {
    map id | id in rows && rows[id].commercialId == Some(commercialId) :: rows[id]
  }

  /** `get_by_commercial(c)` is `filter_by(commercial_id=c)`. */
  lemma ByCommercialIsFilter(rows: map<int, Contract>, commercialId: int)
    ensures ByCommercial(rows, commercialId) == Select(ContractSchema, rows, [("commercial_id", Int(commercialId))])
  {
    var kw := [("commercial_id", Int(commercialId))];
    forall id | id in rows
      ensures MatchesAll(ContractSchema, rows[id], kw) <==> rows[id].commercialId == Some(commercialId)
    {
      assert kw[0] in kw;
    }
  }

  /** `get_unsigned_contracts()`: the contracts not yet signed. */
  function Unsigned(rows: map<int, Contract>): (r: map<int, Contract>)
    ensures forall id :: id in r <==> id in rows && !rows[id].signed
    ensures forall id :: id in r ==> r[id] == rows[id]
  {
    map id | id in rows && !rows[id].signed :: rows[id]
  }

  /** `get_unsigned_contracts()` is `filter_by(signed=False)`. */
  lemma UnsignedIsFilter(rows: map<int, Contract>)
    ensures Unsigned(rows) == Select(ContractSchema, rows, [("signed", Bool(false))])
  {
    var kw := [("signed", Bool(false))];
    forall id | id in rows
      ensures MatchesAll(ContractSchema, rows[id], kw) <==> !rows[id].signed
    {
      assert kw[0] in kw;
    }
  }

  /** `get_unpaid_contracts()`: the contracts with something still due. */
  function Unpaid(rows: map<int, Contract>): (r: map<int, Contract>)
    ensures forall id :: id in r <==> id in rows && rows[id].amountDue > 0
    ensures forall id :: id in r ==> r[id] == rows[id]
  {
    map id | id in rows && rows[id].amountDue > 0 :: rows[id]
  }

  /** A payment covering the total takes a contract off the unpaid list, and only such a payment does. */
  lemma PaymentSettles(rows: map<int, Contract>, id: int, amountPaid: int)
    requires id in rows
    ensures id !in Unpaid(rows[id := UpdatePayment(rows[id], amountPaid)])
      <==> amountPaid >= rows[id].totalAmount
  {
  }

  /**
   * `sign_contract(id)`: `None` and no change for an absent id; otherwise
   * that contract is signed and nothing else changes.
   */
  method SignContract(t: Table<Contract>, contractId: int) returns (r: Option<Contract>)
    requires t.Valid()
    modifies t
    ensures t.Valid() && t.nextId == old(t.nextId)
    ensures contractId !in old(t.rows) ==> r.None? && t.rows == old(t.rows)
    ensures contractId in old(t.rows) ==>
      && r == Some(Sign(old(t.rows)[contractId]))
      && t.rows == old(t.rows)[contractId := r.value]
  {
    r := t.GetById(contractId);
    if r.Some? {
      r := Some(Sign(r.value));
      t.Save(contractId, r.value);
    }
  }

  /**
   * `update_payment(id, p)`: `None` and no change for an absent id;
   * otherwise `Contract.update_payment(p)` on that row only.
   */
  method UpdatePaymentOf(t: Table<Contract>, contractId: int, amountPaid: int) returns (r: Option<Contract>)
    requires t.Valid()
    modifies t
    ensures t.Valid() && t.nextId == old(t.nextId)
    ensures contractId !in old(t.rows) ==> r.None? && t.rows == old(t.rows)
    ensures contractId in old(t.rows) ==>
      && r == Some(UpdatePayment(old(t.rows)[contractId], amountPaid))
      && t.rows == old(t.rows)[contractId := r.value]
  {
    r := t.GetById(contractId);
    if r.Some? {
      r := Some(UpdatePayment(r.value, amountPaid));
      t.Save(contractId, r.value);
    }
  }

  // ---------------------------------------------------------------------
  // get_contracts_with_events

  /**
   * The rows of `select(Contract).join(Event, isouter=True)` as (contract
   * id, event id) pairs: one per event of a contract, and one with no event
   * for a contract that has none.
   */
  function OuterJoin(contracts: map<int, Contract>, events: map<int, Event>): set<(int, Option<int>)> {
    (set cid, eid | cid in contracts && eid in events && events[eid].contractId == cid :: (cid, Some(eid)))
    + (set cid | cid in contracts && (forall eid :: eid in events ==> events[eid].contractId != cid) :: (cid, None))
  }

  /** `get_contracts_with_events()`: the distinct contracts of the outer join. */
  function WithEvents(contracts: map<int, Contract>, events: map<int, Event>): (r: map<int, Contract>)
    ensures forall cid :: cid in r ==> cid in contracts && r[cid] == contracts[cid]
  {
    var joined := OuterJoin(contracts, events);
    map cid | cid in contracts && (exists p :: p in joined && p.0 == cid) :: contracts[cid]
  }

  /** Because the join is an outer one, every contract is returned, with events or not. */
  lemma WithEventsIsEveryContract(contracts: map<int, Contract>, events: map<int, Event>)
    ensures WithEvents(contracts, events) == contracts
  {
    var joined := OuterJoin(contracts, events);
    forall cid | cid in contracts
      ensures exists p :: p in joined && p.0 == cid
    {
      if exists eid :: eid in events && events[eid].contractId == cid {
        var eid :| eid in events && events[eid].contractId == cid;
        assert (cid, Some(eid)) in joined;
      } else {
        assert (cid, None) in joined;
      }
    }
  }
}
