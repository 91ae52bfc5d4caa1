/**
 * `ClientRepository` (epicevents/app/repositories/client_repo.py): the
 * client queries as selections of the stored rows, and `assign_commercial`
 * on the table. Its `get_by_id` and `get_all` overrides only add eager
 * loading of the commercial and are `Table.GetById` and `Table.GetAll`.
 */
module ClientRepo {
  import opened Wrappers
  import opened Rows
  import opened ClientModel
  import opened BaseRepository

  /**
   * `get_by_email(email)`: `.first()` of the clients with that email, in an
   * order the database chooses; `None` when there is none.
   */
  method GetByEmail(rows: map<int, Client>, email: string) returns (r: Option<(int, Client)>)
    ensures r.None? <==> forall id :: id in rows ==> rows[id].email != email
    ensures r.Some? ==> r.value.0 in rows && rows[r.value.0] == r.value.1 && r.value.1.email == email
  {
    if exists id :: id in rows && rows[id].email == email {
      var id :| id in rows && rows[id].email == email;
      r := Some((id, rows[id]));
    } else {
      r := None;
    }
  }

  /** `get_by_commercial(c)`: the clients whose commercial is `c`. */
  function ByCommercial(rows: map<int, Client>, commercialId: int): (r: map<int, Client>)
    ensures forall id :: id in r <==> id in rows && rows[id].commercialId == Some(commercialId)
    ensures forall id :: id in r ==> r[id] == rows[id]
  {
    map id | id in rows && rows[id].commercialId == Some(commercialId) :: rows[id]
  }

  /** `get_by_commercial(c)` is `filter_by(commercial_id=c)`. */
  lemma ByCommercialIsFilter(rows: map<int, Client>, commercialId: int)
    ensures ByCommercial(rows, commercialId) == Select(ClientSchema, rows, [("commercial_id", Int(commercialId))])
  {
    var kw := [("commercial_id", Int(commercialId))];
    forall id | id in rows
      ensures MatchesAll(ClientSchema, rows[id], kw) <==> rows[id].commercialId == Some(commercialId)
    {
      assert kw[0] in kw;
    }
  }

  /** `search_by_name(q)`: the clients whose full name or company name contains `q`. */
  function SearchByName(rows: map<int, Client>, q: string): (r: map<int, Client>)
    ensures forall id :: id in r ==> id in rows && r[id] == rows[id]
  {
    map id | id in rows && (Contains(rows[id].fullName, q) || Contains(rows[id].companyName, q)) :: rows[id]
  }

  /** A client is found by name search exactly when `q` is a substring of either name. */
  lemma SearchByNameIsSubstring(rows: map<int, Client>, q: string, id: int)
    requires id in rows
    ensures id in SearchByName(rows, q) <==>
      (exists i :: OccursAt(rows[id].fullName, q, i)) || (exists i :: OccursAt(rows[id].companyName, q, i))
  {
    ContainsIffSubstring(rows[id].fullName, q);
    ContainsIffSubstring(rows[id].companyName, q);
  }

  /** The empty query matches every client. */
  lemma {:induction false} EmptySearchFindsAll(rows: map<int, Client>)
    ensures SearchByName(rows, "") == rows
  {
    forall id | id in rows
      ensures id in SearchByName(rows, "")
    {
      assert OccursAt(rows[id].fullName, "", 0);
      SearchByNameIsSubstring(rows, "", id);
    }
  }

  /** `get_clients_without_commercial()`: the clients with no commercial. */
  function WithoutCommercial(rows: map<int, Client>): (r: map<int, Client>)
    ensures forall id :: id in r <==> id in rows && rows[id].commercialId.None?
    ensures forall id :: id in r ==> r[id] == rows[id]
  {
    map id | id in rows && rows[id].commercialId.None? :: rows[id]
  }

  /** It is `filter_by(commercial_id=None)`, i.e. `commercial_id IS NULL`. */
  lemma WithoutCommercialIsFilter(rows: map<int, Client>)
    ensures WithoutCommercial(rows) == Select(ClientSchema, rows, [("commercial_id", Null)])
  {
    var kw := [("commercial_id", Null)];
    forall id | id in rows
      ensures MatchesAll(ClientSchema, rows[id], kw) <==> rows[id].commercialId.None?
    {
      assert kw[0] in kw;
    }
  }

  /** Every client has a commercial or has none, and not both. */
  lemma CommercialPartition(rows: map<int, Client>, commercialId: int, id: int)
    requires id in rows
    ensures id in WithoutCommercial(rows) ==> id !in ByCommercial(rows, commercialId)
    ensures id !in WithoutCommercial(rows) ==> id in ByCommercial(rows, rows[id].commercialId.value)
  {
  }

  /**
   * `assign_commercial(client_id, c)`: `None` and no change for an absent
   * id; otherwise that client's commercial becomes `c` and nothing else
   * changes.
   */
  method AssignCommercial(t: Table<Client>, clientId: int, commercialId: int) returns (r: Option<Client>)
    requires t.Valid()
    modifies t
    ensures t.Valid() && t.nextId == old(t.nextId)
    ensures clientId !in old(t.rows) ==> r.None? && t.rows == old(t.rows)
    ensures clientId in old(t.rows) ==>
      && r == Some(old(t.rows)[clientId].(commercialId := Some(commercialId)))
      && t.rows == old(t.rows)[clientId := r.value]
  {
    r := t.GetById(clientId);
    if r.Some? {
      r := Some(r.value.(commercialId := Some(commercialId)));
      t.Save(clientId, r.value);
    }
  }
}
