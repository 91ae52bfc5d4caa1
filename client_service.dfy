/**
 * `ClientService` (epicevents/app/services/client_service.py): the client
 * use cases, each a fixed sequence of gates followed by a repository call.
 * The caller is the `Identity` the guards injected as `current_user`.
 */
module ClientService {
  import opened Wrappers
  import opened Rows
  import opened AuthModels
  import opened Errors
  import opened ClientModel
  import opened BaseRepository
  import ClientRepo

  /**
   * `create_client(...)`: refused without the create-client permission
   * before anything is read; refused when a client already has the email;
   * otherwise the client is stored with the given commercial.
   */
  method CreateClient(clients: Table<Client>, fullName: string, email: string, phone: string, companyName: string,
                      commercialId: int, me: Identity, now: int) returns (r: Result<(int, Client)>)
    requires clients.Valid()
    modifies clients
    ensures clients.Valid()
    ensures !HasPermission(me.user, "create", "client") ==>
      r == Err(NoPermission("create", "clients")) && clients.rows == old(clients.rows)
    ensures HasPermission(me.user, "create", "client") &&
            (exists id :: id in old(clients.rows) && old(clients.rows)[id].email == email) ==>
      r == Err(EmailExists(email)) && clients.rows == old(clients.rows)
    ensures r.Ok? <==>
      HasPermission(me.user, "create", "client") &&
      forall id :: id in old(clients.rows) ==> old(clients.rows)[id].email != email
    ensures r.Ok? ==>
      && r.value.0 !in old(clients.rows)
      && r.value.1 == NewClient(fullName, email, phone, companyName, now, Some(commercialId))
      && clients.rows == old(clients.rows)[r.value.0 := r.value.1]
  {
    if !HasPermission(me.user, "create", "client") {
      return Err(NoPermission("create", "clients"));
    }
    var existing := ClientRepo.GetByEmail(clients.rows, email);
    if existing.Some? {
      return Err(EmailExists(email));
    }
    var client := NewClient(fullName, email, phone, companyName, now, Some(commercialId));
    var id := clients.Create(client);
    r := Ok((id, client));
  }

  /** Who may change a client: MANAGEMENT, or the COMMERCIAL it is assigned to. */
  predicate MayUpdateClient(me: Identity, c: Client) {
    IsManagement(me.user) || (IsCommercial(me.user) && c.commercialId == Some(me.id))
  }

  /** The client after `update_client`'s changes: given fields replace old ones; only MANAGEMENT reassigns. */
  function ClientAfterUpdate(c: Client, me: Identity, fullName: Option<string>, email: Option<string>,
                             phone: Option<string>, companyName: Option<string>, commercialId: Option<int>): (u: Client)
    ensures u.createdAt == c.createdAt && u.updatedAt == c.updatedAt
    ensures u.fullName == fullName.GetOr(c.fullName) && u.email == email.GetOr(c.email)
    ensures u.phone == phone.GetOr(c.phone) && u.companyName == companyName.GetOr(c.companyName)
    ensures u.commercialId == if IsManagement(me.user) && commercialId.Some? then commercialId else c.commercialId
  {
    c.(fullName := fullName.GetOr(c.fullName), email := email.GetOr(c.email), phone := phone.GetOr(c.phone),
       companyName := companyName.GetOr(c.companyName),
       commercialId := if IsManagement(me.user) && commercialId.Some? then commercialId else c.commercialId)
  }

  /**
   * The `update_data` dict of `update_client`, built key by key: one entry
   * per argument that is not `None`, `commercial_id` only for MANAGEMENT.
   * The kwargs loop turns it into `ClientAfterUpdate`.
   */
  method ClientUpdateData(c: Client, me: Identity, fullName: Option<string>, email: Option<string>,
                          phone: Option<string>, companyName: Option<string>, commercialId: Option<int>)
    returns (updateData: Kwargs)
    ensures ApplyKwargs(ClientSchema, c, updateData) == ClientAfterUpdate(c, me, fullName, email, phone, companyName, commercialId)
  {
    updateData := [];
    ghost var expected := c;
    if fullName.Some? {
      ApplyKwargsSnoc(ClientSchema, c, updateData, ("full_name", Str(fullName.value)));
      updateData := updateData + [("full_name", Str(fullName.value))];
      ClientSetAttrSteps(expected, fullName.value, 0);
      expected := expected.(fullName := fullName.value);
    }
    assert ApplyKwargs(ClientSchema, c, updateData) == expected;
    if email.Some? {
      ApplyKwargsSnoc(ClientSchema, c, updateData, ("email", Str(email.value)));
      updateData := updateData + [("email", Str(email.value))];
      ClientSetAttrSteps(expected, email.value, 0);
      expected := expected.(email := email.value);
    }
    assert ApplyKwargs(ClientSchema, c, updateData) == expected;
    if phone.Some? {
      ApplyKwargsSnoc(ClientSchema, c, updateData, ("phone", Str(phone.value)));
      updateData := updateData + [("phone", Str(phone.value))];
      ClientSetAttrSteps(expected, phone.value, 0);
      expected := expected.(phone := phone.value);
    }
    assert ApplyKwargs(ClientSchema, c, updateData) == expected;
    if companyName.Some? {
      ApplyKwargsSnoc(ClientSchema, c, updateData, ("company_name", Str(companyName.value)));
      updateData := updateData + [("company_name", Str(companyName.value))];
      ClientSetAttrSteps(expected, companyName.value, 0);
      expected := expected.(companyName := companyName.value);
    }
    assert ApplyKwargs(ClientSchema, c, updateData) == expected;
    if commercialId.Some? && IsManagement(me.user) {
      ApplyKwargsSnoc(ClientSchema, c, updateData, ("commercial_id", Int(commercialId.value)));
      updateData := updateData + [("commercial_id", Int(commercialId.value))];
      ClientSetAttrSteps(expected, "", commercialId.value);
      expected := expected.(commercialId := commercialId);
    }
    assert ApplyKwargs(ClientSchema, c, updateData) == expected;
  }

  /**
   * `update_client(client_id, ...)`, gates in order: the client exists; a
   * COMMERCIAL caller owns it, another non-MANAGEMENT caller is refused; a
   * new, non-empty email that differs from the current one is not held by
   * any client. Then the fields given (not `None`) are written back through
   * `BaseRepository.update`, which leaves `updated_at` alone.
   */
  method UpdateClient(clients: Table<Client>, clientId: int, me: Identity, fullName: Option<string>,
                      email: Option<string>, phone: Option<string>, companyName: Option<string>,
                      commercialId: Option<int>) returns (r: Result<Client>)
    requires clients.Valid() && clients.schema == ClientSchema
    modifies clients
    ensures clients.Valid() && clients.nextId == old(clients.nextId)
    ensures r.Err? ==> clients.rows == old(clients.rows)
    ensures clientId !in old(clients.rows) ==> r == Err(NotFound("Client", clientId))
    ensures clientId in old(clients.rows) ==>
      var c := old(clients.rows)[clientId];
      && (IsCommercial(me.user) && c.commercialId != Some(me.id) ==> r == Err(NotOwner("update", "clients")))
      && (IsSupport(me.user) ==> r == Err(NoPermission("update", "clients")))
      && (MayUpdateClient(me, c) && email.Some? && email.value != "" && email.value != c.email &&
          (exists id :: id in old(clients.rows) && old(clients.rows)[id].email == email.value)
          ==> r == Err(EmailInUse(email.value)))
      && (MayUpdateClient(me, c) &&
          (email.None? || email.value == "" || email.value == c.email ||
           forall id :: id in old(clients.rows) ==> old(clients.rows)[id].email != email.value)
          ==> r == Ok(ClientAfterUpdate(c, me, fullName, email, phone, companyName, commercialId))
              && clients.rows == old(clients.rows)[clientId := r.value])
  {
    var found := clients.GetById(clientId);
    if found.None? {
      return Err(NotFound("Client", clientId));
    }
    var client := found.value;
    if IsCommercial(me.user) {
      if client.commercialId != Some(me.id) {
        return Err(NotOwner("update", "clients"));
      }
    } else if !IsManagement(me.user) {
      return Err(NoPermission("update", "clients"));
    }
    if email.Some? && email.value != "" && email.value != client.email {
      var existing := ClientRepo.GetByEmail(clients.rows, email.value);
      if existing.Some? {
        return Err(EmailInUse(email.value));
      }
    }
    var updateData := ClientUpdateData(client, me, fullName, email, phone, companyName, commercialId);
    var updated := clients.Update(clientId, updateData);
    r := Ok(updated.value);
  }

  /** `get_client(client_id)`: every department may read clients, so the lookup always runs. */
  function GetClient(clients: Table<Client>, clientId: int, me: Identity): (r: Result<Option<Client>>)
    reads clients
    ensures r.Ok?
    ensures r.value.Some? <==> clientId in clients.rows
    ensures r.value.Some? ==> r.value.value == clients.rows[clientId]
  {
    if !HasPermission(me.user, "read", "client") then Err(NoPermission("view", "clients"))
    else Ok(clients.GetById(clientId))
  }

  /**
   * `list_clients(current_user, filter_commercial_id)`: a truthy filter id
   * selects that commercial's clients; otherwise a COMMERCIAL caller gets
   * their own; anyone else gets the first page of `get_all()`.
   */
  method ListClients(clients: Table<Client>, me: Identity, filterCommercialId: Option<int>)
    returns (r: Result<seq<(int, Client)>>)
    ensures r.Ok?
    ensures filterCommercialId.Some? && filterCommercialId.value != 0 ==>
      Enumerates(r.value, ClientRepo.ByCommercial(clients.rows, filterCommercialId.value))
    ensures (filterCommercialId.None? || filterCommercialId.value == 0) && IsCommercial(me.user) ==>
      Enumerates(r.value, ClientRepo.ByCommercial(clients.rows, me.id))
    ensures (filterCommercialId.None? || filterCommercialId.value == 0) && !IsCommercial(me.user) ==>
      IsPage(r.value, clients.rows, 0, 100)
  {
    ReadRules(me.user);
    if !HasPermission(me.user, "read", "client") {
      r := Err(NoPermission("view", "clients"));
    } else if filterCommercialId.Some? && filterCommercialId.value != 0 {
      var s := ListOf(ClientRepo.ByCommercial(clients.rows, filterCommercialId.value));
      r := Ok(s);
    } else if IsCommercial(me.user) {
      var s := ListOf(ClientRepo.ByCommercial(clients.rows, me.id));
      r := Ok(s);
    } else {
      var s := clients.GetAll();
      r := Ok(s);
    }
  }

  /** `search_clients(query)`: every client whose full name or company name contains the query. */
  method SearchClients(clients: Table<Client>, query: string, me: Identity) returns (r: Result<seq<(int, Client)>>)
    ensures r.Ok?
    ensures Enumerates(r.value, ClientRepo.SearchByName(clients.rows, query))
  {
    ReadRules(me.user);
    if !HasPermission(me.user, "read", "client") {
      r := Err(NoPermission("search", "clients"));
    } else {
      var s := ListOf(ClientRepo.SearchByName(clients.rows, query));
      r := Ok(s);
    }
  }
}
