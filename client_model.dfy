/** The `clients` table row (epicevents/app/models/client.py). */
module ClientModel {
  import opened Wrappers
  import opened Rows

  datatype Client = Client(
    fullName: string,
    email: string,
    phone: string,
    companyName: string,
    createdAt: int,
    updatedAt: int,
    commercialId: Option<int>)

  /** `Client(...)`: both timestamps `now`; no commercial unless one is given. */
  function NewClient(fullName: string, email: string, phone: string, companyName: string, now: int,
                     commercialId: Option<int> := None): (c: Client)
    ensures c.fullName == fullName && c.email == email && c.phone == phone && c.companyName == companyName
    ensures c.createdAt == now && c.updatedAt == now
    ensures c.commercialId == commercialId
  {
    Client(fullName, email, phone, companyName, now, now, commercialId)
  }

  /** A client built without a commercial has none. */
  lemma NewClientHasNoCommercial(fullName: string, email: string, phone: string, companyName: string, now: int)
    ensures NewClient(fullName, email, phone, companyName, now).commercialId == None
  {
  }

  // ---------------------------------------------------------------------
  // Attribute access

  const ClientColumns: set<string> :=
    {"full_name", "email", "phone", "company_name", "created_at", "updated_at", "commercial_id"}

  function ClientFits(k: string, v: Value): bool {
    if k == "full_name" || k == "email" || k == "phone" || k == "company_name" then v.Str?
    else if k == "created_at" || k == "updated_at" then v.Int?
    else if k == "commercial_id" then v.Int? || v.Null?
    else false
  }

  function ClientGet(c: Client, k: string): Value {
    if k == "full_name" then Str(c.fullName)
    else if k == "email" then Str(c.email)
    else if k == "phone" then Str(c.phone)
    else if k == "company_name" then Str(c.companyName)
    else if k == "created_at" then Int(c.createdAt)
    else if k == "updated_at" then Int(c.updatedAt)
    else if k == "commercial_id" then OptionalId(c.commercialId)
    else Null
  }

  function ClientPut(c: Client, k: string, v: Value): Client {
    if !ClientFits(k, v) then c
    else if k == "full_name" then c.(fullName := v.s)
    else if k == "email" then c.(email := v.s)
    else if k == "phone" then c.(phone := v.s)
    else if k == "company_name" then c.(companyName := v.s)
    else if k == "created_at" then c.(createdAt := v.i)
    else if k == "updated_at" then c.(updatedAt := v.i)
    else c.(commercialId := if v.Int? then Some(v.i) else None)
  }

  const ClientSchema: Schema<Client> := Schema(ClientColumns, ClientFits, ClientGet, ClientPut)

  lemma ClientSchemaLawful()
    ensures Lawful(ClientSchema)
  {
  }

  /** One step of the kwargs loop for each column `update_client` passes. */
  lemma ClientSetAttrSteps(c: Client, s: string, i: int)
    ensures SetAttr(ClientSchema, c, ("full_name", Str(s))) == c.(fullName := s)
    ensures SetAttr(ClientSchema, c, ("email", Str(s))) == c.(email := s)
    ensures SetAttr(ClientSchema, c, ("phone", Str(s))) == c.(phone := s)
    ensures SetAttr(ClientSchema, c, ("company_name", Str(s))) == c.(companyName := s)
    ensures SetAttr(ClientSchema, c, ("commercial_id", Int(i))) == c.(commercialId := Some(i))
  {
  }

  /**
   * `Client.update(**kwargs)`: the kwargs loop, then `updated_at` is the
   * current time. Every other column holds the last non-`None` value given
   * for it and keeps its old value otherwise; unknown keys change nothing.
   */
  method Update(c: Client, kw: Kwargs, now: int) returns (updated: Client)
    ensures updated == ApplyKwargs(ClientSchema, c, kw).(updatedAt := now)
    ensures updated.updatedAt == now
    ensures forall k :: k in ClientColumns && k != "updated_at" ==>
      ClientGet(updated, k) == LastSet(ClientSchema, kw, k).GetOr(ClientGet(c, k))
  {
    updated := SetAttrs(ClientSchema, c, kw);
    ghost var looped := updated;
    updated := updated.(updatedAt := now);
    ClientSchemaLawful();
    forall k | k in ClientColumns && k != "updated_at"
      ensures ClientGet(updated, k) == LastSet(ClientSchema, kw, k).GetOr(ClientGet(c, k))
    {
      ApplyKwargsFieldwise(ClientSchema, c, kw, k);
      assert ClientGet(updated, k) == ClientGet(looped, k);
    }
  }
}
