/** The `events` table row (epicevents/app/models/event.py). */
module EventModel {
  import opened Wrappers
  import opened Rows
  import opened ClientModel
  import opened ContractModel

  datatype Event = Event(
    name: string,
    dateStart: int,
    dateEnd: int,
    location: string,
    attendees: int,
    notes: Option<string>,
    contractId: int,
    supportContactId: Option<int>)

  /** `Event(...)`: no support contact until one is assigned. */
  function NewEvent(name: string, contractId: int, dateStart: int, dateEnd: int, location: string,
                    attendees: int, notes: Option<string>, supportContactId: Option<int> := None): (e: Event)
    ensures e.name == name && e.contractId == contractId && e.dateStart == dateStart && e.dateEnd == dateEnd
    ensures e.location == location && e.attendees == attendees && e.notes == notes
    ensures e.supportContactId == supportContactId
  {
    Event(name, dateStart, dateEnd, location, attendees, notes, contractId, supportContactId)
  }

  lemma NewEventHasNoSupport(name: string, contractId: int, dateStart: int, dateEnd: int, location: string,
                             attendees: int, notes: Option<string>)
    ensures NewEvent(name, contractId, dateStart, dateEnd, location, attendees, notes).supportContactId == None
  {
  }

  /** `assign_support(u)`: the support contact is `u`; nothing else changes. */
  function AssignSupport(e: Event, supportUserId: int): (r: Event)
    ensures r.supportContactId == Some(supportUserId)
    ensures r.(supportContactId := e.supportContactId) == e
  {
    e.(supportContactId := Some(supportUserId))
  }

  /**
   * The `client` property: the client of the event's contract, when the
   * contract relationship resolves; `None` otherwise.
   */
  function EventClient(e: Event, contracts: map<int, Contract>, clients: map<int, Client>): (r: Option<Client>)
    ensures r.Some? <==> e.contractId in contracts && contracts[e.contractId].clientId in clients
    ensures r.Some? ==> r.value == clients[contracts[e.contractId].clientId]
  {
    if e.contractId in contracts then
      var clientId := contracts[e.contractId].clientId;
      if clientId in clients then Some(clients[clientId]) else None
    else None
  }

  /** The `client_contact` property: "name - email - phone" of the event's client. */
  function ClientContact(e: Event, contracts: map<int, Contract>, clients: map<int, Client>): (r: Option<string>)
    ensures r.None? <==> EventClient(e, contracts, clients).None?
    ensures r.Some? ==>
      var c := EventClient(e, contracts, clients).value;
      r.value == c.fullName + " - " + c.email + " - " + c.phone
  {
    match EventClient(e, contracts, clients)
    case Some(c) => Some(c.fullName + " - " + c.email + " - " + c.phone)
    case None => None
  }

  // ---------------------------------------------------------------------
  // Attribute access

  const EventColumns: set<string> :=
    {"name", "event_date_start", "event_date_end", "location", "attendees", "notes", "contract_id",
     "support_contact_id"}

  function EventFits(k: string, v: Value): bool {
    if k == "name" || k == "location" then v.Str?
    else if k == "event_date_start" || k == "event_date_end" || k == "attendees" || k == "contract_id" then v.Int?
    else if k == "notes" then v.Str? || v.Null?
    else if k == "support_contact_id" then v.Int? || v.Null?
    else false
  }

  function EventGet(e: Event, k: string): Value {
    if k == "name" then Str(e.name)
    else if k == "event_date_start" then Int(e.dateStart)
    else if k == "event_date_end" then Int(e.dateEnd)
    else if k == "location" then Str(e.location)
    else if k == "attendees" then Int(e.attendees)
    else if k == "notes" then (match e.notes case Some(n) => Str(n) case None => Null)
    else if k == "contract_id" then Int(e.contractId)
    else if k == "support_contact_id" then OptionalId(e.supportContactId)
    else Null
  }

  function EventPut(e: Event, k: string, v: Value): Event {
    if !EventFits(k, v) then e
    else if k == "name" then e.(name := v.s)
    else if k == "event_date_start" then e.(dateStart := v.i)
    else if k == "event_date_end" then e.(dateEnd := v.i)
    else if k == "location" then e.(location := v.s)
    else if k == "attendees" then e.(attendees := v.i)
    else if k == "notes" then e.(notes := if v.Str? then Some(v.s) else None)
    else if k == "contract_id" then e.(contractId := v.i)
    else e.(supportContactId := if v.Int? then Some(v.i) else None)
  }

  const EventSchema: Schema<Event> := Schema(EventColumns, EventFits, EventGet, EventPut)

  lemma EventSchemaLawful()
    ensures Lawful(EventSchema)
  {
  }

  /** One step of the kwargs loop for each column `update_event` passes. */
  lemma EventSetAttrSteps(e: Event, s: string, i: int)
    ensures SetAttr(EventSchema, e, ("name", Str(s))) == e.(name := s)
    ensures SetAttr(EventSchema, e, ("event_date_start", Int(i))) == e.(dateStart := i)
    ensures SetAttr(EventSchema, e, ("event_date_end", Int(i))) == e.(dateEnd := i)
    ensures SetAttr(EventSchema, e, ("location", Str(s))) == e.(location := s)
    ensures SetAttr(EventSchema, e, ("attendees", Int(i))) == e.(attendees := i)
    ensures SetAttr(EventSchema, e, ("notes", Str(s))) == e.(notes := Some(s))
  {
  }
}
