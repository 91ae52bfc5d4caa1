/**
 * `EventService` (epicevents/app/services/event_service.py): the event use
 * cases, each a fixed sequence of gates followed by a repository call.
 */
module EventService {
  import opened Wrappers
  import opened Rows
  import opened AuthModels
  import opened Errors
  import opened ContractModel
  import opened EventModel
  import opened BaseRepository
  import opened AuthService
  import EventRepo

  /**
   * `create_event(...)`, gates in order: the create-event permission (not
   * SUPPORT), the contract exists, it is signed, a COMMERCIAL caller owns
   * it. Then the event is stored with no support contact.
   */
  method CreateEvent(events: Table<Event>, contracts: Table<Contract>, name: string, contractId: int,
                     dateStart: int, dateEnd: int, location: string, attendees: int, notes: Option<string>,
                     me: Identity) returns (r: Result<(int, Event)>)
    requires events.Valid()
    modifies events
    ensures events.Valid()
    ensures r.Err? ==> events.rows == old(events.rows)
    ensures IsSupport(me.user) ==> r == Err(NoPermission("create", "events"))
    ensures !IsSupport(me.user) && contractId !in contracts.rows ==> r == Err(NotFound("Contract", contractId))
    ensures !IsSupport(me.user) && contractId in contracts.rows ==>
      var c := contracts.rows[contractId];
      && (!c.signed ==> r == Err(UnsignedContract))
      && (c.signed && IsCommercial(me.user) && c.commercialId != Some(me.id) ==> r == Err(NotOwner("create", "events")))
      && (c.signed && (IsManagement(me.user) || c.commercialId == Some(me.id)) ==>
            && r.Ok? && r.value.0 !in old(events.rows)
            && r.value.1 == NewEvent(name, contractId, dateStart, dateEnd, location, attendees, notes)
            && r.value.1.supportContactId.None?
            && events.rows == old(events.rows)[r.value.0 := r.value.1])
  {
    CreateRules(me.user, "event");
    if !HasPermission(me.user, "create", "event") {
      return Err(NoPermission("create", "events"));
    }
    var contract := contracts.GetById(contractId);
    if contract.None? {
      return Err(NotFound("Contract", contractId));
    }
    if !contract.value.signed {
      return Err(UnsignedContract);
    }
    if IsCommercial(me.user) {
      if contract.value.commercialId != Some(me.id) {
        return Err(NotOwner("create", "events"));
      }
    }
    var event := NewEvent(name, contractId, dateStart, dateEnd, location, attendees, notes);
    var id := events.Create(event);
    r := Ok((id, event));
  }

  /** Who may change an event: MANAGEMENT, or the SUPPORT user assigned to it. */
  predicate MayUpdateEvent(me: Identity, e: Event) {
    IsManagement(me.user) || (IsSupport(me.user) && e.supportContactId == Some(me.id))
  }

  /** The event after `update_event`'s changes: given fields replace old ones. */
  function EventAfterUpdate(e: Event, name: Option<string>, dateStart: Option<int>, dateEnd: Option<int>,
                            location: Option<string>, attendees: Option<int>, notes: Option<string>): (u: Event)
    ensures u.name == name.GetOr(e.name) && u.location == location.GetOr(e.location)
    ensures u.dateStart == dateStart.GetOr(e.dateStart) && u.dateEnd == dateEnd.GetOr(e.dateEnd)
    ensures u.attendees == attendees.GetOr(e.attendees)
    ensures u.notes == if notes.Some? then notes else e.notes
    ensures u.contractId == e.contractId && u.supportContactId == e.supportContactId
  {
    e.(name := name.GetOr(e.name), dateStart := dateStart.GetOr(e.dateStart), dateEnd := dateEnd.GetOr(e.dateEnd),
       location := location.GetOr(e.location), attendees := attendees.GetOr(e.attendees),
       notes := if notes.Some? then notes else e.notes)
  }

  /** The `update_data` dict of `update_event`: one entry per argument that is not `None`. */
  method EventUpdateData(e: Event, name: Option<string>, dateStart: Option<int>, dateEnd: Option<int>,
                         location: Option<string>, attendees: Option<int>, notes: Option<string>)
    returns (updateData: Kwargs)
    ensures ApplyKwargs(EventSchema, e, updateData) == EventAfterUpdate(e, name, dateStart, dateEnd, location, attendees, notes)
  {
    updateData := [];
    ghost var expected := e;
    if name.Some? {
      ApplyKwargsSnoc(EventSchema, e, updateData, ("name", Str(name.value)));
      EventSetAttrSteps(expected, name.value, 0);
      updateData := updateData + [("name", Str(name.value))];
      expected := expected.(name := name.value);
    }
    assert ApplyKwargs(EventSchema, e, updateData) == expected;
    if dateStart.Some? {
      ApplyKwargsSnoc(EventSchema, e, updateData, ("event_date_start", Int(dateStart.value)));
      EventSetAttrSteps(expected, "", dateStart.value);
      updateData := updateData + [("event_date_start", Int(dateStart.value))];
      expected := expected.(dateStart := dateStart.value);
    }
    assert ApplyKwargs(EventSchema, e, updateData) == expected;
    if dateEnd.Some? {
      ApplyKwargsSnoc(EventSchema, e, updateData, ("event_date_end", Int(dateEnd.value)));
      EventSetAttrSteps(expected, "", dateEnd.value);
      updateData := updateData + [("event_date_end", Int(dateEnd.value))];
      expected := expected.(dateEnd := dateEnd.value);
    }
    assert ApplyKwargs(EventSchema, e, updateData) == expected;
    if location.Some? {
      ApplyKwargsSnoc(EventSchema, e, updateData, ("location", Str(location.value)));
      EventSetAttrSteps(expected, location.value, 0);
      updateData := updateData + [("location", Str(location.value))];
      expected := expected.(location := location.value);
    }
    assert ApplyKwargs(EventSchema, e, updateData) == expected;
    if attendees.Some? {
      ApplyKwargsSnoc(EventSchema, e, updateData, ("attendees", Int(attendees.value)));
      EventSetAttrSteps(expected, "", attendees.value);
      updateData := updateData + [("attendees", Int(attendees.value))];
      expected := expected.(attendees := attendees.value);
    }
    assert ApplyKwargs(EventSchema, e, updateData) == expected;
    if notes.Some? {
      ApplyKwargsSnoc(EventSchema, e, updateData, ("notes", Str(notes.value)));
      EventSetAttrSteps(expected, notes.value, 0);
      updateData := updateData + [("notes", Str(notes.value))];
      expected := expected.(notes := notes);
    }
    assert ApplyKwargs(EventSchema, e, updateData) == expected;
  }

  /**
   * `update_event(event_id, ...)`, gates in order: the event exists; a
   * SUPPORT caller is its assigned contact, another non-MANAGEMENT caller
   * is refused. Then the fields given (not `None`) are written back.
   */
  method UpdateEvent(events: Table<Event>, eventId: int, me: Identity, name: Option<string>,
                     dateStart: Option<int>, dateEnd: Option<int>, location: Option<string>,
                     attendees: Option<int>, notes: Option<string>) returns (r: Result<Event>)
    requires events.Valid() && events.schema == EventSchema
    modifies events
    ensures events.Valid() && events.nextId == old(events.nextId)
    ensures r.Err? ==> events.rows == old(events.rows)
    ensures eventId !in old(events.rows) ==> r == Err(NotFound("Event", eventId))
    ensures eventId in old(events.rows) ==>
      var e := old(events.rows)[eventId];
      && (IsSupport(me.user) && e.supportContactId != Some(me.id) ==> r == Err(NotAssigned))
      && (IsCommercial(me.user) ==> r == Err(NoPermission("update", "events")))
      && (MayUpdateEvent(me, e) ==>
            r == Ok(EventAfterUpdate(e, name, dateStart, dateEnd, location, attendees, notes))
            && events.rows == old(events.rows)[eventId := r.value])
  {
    var found := events.GetById(eventId);
    if found.None? {
      return Err(NotFound("Event", eventId));
    }
    if IsSupport(me.user) {
      if found.value.supportContactId != Some(me.id) {
        return Err(NotAssigned);
      }
    } else if !IsManagement(me.user) {
      return Err(NoPermission("update", "events"));
    }
    var updateData := EventUpdateData(found.value, name, dateStart, dateEnd, location, attendees, notes);
    var updated := events.Update(eventId, updateData);
    r := Ok(updated.value);
  }

  // ---------------------------------------------------------------------
  // assign_support_contact

  /**
   * How `assign_support_contact` resolves the target as written: it hands
   * the integer id to `AuthService.get_current_user`, which expects a token;
   * decoding a value that is not a token string fails, so no payload and no
   * user come back, whatever the id.
   */
  function SupportTargetAsWritten(users: Table<User>, supportContactId: int): (r: Option<Identity>)
    reads users
    ensures r.None?
  {
    var payloadOfNonToken: Option<TokenData> := None;
    GetCurrentUser(users, payloadOfNonToken)
  }

  /** The evident intent: the user stored under that id. */
  function SupportTarget(users: Table<User>, supportContactId: int): (r: Option<Identity>)
    reads users
    ensures r.Some? <==> supportContactId in users.rows
    ensures r.Some? ==> r.value == Identity(supportContactId, users.rows[supportContactId])
  {
    match users.GetById(supportContactId)
    case Some(u) => Some(Identity(supportContactId, u))
    case None => None
  }

  /**
   * As written, every support user is rejected as "Invalid support contact
   * ID"; with the lookup by id the same user is accepted.
   */
  lemma AsWrittenRejectsEverySupportUser(users: Table<User>, supportContactId: int)
    requires supportContactId in users.rows && IsSupport(users.rows[supportContactId])
    ensures SupportTargetAsWritten(users, supportContactId).None?
    ensures SupportTarget(users, supportContactId).Some? && IsSupport(SupportTarget(users, supportContactId).value.user)
  {
  }

  /**
   * `assign_support_contact(event_id, support_contact_id)`, gates in order:
   * the caller is MANAGEMENT (before any lookup); the target user exists and
   * is SUPPORT (active or not); the event exists. Then the contact is set.
   */
  method AssignSupportContact(events: Table<Event>, users: Table<User>, eventId: int, supportContactId: int,
                              me: Identity) returns (r: Result<Event>)
    requires events.Valid()
    modifies events
    ensures events.Valid() && events.nextId == old(events.nextId)
    ensures r.Err? ==> events.rows == old(events.rows)
    ensures !IsManagement(me.user) ==> r == Err(ManagementOnly)
    ensures IsManagement(me.user) && (supportContactId !in users.rows || !IsSupport(users.rows[supportContactId])) ==>
      r == Err(InvalidSupportContact)
    ensures IsManagement(me.user) && supportContactId in users.rows && IsSupport(users.rows[supportContactId]) ==>
      && (eventId !in old(events.rows) ==> r == Err(NotFound("Event", eventId)))
      && (eventId in old(events.rows) ==>
            r == Ok(AssignSupport(old(events.rows)[eventId], supportContactId))
            && events.rows == old(events.rows)[eventId := r.value])
  {
    if !IsManagement(me.user) {
      return Err(ManagementOnly);
    }
    var supportUser := SupportTarget(users, supportContactId);
    if supportUser.None? || !IsSupport(supportUser.value.user) {
      return Err(InvalidSupportContact);
    }
    var event := events.GetById(eventId);
    if event.None? {
      return Err(NotFound("Event", eventId));
    }
    var updated := EventRepo.AssignSupportContact(events, eventId, supportContactId);
    r := Ok(updated.value);
  }

  /** `get_event(event_id)`: every department may read events, so the lookup always runs. */
  function GetEvent(events: Table<Event>, eventId: int, me: Identity): (r: Result<Option<Event>>)
    reads events
    ensures r.Ok?
    ensures r.value.Some? <==> eventId in events.rows
    ensures r.value.Some? ==> r.value.value == events.rows[eventId]
  {
    if !HasPermission(me.user, "read", "event") then Err(NoPermission("view", "events"))
    else Ok(events.GetById(eventId))
  }

  /**
   * `list_events(...)`: the first flag that holds picks the query — without
   * support, upcoming, past, a truthy contract id — then a SUPPORT caller's
   * assigned events, then the first page of `get_all()`.
   */
  method ListEvents(events: Table<Event>, me: Identity, withoutSupport: bool, upcomingOnly: bool, pastOnly: bool,
                    contractId: Option<int>, now: int) returns (r: Result<seq<(int, Event)>>)
    ensures r.Ok?
    ensures withoutSupport ==> Enumerates(r.value, EventRepo.WithoutSupport(events.rows))
    ensures !withoutSupport && upcomingOnly ==>
      && Enumerates(r.value, EventRepo.StartingAfter(events.rows, now))
      && forall i, j :: 0 <= i < j < |r.value| ==> r.value[i].1.dateStart <= r.value[j].1.dateStart
    ensures !withoutSupport && !upcomingOnly && pastOnly ==>
      && Enumerates(r.value, EventRepo.EndedBefore(events.rows, now))
      && forall i, j :: 0 <= i < j < |r.value| ==> r.value[i].1.dateEnd >= r.value[j].1.dateEnd
    ensures !withoutSupport && !upcomingOnly && !pastOnly && contractId.Some? && contractId.value != 0 ==>
      Enumerates(r.value, EventRepo.ByContract(events.rows, contractId.value))
    ensures !withoutSupport && !upcomingOnly && !pastOnly && (contractId.None? || contractId.value == 0) ==>
      && (IsSupport(me.user) ==> Enumerates(r.value, EventRepo.BySupportContact(events.rows, me.id)))
      && (!IsSupport(me.user) ==> IsPage(r.value, events.rows, 0, 100))
  {
    ReadRules(me.user);
    var s: seq<(int, Event)>;
    if !HasPermission(me.user, "read", "event") {
      return Err(NoPermission("view", "events"));
    } else if withoutSupport {
      s := ListOf(EventRepo.WithoutSupport(events.rows));
    } else if upcomingOnly {
      s := EventRepo.Upcoming(events.rows, now);
    } else if pastOnly {
      s := EventRepo.Past(events.rows, now);
    } else if contractId.Some? && contractId.value != 0 {
      s := ListOf(EventRepo.ByContract(events.rows, contractId.value));
    } else if IsSupport(me.user) {
      s := ListOf(EventRepo.BySupportContact(events.rows, me.id));
    } else {
      s := events.GetAll();
    }
    r := Ok(s);
  }

  /** `search_events_by_location(location)`: every event whose location contains the text. */
  method SearchEventsByLocation(events: Table<Event>, location: string, me: Identity)
    returns (r: Result<seq<(int, Event)>>)
    ensures r.Ok?
    ensures Enumerates(r.value, EventRepo.SearchByLocation(events.rows, location))
  {
    ReadRules(me.user);
    if !HasPermission(me.user, "read", "event") {
      r := Err(NoPermission("search", "events"));
    } else {
      var s := ListOf(EventRepo.SearchByLocation(events.rows, location));
      r := Ok(s);
    }
  }
}
