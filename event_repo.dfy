/**
 * `EventRepository` (epicevents/app/repositories/event_repo.py): the event
 * queries as selections of the stored rows (the two time-relative ones
 * ordered, with `now` passed in), and `assign_support_contact` on the table.
 */
module EventRepo {
  import opened Wrappers
  import opened Rows
  import opened EventModel
  import opened BaseRepository

  /** `get_by_contract(k)`: the events of contract `k`. */
  function ByContract(rows: map<int, Event>, contractId: int): (r: map<int, Event>)
    ensures forall id :: id in r <==> id in rows && rows[id].contractId == contractId
    ensures forall id :: id in r ==> r[id] == rows[id]
  {
    map id | id in rows && rows[id].contractId == contractId :: rows[id]
  }

  /** `get_by_contract(k)` is `filter_by(contract_id=k)`. */
  lemma ByContractIsFilter(rows: map<int, Event>, contractId: int)
    ensures ByContract(rows, contractId) == Select(EventSchema, rows, [("contract_id", Int(contractId))])
  {
    var kw := [("contract_id", Int(contractId))];
    forall id | id in rows
      ensures MatchesAll(EventSchema, rows[id], kw) <==> rows[id].contractId == contractId
    {
      assert kw[0] in kw;
    }
  }

  /** `get_by_support_contact(u)`: the events assigned to `u`. */
  function BySupportContact(rows: map<int, Event>, supportId: int): (r: map<int, Event>)
    ensures forall id :: id in r <==> id in rows && rows[id].supportContactId == Some(supportId)
    ensures forall id :: id in r ==> r[id] == rows[id]
  {
    map id | id in rows && rows[id].supportContactId == Some(supportId) :: rows[id]
  }

  /** `get_by_support_contact(u)` is `filter_by(support_contact_id=u)`. */
  lemma BySupportContactIsFilter(rows: map<int, Event>, supportId: int)
    ensures BySupportContact(rows, supportId) == Select(EventSchema, rows, [("support_contact_id", Int(supportId))])
  {
    var kw := [("support_contact_id", Int(supportId))];
    forall id | id in rows
      ensures MatchesAll(EventSchema, rows[id], kw) <==> rows[id].supportContactId == Some(supportId)
    {
      assert kw[0] in kw;
    }
  }

  /** `get_events_without_support()`: the events nobody is assigned to. */
  function WithoutSupport(rows: map<int, Event>): (r: map<int, Event>)
    ensures forall id :: id in r <==> id in rows && rows[id].supportContactId.None?
    ensures forall id :: id in r ==> r[id] == rows[id]
  {
    map id | id in rows && rows[id].supportContactId.None? :: rows[id]
  }

  /** Once support is assigned, the event leaves the without-support list and joins the assignee's. */
  lemma AssignmentMovesEvent(rows: map<int, Event>, id: int, supportId: int)
    requires id in rows
    ensures var after := rows[id := AssignSupport(rows[id], supportId)];
      id !in WithoutSupport(after) && id in BySupportContact(after, supportId)
  {
  }

  /** The events starting strictly after `now`. */
  function StartingAfter(rows: map<int, Event>, now: int): (r: map<int, Event>)
    ensures forall id :: id in r <==> id in rows && rows[id].dateStart > now
    ensures forall id :: id in r ==> r[id] == rows[id]
  {
    map id | id in rows && rows[id].dateStart > now :: rows[id]
  }

  /** The events ending strictly before `now`. */
  function EndedBefore(rows: map<int, Event>, now: int): (r: map<int, Event>)
    ensures forall id :: id in r <==> id in rows && rows[id].dateEnd < now
    ensures forall id :: id in r ==> r[id] == rows[id]
  {
    map id | id in rows && rows[id].dateEnd < now :: rows[id]
  }

  /** `get_upcoming_events()`: every event starting after `now`, earliest start first. */
  method Upcoming(rows: map<int, Event>, now: int) returns (s: seq<(int, Event)>)
    ensures Enumerates(s, StartingAfter(rows, now))
    ensures forall i, j :: 0 <= i < j < |s| ==> s[i].1.dateStart <= s[j].1.dateStart
  {
    s := OrderedBy(StartingAfter(rows, now), (e: Event) => e.dateStart);
  }

  /** `get_past_events()`: every event that ended before `now`, latest end first. */
  method Past(rows: map<int, Event>, now: int) returns (s: seq<(int, Event)>)
    ensures Enumerates(s, EndedBefore(rows, now))
    ensures forall i, j :: 0 <= i < j < |s| ==> s[i].1.dateEnd >= s[j].1.dateEnd
  {
    s := OrderedBy(EndedBefore(rows, now), (e: Event) => -e.dateEnd);
  }

  /** `get_events_in_date_range(a, b)`: the events lying wholly within [a, b]. */
  function InDateRange(rows: map<int, Event>, startDate: int, endDate: int): (r: map<int, Event>)
    ensures forall id :: id in r <==> id in rows && startDate <= rows[id].dateStart && rows[id].dateEnd <= endDate
    ensures forall id :: id in r ==> r[id] == rows[id]
  {
    map id | id in rows && rows[id].dateStart >= startDate && rows[id].dateEnd <= endDate :: rows[id]
  }

  /** Widening the range never loses an event. */
  lemma WiderRangeKeepsEvents(rows: map<int, Event>, a: int, b: int, a': int, b': int)
    requires a' <= a && b <= b'
    ensures InDateRange(rows, a, b).Keys <= InDateRange(rows, a', b').Keys
  {
  }

  /** `search_by_location(q)`: the events whose location contains `q`. */
  function SearchByLocation(rows: map<int, Event>, q: string): (r: map<int, Event>)
    ensures forall id :: id in r ==> id in rows && r[id] == rows[id]
  {
    map id | id in rows && Contains(rows[id].location, q) :: rows[id]
  }

  /** An event is found by location exactly when `q` is a substring of its location. */
  lemma SearchByLocationIsSubstring(rows: map<int, Event>, q: string, id: int)
    requires id in rows
    ensures id in SearchByLocation(rows, q) <==> exists i :: OccursAt(rows[id].location, q, i)
  {
    ContainsIffSubstring(rows[id].location, q);
  }

  /**
   * `assign_support_contact(id, u)`: `None` and no change for an absent id;
   * otherwise `Event.assign_support(u)` on that row only.
   */
  method AssignSupportContact(t: Table<Event>, eventId: int, supportId: int) returns (r: Option<Event>)
    requires t.Valid()
    modifies t
    ensures t.Valid() && t.nextId == old(t.nextId)
    ensures eventId !in old(t.rows) ==> r.None? && t.rows == old(t.rows)
    ensures eventId in old(t.rows) ==>
      && r == Some(AssignSupport(old(t.rows)[eventId], supportId))
      && t.rows == old(t.rows)[eventId := r.value]
  {
    r := t.GetById(eventId);
    if r.Some? {
      r := Some(AssignSupport(r.value, supportId));
      t.Save(eventId, r.value);
    }
  }
}
