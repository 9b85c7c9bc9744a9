/** The event endpoints: create, list published, read one, update, deactivate
    and delete. */
module EventsApi {
  import opened Common
  import opened Models
  import opened Database
  import opened ListView

  /** The body of a create request (`EventCreate`). */
  datatype EventInput = EventInput(
    title: string,
    description: string,
    startTime: int,
    endTime: int,
    location: string,
    eventType: EventType,
    capacity: int)

  /** `create_event`: 403 unless the caller is a manager (approved or not) or
      an admin; otherwise a new published, active event organised by the
      caller, under the next free id. */
  method CreateEvent(db: Db, callerId: int, input: EventInput) returns (r: Result<EventRecord>)
    requires db.Valid() && callerId in db.users
    modifies db
    ensures db.Valid()
    ensures db.users == old(db.users) && db.registrations == old(db.registrations)
    ensures r.Err? <==> old(db.users)[callerId].role == User
    ensures r.Err? ==> r.error == HttpError(403, "Not enough permissions") && db.events == old(db.events)
    ensures r.Ok? ==>
      && r.value == EventRecord(old(db.nextEventId), input.title, input.description, input.startTime,
                                input.endTime, input.location, input.eventType, input.capacity,
                                Published, true, callerId)
      && r.value.id !in old(db.events)
      && db.events == old(db.events)[r.value.id := r.value]
  {
    var caller := db.users[callerId];
    if caller.role != Manager && caller.role != Admin {
      return Err(HttpError(403, "Not enough permissions"));
    }
    var event := DefaultEvent(db.nextEventId, input.title, input.description, input.startTime,
                              input.endTime, input.location, input.eventType, input.capacity,
                              callerId).(status := Published);
    InsertEventKeepsTables(db.users, db.nextUserId, db.events, db.nextEventId,
                           db.registrations, db.nextRegistrationId, event);
    db.Commit(db.users, db.nextUserId, db.events[event.id := event], db.nextEventId + 1,
              db.registrations, db.nextRegistrationId);
    r := Ok(event);
  }

  /** The published events, in id order. */
  function PublishedEvents(events: map<int, EventRecord>, hi: int): (r: seq<EventRecord>)
    ensures forall e :: e in r <==> exists k :: 1 <= k < hi && k in events && events[k] == e && e.status == Published
  {
    Filter(InKeyOrder(events, 1, hi), (e: EventRecord) => e.status == Published)
  }

  /** `read_events`: the published events in id order, `skip` of them
      skipped and at most `limit` of them returned. Nothing changes. */
  method ReadEvents(db: Db, skip: nat, limit: nat) returns (r: seq<EventRecord>)
    requires db.Valid()
    ensures r == Window(PublishedEvents(db.events, db.nextEventId), skip, limit)
    ensures |r| <= limit
    ensures forall e :: e in r ==> e.id in db.events && db.events[e.id] == e && e.status == Published
    ensures skip == 0 && limit >= |PublishedEvents(db.events, db.nextEventId)| ==>
      forall id :: id in db.events && db.events[id].status == Published ==> db.events[id] in r
  {
    var published := PublishedEvents(db.events, db.nextEventId);
    r := Window(published, skip, limit);
    forall e | e in r
      ensures e.id in db.events && db.events[e.id] == e && e.status == Published
    {
      var i :| 0 <= i < |r| && r[i] == e;
      assert e in published;
    }
    if skip == 0 && limit >= |published| {
      assert r == published;
      forall id | id in db.events && db.events[id].status == Published
        ensures db.events[id] in r
      {
        assert 1 <= id < db.nextEventId;
      }
    }
  }

  /** `read_event`: the event, or 404. Inactive and unpublished events are
      returned too. */
  function ReadEvent(events: map<int, EventRecord>, eventId: int): (r: Result<EventRecord>)
    ensures r.Ok? <==> eventId in events
    ensures r.Ok? ==> r.value == events[eventId]
    ensures r.Err? ==> r.error == HttpError(404, "Event not found")
  {
    if eventId in events then Ok(events[eventId]) else Err(HttpError(404, "Event not found"))
  }

  /** The columns an update may set (`EventUpdate`). */
  datatype EventField = Title | Description | StartTime | EndTime | Location | Type | Capacity | Status

  /** One supplied field of an update with its (non-null) value. */
  datatype Assignment =
    | SetTitle(title: string)
    | SetDescription(description: string)
    | SetStartTime(startTime: int)
    | SetEndTime(endTime: int)
    | SetLocation(location: string)
    | SetEventType(eventType: EventType)
    | SetCapacity(capacity: int)
    | SetStatus(status: EventStatus)

  function FieldOf(a: Assignment): EventField
  {
    match a
    case SetTitle(_) => Title
    case SetDescription(_) => Description
    case SetStartTime(_) => StartTime
    case SetEndTime(_) => EndTime
    case SetLocation(_) => Location
    case SetEventType(_) => Type
    case SetCapacity(_) => Capacity
    case SetStatus(_) => Status
  }

  /** `setattr(event, field, value)`. */
  function Assign(e: EventRecord, a: Assignment): EventRecord
  {
    match a
    case SetTitle(v) => e.(title := v)
    case SetDescription(v) => e.(description := v)
    case SetStartTime(v) => e.(startTime := v)
    case SetEndTime(v) => e.(endTime := v)
    case SetLocation(v) => e.(location := v)
    case SetEventType(v) => e.(eventType := v)
    case SetCapacity(v) => e.(capacity := v)
    case SetStatus(v) => e.(status := v)
  }

  /** `e` holds the value `a` assigns. */
  predicate Holds(e: EventRecord, a: Assignment)
  {
    match a
    case SetTitle(v) => e.title == v
    case SetDescription(v) => e.description == v
    case SetStartTime(v) => e.startTime == v
    case SetEndTime(v) => e.endTime == v
    case SetLocation(v) => e.location == v
    case SetEventType(v) => e.eventType == v
    case SetCapacity(v) => e.capacity == v
    case SetStatus(v) => e.status == v
  }

  /** `e` and `e'` agree on column `f`. */
  predicate SameField(e: EventRecord, e': EventRecord, f: EventField)
  {
    match f
    case Title => e.title == e'.title
    case Description => e.description == e'.description
    case StartTime => e.startTime == e'.startTime
    case EndTime => e.endTime == e'.endTime
    case Location => e.location == e'.location
    case Type => e.eventType == e'.eventType
    case Capacity => e.capacity == e'.capacity
    case Status => e.status == e'.status
  }

  /** The supplied fields of a request body: each field at most once. */
  predicate DistinctFields(patch: seq<Assignment>)
  {
    forall i, j :: 0 <= i < j < |patch| ==> FieldOf(patch[i]) != FieldOf(patch[j])
  }

  /** The event after the assignments of `patch`, in order. */
  function Patched(e: EventRecord, patch: seq<Assignment>): (p: EventRecord)
    ensures p.id == e.id && p.isActive == e.isActive && p.organizerId == e.organizerId
  {
    if patch == [] then e else Assign(Patched(e, patch[..|patch| - 1]), patch[|patch| - 1])
  }

  /** Every supplied field holds its supplied value after the update. */
  lemma {:induction false} PatchedHolds(e: EventRecord, patch: seq<Assignment>, i: nat)
    requires DistinctFields(patch) && i < |patch|
    ensures Holds(Patched(e, patch), patch[i])
  {
    var n := |patch| - 1;
    var prefix := patch[..n];
    if i < n {
      assert DistinctFields(prefix);
      PatchedHolds(e, prefix, i);
      assert prefix[i] == patch[i];
      assert FieldOf(patch[i]) != FieldOf(patch[n]);
    }
  }

  /** A field the update does not supply keeps its value. */
  lemma {:induction false} PatchedKeeps(e: EventRecord, patch: seq<Assignment>, f: EventField)
    requires forall i :: 0 <= i < |patch| ==> FieldOf(patch[i]) != f
    ensures SameField(Patched(e, patch), e, f)
  {
    if patch != [] {
      var prefix := patch[..|patch| - 1];
      PatchedKeeps(e, prefix, f);
      assert FieldOf(patch[|patch| - 1]) != f;
    }
  }

  /** `update_event`: 404 for an unknown event, 403 unless the caller organises
      it or is an admin; otherwise the `setattr` loop applies the supplied
      fields. Nothing else changes. */
  method UpdateEvent(db: Db, callerId: int, eventId: int, patch: seq<Assignment>)
    returns (r: Result<EventRecord>)
    requires db.Valid() && callerId in db.users && DistinctFields(patch)
    modifies db
    ensures db.Valid()
    ensures db.users == old(db.users) && db.registrations == old(db.registrations)
    ensures eventId !in old(db.events) ==> r == Err(HttpError(404, "Event not found"))
    ensures eventId in old(db.events) && old(db.events)[eventId].organizerId != callerId
            && old(db.users)[callerId].role != Admin ==>
      r == Err(HttpError(403, "Not enough permissions"))
    ensures r.Ok? <==> (eventId in old(db.events)
      && (old(db.events)[eventId].organizerId == callerId || old(db.users)[callerId].role == Admin))
    ensures r.Err? ==> db.events == old(db.events)
    ensures r.Ok? ==>
      && r.value == Patched(old(db.events)[eventId], patch)
      && db.events == old(db.events)[eventId := r.value]
  {
    if eventId !in db.events {
      return Err(HttpError(404, "Event not found"));
    }
    var event := db.events[eventId];
    if event.organizerId != callerId && db.users[callerId].role != Admin {
      return Err(HttpError(403, "Not enough permissions"));
    }
    ghost var original := event;
    for i := 0 to |patch|
      invariant event == Patched(original, patch[..i])
    {
      assert patch[..i + 1][..i] == patch[..i];
      event := Assign(event, patch[i]);
    }
    assert patch[..|patch|] == patch;
    ReplaceEventKeepsTables(db.users, db.nextUserId, db.events, db.nextEventId,
                            db.registrations, db.nextRegistrationId, event);
    db.Commit(db.users, db.nextUserId, db.events[eventId := event], db.nextEventId,
              db.registrations, db.nextRegistrationId);
    r := Ok(event);
  }

  /** `deactivate_event`: 403 for anyone but an admin (checked before the
      event is looked up), then 404 for an unknown event; otherwise only that
      event's `is_active` becomes false. */
  method DeactivateEvent(db: Db, callerId: int, eventId: int) returns (r: Result<EventRecord>)
    requires db.Valid() && callerId in db.users
    modifies db
    ensures db.Valid()
    ensures db.users == old(db.users) && db.registrations == old(db.registrations)
    ensures old(db.users)[callerId].role != Admin ==>
      r == Err(HttpError(403, "Only admins can deactivate events"))
    ensures old(db.users)[callerId].role == Admin && eventId !in old(db.events) ==>
      r == Err(HttpError(404, "Event not found"))
    ensures r.Ok? <==> old(db.users)[callerId].role == Admin && eventId in old(db.events)
    ensures r.Err? ==> db.events == old(db.events)
    ensures r.Ok? ==>
      && r.value == old(db.events)[eventId].(isActive := false)
      && db.events == old(db.events)[eventId := r.value]
  {
    if db.users[callerId].role != Admin {
      return Err(HttpError(403, "Only admins can deactivate events"));
    }
    if eventId !in db.events {
      return Err(HttpError(404, "Event not found"));
    }
    var event := db.events[eventId].(isActive := false);
    ReplaceEventKeepsTables(db.users, db.nextUserId, db.events, db.nextEventId,
                            db.registrations, db.nextRegistrationId, event);
    db.Commit(db.users, db.nextUserId, db.events[eventId := event], db.nextEventId,
              db.registrations, db.nextRegistrationId);
    r := Ok(event);
  }

  /** The registrations once event `eventId` is gone: those that pointed at
      it point at nothing; every other column and every other row is kept. */
  function Orphaned(regs: map<int, RegistrationRecord>, eventId: int): (after: map<int, RegistrationRecord>)
    ensures after.Keys == regs.Keys
    ensures forall id :: id in regs ==>
      after[id] == if regs[id].eventId == Some(eventId) then regs[id].(eventId := None) else regs[id]
  {
    map id | id in regs :: if regs[id].eventId == Some(eventId) then regs[id].(eventId := None) else regs[id]
  }

  /** Orphaning the registrations of a removed event keeps the
      registrations table valid against the remaining events. */
  lemma OrphanedKeepsRegistrations(regs: map<int, RegistrationRecord>, nextReg: int,
                                   users: map<int, UserRecord>, events: map<int, EventRecord>, eventId: int)
    requires RegistrationsTable(regs, nextReg, users, events)
    ensures RegistrationsTable(Orphaned(regs, eventId), nextReg, users, events - {eventId})
  {
    var after := Orphaned(regs, eventId);
    forall a, b | a in after && b in after && a != b && after[a].userId == after[b].userId
                  && after[a].eventId.Some?
      ensures after[a].eventId != after[b].eventId
    {
      assert regs[a].eventId == after[a].eventId;
    }
    forall a, b | a in after && b in after && a != b && after[a].confirmationId.Some?
      ensures after[a].confirmationId != after[b].confirmationId
    {
      assert regs[a].confirmationId == after[a].confirmationId;
      assert regs[b].confirmationId == after[b].confirmationId;
    }
  }

  /** Removing an event, with its registrations orphaned and the next id
      recomputed, keeps every table valid. */
  lemma DeleteKeepsTables(users: map<int, UserRecord>, nextUser: int,
                          events: map<int, EventRecord>, nextEvent: int,
                          regs: map<int, RegistrationRecord>, nextReg: int, eventId: int)
    requires Tables(users, nextUser, events, nextEvent, regs, nextReg)
    ensures Tables(users, nextUser, events - {eventId}, NextKey(events - {eventId}, nextEvent),
                   Orphaned(regs, eventId), nextReg)
  {
    OrphanedKeepsRegistrations(regs, nextReg, users, events, eventId);
  }

  /** `delete_event`: 404 for an unknown event, 403 for anyone but its
      organiser (admins included); otherwise the event row is removed and the
      registrations that pointed at it are kept with no event. The next event
      id falls back to one past the largest remaining one, so deleting the
      newest event frees its id for the next event created. */
  method DeleteEvent(db: Db, callerId: int, eventId: int) returns (r: Result<EventRecord>)
    requires db.Valid() && callerId in db.users
    modifies db
    ensures db.Valid()
    ensures db.users == old(db.users)
    ensures eventId !in old(db.events) ==> r == Err(HttpError(404, "Event not found"))
    ensures eventId in old(db.events) && old(db.events)[eventId].organizerId != callerId ==>
      r == Err(HttpError(403, "Only event organizer can delete"))
    ensures r.Ok? <==> eventId in old(db.events) && old(db.events)[eventId].organizerId == callerId
    ensures r.Err? ==>
      db.events == old(db.events) && db.registrations == old(db.registrations)
      && db.nextEventId == old(db.nextEventId)
    ensures r.Ok? ==>
      && r.value == old(db.events)[eventId]
      && db.events == old(db.events) - {eventId}
      && db.registrations == Orphaned(old(db.registrations), eventId)
      && db.nextEventId == NextKey(db.events, old(db.nextEventId))
      && (eventId == old(db.nextEventId) - 1 ==> db.nextEventId <= eventId)
  {
    if eventId !in db.events {
      return Err(HttpError(404, "Event not found"));
    }
    var event := db.events[eventId];
    if event.organizerId != callerId {
      return Err(HttpError(403, "Only event organizer can delete"));
    }
    DeleteKeepsTables(db.users, db.nextUserId, db.events, db.nextEventId,
                      db.registrations, db.nextRegistrationId, eventId);
    var events := db.events - {eventId};
    db.Commit(db.users, db.nextUserId, events, NextKey(events, db.nextEventId),
              Orphaned(db.registrations, eventId), db.nextRegistrationId);
    r := Ok(event);
  }
}
