/** The registration endpoints: registering for an event with a fresh
    confirmation id, approving (confirming) and rejecting a registration, and
    reading an event's registrations. */
module RegistrationsApi {
  import opened Common
  import opened Decimal
  import opened Models
  import opened Database

  /** Six characters drawn from the decimal digits (`random.choices(string.digits, k=6)`). */
  predicate IsSixDigits(d: string)
  {
    |d| == 6 && AllDigits(d)
  }

  /** `generate_confirmation_id`: "EVT-", the event id, "-", then the six drawn digits. */
  function ConfirmationId(eventId: int, digits: string): (c: string)
    requires IsSixDigits(digits)
    ensures |c| >= 12 && c[..4] == "EVT-" && c[|c| - 7] == '-' && c[|c| - 6..] == digits
    ensures c[4..|c| - 7] == IntToString(eventId)
  {
    "EVT-" + IntToString(eventId) + "-" + digits
  }

  /** The integer a Python-style decimal string denotes, if it is one. */
  function ParseInt(s: string): Option<int>
  {
    if |s| >= 2 && s[0] == '-' && AllDigits(s[1..]) then Some(0 - ParseNat(s[1..]))
    else if |s| >= 1 && AllDigits(s) then Some(ParseNat(s))
    else None
  }

  lemma ParseIntToString(i: int)
    ensures ParseInt(IntToString(i)) == Some(i)
  {
    var s := IntToString(i);
    if i < 0 {
      assert s[0] == '-' && s[1..] == NatToString(-i);
      ParseNatToString(-i);
    } else {
      assert s == NatToString(i) && IsDigit(s[0]);
      ParseNatToString(i);
    }
  }

  /** Reads an id of the form "EVT-{event_id}-{six digits}" back into its event
      id and digits. */
  function ParseConfirmationId(c: string): Option<(int, string)>
  {
    if |c| >= 12 && c[..4] == "EVT-" && c[|c| - 7] == '-' && IsSixDigits(c[|c| - 6..]) then
      match ParseInt(c[4..|c| - 7])
      case Some(e) => Some((e, c[|c| - 6..]))
      case None => None
    else None
  }

  /** A generated id records its event and its digits: parsing it gives both
      back. Hence ids for different events, or with different digits, differ. */
  lemma ConfirmationIdRoundTrip(eventId: int, digits: string)
    requires IsSixDigits(digits)
    ensures ParseConfirmationId(ConfirmationId(eventId, digits)) == Some((eventId, digits))
  {
    ParseIntToString(eventId);
  }

  lemma ConfirmationIdInjective(e1: int, d1: string, e2: int, d2: string)
    requires IsSixDigits(d1) && IsSixDigits(d2)
    requires ConfirmationId(e1, d1) == ConfirmationId(e2, d2)
    ensures e1 == e2 && d1 == d2
  {
    ConfirmationIdRoundTrip(e1, d1);
    ConfirmationIdRoundTrip(e2, d2);
  }

  /** The retry loop of `register_for_event`: generate ids from successive draws
      of the random digit source until one is not in use. The source loops for
      as long as the draws hit used ids, so it returns only when some draw is
      unused. The result is the first unused one. */
  method UniqueConfirmationId(eventId: int, used: set<string>, draws: seq<string>)
    returns (cid: string, k: nat)
    requires forall i :: 0 <= i < |draws| ==> IsSixDigits(draws[i])
    requires exists i :: 0 <= i < |draws| && ConfirmationId(eventId, draws[i]) !in used
    ensures k < |draws| && cid == ConfirmationId(eventId, draws[k])
    ensures cid !in used
    ensures forall i :: 0 <= i < k ==> ConfirmationId(eventId, draws[i]) in used
  {
    k := 0;
    cid := ConfirmationId(eventId, draws[0]);
    while cid in used
      invariant k < |draws| && cid == ConfirmationId(eventId, draws[k])
      invariant forall i :: 0 <= i < k ==> ConfirmationId(eventId, draws[i]) in used
      decreases |draws| - k
    {
      k := k + 1;
      cid := ConfirmationId(eventId, draws[k]);
    }
  }

  /** Whether `register_for_event` lets `callerId` register for `eventId`:
      the event exists, the caller does not organise it, it has fewer approved
      registrations than its capacity, and the caller has no registration for
      it yet. */
  predicate Admits(events: map<int, EventRecord>, regs: map<int, RegistrationRecord>,
                   callerId: int, eventId: int)
  {
    && eventId in events
    && events[eventId].organizerId != callerId
    && |ApprovedOf(regs, eventId)| < events[eventId].capacity
    && !IsRegistered(regs, callerId, eventId)
  }

  /** `register_for_event`. The checks run in this order: the event exists
      (404), the caller does not organise it (400), fewer approved registrations
      than its capacity (400), no registration of the caller for it yet (400).
      Then exactly one pending registration is added, under the next id, with a
      confirmation id no other registration has. It is committed before the
      response is built, which fails with 500 when the caller has no full
      name. `draws` are the outcomes of the random digit source and `now` the
      registration time. */
  method RegisterForEvent(db: Db, callerId: int, eventId: int, draws: seq<string>, now: int)
    returns (r: Result<RegistrationRecord>)
    requires db.Valid() && callerId in db.users
    requires forall i :: 0 <= i < |draws| ==> IsSixDigits(draws[i])
    requires exists i ::
      0 <= i < |draws| && ConfirmationId(eventId, draws[i]) !in UsedConfirmationIds(db.registrations)
    modifies db
    ensures db.Valid()
    ensures db.users == old(db.users) && db.events == old(db.events)
    ensures eventId !in old(db.events) ==>
      r == Err(HttpError(404, "Event not found"))
    ensures eventId in old(db.events) && old(db.events)[eventId].organizerId == callerId ==>
      r == Err(HttpError(400, "You cannot register for your own event"))
    ensures (eventId in old(db.events) && old(db.events)[eventId].organizerId != callerId
             && |ApprovedOf(old(db.registrations), eventId)| >= old(db.events)[eventId].capacity) ==>
      r == Err(HttpError(400, "Event is full"))
    ensures (eventId in old(db.events) && old(db.events)[eventId].organizerId != callerId
             && |ApprovedOf(old(db.registrations), eventId)| < old(db.events)[eventId].capacity
             && IsRegistered(old(db.registrations), callerId, eventId)) ==>
      r == Err(HttpError(400, "Already registered for this event"))
    ensures !Admits(old(db.events), old(db.registrations), callerId, eventId) ==>
      r.Err? && db.registrations == old(db.registrations)
    ensures r.Ok? <==> Admits(old(db.events), old(db.registrations), callerId, eventId)
                       && HasFullName(db.users[callerId])
    ensures Admits(old(db.events), old(db.registrations), callerId, eventId) ==>
      var id := old(db.nextRegistrationId);
      && id !in old(db.registrations) && id in db.registrations
      && db.registrations == old(db.registrations)[id := db.registrations[id]]
      && r == RegistrationResponse(db.users, db.registrations[id])
      && NewRegistration(db.registrations[id], callerId, eventId, now, old(db.registrations), draws)
  {
    if eventId !in db.events {
      return Err(HttpError(404, "Event not found"));
    }
    var event := db.events[eventId];
    if callerId == event.organizerId {
      return Err(HttpError(400, "You cannot register for your own event"));
    }
    var currentRegistrations := |ApprovedOf(db.registrations, eventId)|;
    if currentRegistrations >= event.capacity {
      return Err(HttpError(400, "Event is full"));
    }
    if IsRegistered(db.registrations, callerId, eventId) {
      return Err(HttpError(400, "Already registered for this event"));
    }
    var cid, k := UniqueConfirmationId(eventId, UsedConfirmationIds(db.registrations), draws);
    var id := db.nextRegistrationId;
    var registration := DefaultRegistration(id, callerId, eventId, now).(confirmationId := Some(cid));
    InsertRegistrationKeepsTables(db.users, db.nextUserId, db.events, db.nextEventId,
                                  db.registrations, id, registration);
    assert NewRegistration(registration, callerId, eventId, now, db.registrations, draws);
    db.Commit(db.users, db.nextUserId, db.events, db.nextEventId, db.registrations[id := registration], id + 1);
    r := RegistrationResponse(db.users, registration);
  }

  /** The row `register_for_event` adds: the caller's pending, unattended
      registration for the event, at time `now`, with no rejection reason and
      a confirmation id built from one of the draws that no registration in
      `before` has. */
  ghost predicate NewRegistration(g: RegistrationRecord, callerId: int, eventId: int, now: int,
                                  before: map<int, RegistrationRecord>, draws: seq<string>)
  {
    && g.userId == callerId && g.eventId == Some(eventId)
    && g.status == Pending && g.registrationDate == now
    && !g.attended && g.rejectionReason == None
    && g.confirmationId.Some?
    && g.confirmationId.value !in UsedConfirmationIds(before)
    && exists k :: 0 <= k < |draws| && IsSixDigits(draws[k]) && g.confirmationId.value == ConfirmationId(eventId, draws[k])
  }

  /** Adding a pending registration leaves an event's approved count alone:
      pending registrations never make an event full. */
  lemma PendingDoesNotFill(regs: map<int, RegistrationRecord>, id: int,
                           reg: RegistrationRecord, eventId: int)
    requires id !in regs && reg.status == Pending
    ensures ApprovedOf(regs[id := reg], eventId) == ApprovedOf(regs, eventId)
  {
  }

  /** The outcome of reviewing registration `registrationId` as `caller`, setting
      it to `status` with `reason`: 404 for an unknown registration; 500 when its
      event has been deleted (the code reads the organiser of a missing event);
      403 unless the caller organises the event or is an admin; otherwise only
      that registration changes, to the new status and reason, and the
      response is that registration, or 500 after the commit when its user
      has no full name. */
  ghost predicate ReviewOutcome(
    before: map<int, RegistrationRecord>, events: map<int, EventRecord>, users: map<int, UserRecord>,
    caller: UserRecord, registrationId: int, status: RegistrationStatus, reason: Option<string>,
    r: Result<RegistrationRecord>, after: map<int, RegistrationRecord>)
  {
    if registrationId !in before then
      r == Err(HttpError(404, "Registration not found")) && after == before
    else if before[registrationId].eventId.None? || before[registrationId].eventId.value !in events then
      r == Err(InternalServerError) && after == before
    else if events[before[registrationId].eventId.value].organizerId != caller.id && caller.role != Admin then
      r == Err(HttpError(403, "Not enough permissions")) && after == before
    else
      var g := before[registrationId].(status := status, rejectionReason := reason);
      && after == before[registrationId := g]
      && r == RegistrationResponse(users, g)
  }

  /** Sets a registration's status and rejection reason, after the checks. */
  method Review(db: Db, callerId: int, registrationId: int, status: RegistrationStatus,
                reason: Option<string>) returns (r: Result<RegistrationRecord>)
    requires db.Valid() && callerId in db.users
    modifies db
    ensures db.Valid()
    ensures db.users == old(db.users) && db.events == old(db.events)
    ensures ReviewOutcome(old(db.registrations), db.events, db.users, db.users[callerId], registrationId,
                          status, reason, r, db.registrations)
  {
    if registrationId !in db.registrations {
      return Err(HttpError(404, "Registration not found"));
    }
    var registration := db.registrations[registrationId];
    if registration.eventId.None? || registration.eventId.value !in db.events {
      return Err(InternalServerError);
    }
    var event := db.events[registration.eventId.value];
    var caller := db.users[callerId];
    if event.organizerId != caller.id && caller.role != Admin {
      return Err(HttpError(403, "Not enough permissions"));
    }
    registration := registration.(status := status, rejectionReason := reason);
    ReviewKeepsTables(db.users, db.nextUserId, db.events, db.nextEventId,
                      db.registrations, db.nextRegistrationId, registration);
    db.Commit(db.users, db.nextUserId, db.events, db.nextEventId,
              db.registrations[registrationId := registration], db.nextRegistrationId);
    r := RegistrationResponse(db.users, registration);
  }

  /** `approve_registration`: status approved and the rejection reason cleared. */
  method ApproveRegistration(db: Db, callerId: int, registrationId: int)
    returns (r: Result<RegistrationRecord>)
    requires db.Valid() && callerId in db.users
    modifies db
    ensures db.Valid()
    ensures db.users == old(db.users) && db.events == old(db.events)
    ensures ReviewOutcome(old(db.registrations), db.events, db.users, db.users[callerId], registrationId,
                          Approved, None, r, db.registrations)
  {
    r := Review(db, callerId, registrationId, Approved, None);
  }

  /** `confirm_registration`: an alias that does exactly what approving does. */
  method ConfirmRegistration(db: Db, callerId: int, registrationId: int)
    returns (r: Result<RegistrationRecord>)
    requires db.Valid() && callerId in db.users
    modifies db
    ensures db.Valid()
    ensures db.users == old(db.users) && db.events == old(db.events)
    ensures ReviewOutcome(old(db.registrations), db.events, db.users, db.users[callerId], registrationId,
                          Approved, None, r, db.registrations)
  {
    r := ApproveRegistration(db, callerId, registrationId);
  }

  /** `reject_registration`: status rejected with exactly the given reason. */
  method RejectRegistration(db: Db, callerId: int, registrationId: int, reason: string)
    returns (r: Result<RegistrationRecord>)
    requires db.Valid() && callerId in db.users
    modifies db
    ensures db.Valid()
    ensures db.users == old(db.users) && db.events == old(db.events)
    ensures ReviewOutcome(old(db.registrations), db.events, db.users, db.users[callerId], registrationId,
                          Rejected, Some(reason), r, db.registrations)
  {
    r := Review(db, callerId, registrationId, Rejected, Some(reason));
  }

  /** The registrations `keep` selects, under their keys. */
  function Selected(regs: map<int, RegistrationRecord>, keep: RegistrationRecord -> bool)
    : (m: map<int, RegistrationRecord>)
    ensures forall id :: id in m <==> id in regs && keep(regs[id])
    ensures forall id :: id in m ==> m[id] == regs[id]
  {
    map id | id in regs && keep(regs[id]) :: regs[id]
  }

  /** Listing the selected registrations in key order gives exactly them, in
      increasing id order; the listing serialises exactly when each of them
      does. */
  lemma SelectedListing(regs: map<int, RegistrationRecord>, next: int, users: map<int, UserRecord>,
                        keep: RegistrationRecord -> bool)
    requires forall id :: id in regs ==> regs[id].id == id && 1 <= id < next
    ensures var rows := InKeyOrder(Selected(regs, keep), 1, next);
      && (forall i, j :: 0 <= i < j < |rows| ==> rows[i].id < rows[j].id)
      && (forall x :: x in rows ==> x.id in regs && regs[x.id] == x && keep(x))
      && (forall id :: id in regs && keep(regs[id]) ==> regs[id] in rows)
      && (RegistrationsResponse(users, rows).Ok? <==>
            forall id :: id in regs && keep(regs[id]) ==> RegistrationSerializes(users, regs[id]))
  {
    var selected := Selected(regs, keep);
    var rows := InKeyOrder(selected, 1, next);
    InKeyOrderSorted(selected, 1, next, (g: RegistrationRecord) => g.id);
    forall id | id in regs && keep(regs[id])
      ensures regs[id] in rows
    {
      assert id in selected && 1 <= id < next;
    }
    if RegistrationsResponse(users, rows).Ok? {
      forall id | id in regs && keep(regs[id])
        ensures RegistrationSerializes(users, regs[id])
      {
        var i :| 0 <= i < |rows| && rows[i] == regs[id];
      }
    } else {
      var i :| 0 <= i < |rows| && !RegistrationSerializes(users, rows[i]);
      assert rows[i] in rows;
    }
  }

  /** `read_event_registrations`: 404 for an unknown event, 403 unless the
      caller organises it or is an admin; otherwise exactly the registrations
      of that event, in id order, or 500 when the user of one of them has no
      full name. Nothing changes. */
  method ReadEventRegistrations(db: Db, callerId: int, eventId: int)
    returns (r: Result<seq<RegistrationRecord>>)
    requires db.Valid() && callerId in db.users
    ensures eventId !in db.events ==> r == Err(HttpError(404, "Event not found"))
    ensures (eventId in db.events && db.events[eventId].organizerId != callerId
             && db.users[callerId].role != Admin) ==>
      r == Err(HttpError(403, "Not enough permissions"))
    ensures r.Ok? <==>
      && eventId in db.events
      && (db.events[eventId].organizerId == callerId || db.users[callerId].role == Admin)
      && (forall id :: id in db.registrations && db.registrations[id].eventId == Some(eventId) ==>
            HasFullName(db.users[db.registrations[id].userId]))
    ensures r.Err? && eventId in db.events
            && (db.events[eventId].organizerId == callerId || db.users[callerId].role == Admin) ==>
      r.error == InternalServerError
    ensures r.Ok? ==>
      && (forall i, j :: 0 <= i < j < |r.value| ==> r.value[i].id < r.value[j].id)
      && (forall x :: x in r.value ==>
            x.id in db.registrations && db.registrations[x.id] == x && x.eventId == Some(eventId))
      && (forall id :: id in db.registrations && db.registrations[id].eventId == Some(eventId) ==>
            db.registrations[id] in r.value)
  {
    if eventId !in db.events {
      return Err(HttpError(404, "Event not found"));
    }
    var event := db.events[eventId];
    if event.organizerId != callerId && db.users[callerId].role != Admin {
      return Err(HttpError(403, "Not enough permissions"));
    }
    var ofEvent := (g: RegistrationRecord) => g.eventId == Some(eventId);
    SelectedListing(db.registrations, db.nextRegistrationId, db.users, ofEvent);
    r := RegistrationsResponse(db.users, InKeyOrder(Selected(db.registrations, ofEvent), 1, db.nextRegistrationId));
  }

  /** `read_my_registrations`: exactly the caller's own registrations, in id
      order, or 500 when there is one whose event has been deleted, or when
      there is one and the caller has no full name. Nothing changes. */
  method ReadMyRegistrations(db: Db, callerId: int) returns (r: Result<seq<RegistrationRecord>>)
    requires db.Valid() && callerId in db.users
    ensures r.Ok? <==> forall id :: id in db.registrations && db.registrations[id].userId == callerId ==>
      db.registrations[id].eventId.Some? && HasFullName(db.users[callerId])
    ensures r.Err? ==> r.error == InternalServerError
    ensures r.Ok? ==>
      && (forall i, j :: 0 <= i < j < |r.value| ==> r.value[i].id < r.value[j].id)
      && (forall x :: x in r.value ==>
            x.id in db.registrations && db.registrations[x.id] == x && x.userId == callerId)
      && (forall id :: id in db.registrations && db.registrations[id].userId == callerId ==>
            db.registrations[id] in r.value)
  {
    var mine := (g: RegistrationRecord) => g.userId == callerId;
    SelectedListing(db.registrations, db.nextRegistrationId, db.users, mine);
    r := RegistrationsResponse(db.users, InKeyOrder(Selected(db.registrations, mine), 1, db.nextRegistrationId));
  }
}
