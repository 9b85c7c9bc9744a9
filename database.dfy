/** The database the endpoints share: one map per table, keyed by primary key,
    with the key the next inserted row of each table receives. */
module Database {
  import opened Common
  import opened Models

  class Db {
    var users: map<int, UserRecord>
    var events: map<int, EventRecord>
    var registrations: map<int, RegistrationRecord>
    var nextUserId: int
    var nextEventId: int
    var nextRegistrationId: int

    /** What the schema and the endpoints keep true of every state: rows are
        stored under their own key, which lies between 1 and the next key to
        hand out; the next key is one more than the largest key of its table,
        or 1 for an empty table (SQLite's choice of rowid for an integer
        primary key); e-mails and confirmation ids are unique; a user is never both
        approved and carrying a rejection reason; a user has at most one
        registration per event; every event's organiser and every
        registration's user exist; and a registration's event, while it has
        one, exists. */
    ghost predicate Valid()
      reads this
    {
      Tables(users, nextUserId, events, nextEventId, registrations, nextRegistrationId)
    }

    /** `db.commit()`: the tables as the handler has left them, with the
        next key of each, become the stored state; they must be valid. */
    method Commit(users': map<int, UserRecord>, nextUser: int,
                  events': map<int, EventRecord>, nextEvent: int,
                  registrations': map<int, RegistrationRecord>, nextReg: int)
      requires Tables(users', nextUser, events', nextEvent, registrations', nextReg)
      modifies this
      ensures Valid()
      ensures users == users' && nextUserId == nextUser
      ensures events == events' && nextEventId == nextEvent
      ensures registrations == registrations' && nextRegistrationId == nextReg
    {
      users, nextUserId := users', nextUser;
      events, nextEventId := events', nextEvent;
      registrations, nextRegistrationId := registrations', nextReg;
    }

    /** An empty database. */
    constructor ()
      ensures Valid()
      ensures users == map[] && events == map[] && registrations == map[]
    {
      users, events, registrations := map[], map[], map[];
      nextUserId, nextEventId, nextRegistrationId := 1, 1, 1;
    }
  }

  /** The three tables, given with the next key of each. */
  ghost predicate Tables(users: map<int, UserRecord>, nextUser: int,
                         events: map<int, EventRecord>, nextEvent: int,
                         regs: map<int, RegistrationRecord>, nextReg: int)
  {
    && UsersTable(users, nextUser)
    && EventsTable(events, nextEvent, users)
    && RegistrationsTable(regs, nextReg, users, events)
  }

  // In each table below, rows are stored under their own key, which lies
  // between 1 and the next key to hand out, and the next key is one more than
  // the largest key, or 1 for an empty table (SQLite's choice of rowid for an
  // integer primary key).

  /** The users table: keyed, e-mails unique, and nobody both approved and
      carrying a rejection reason. */
  ghost predicate UsersTable(users: map<int, UserRecord>, next: int)
  {
    && 1 <= next && (next == 1 || next - 1 in users)
    && (forall id :: id in users ==> users[id].id == id && 1 <= id < next)
    && UniqueEmails(users)
    && (forall id :: id in users ==> !(users[id].isApproved && users[id].rejectionReason.Some?))
  }

  /** The events table: keyed, and every organiser exists. */
  ghost predicate EventsTable(events: map<int, EventRecord>, next: int, users: map<int, UserRecord>)
  {
    && 1 <= next && (next == 1 || next - 1 in events)
    && (forall id :: id in events ==> events[id].id == id && 1 <= id < next)
    && (forall id :: id in events ==> events[id].organizerId in users)
  }

  /** The registrations table: keyed, confirmation ids unique, at most one
      registration of a user per event, every registration's user exists and
      its event, while it has one, exists. */
  ghost predicate RegistrationsTable(regs: map<int, RegistrationRecord>, next: int,
                                     users: map<int, UserRecord>, events: map<int, EventRecord>)
  {
    && 1 <= next && (next == 1 || next - 1 in regs)
    && (forall id :: id in regs ==> regs[id].id == id && 1 <= id < next)
    && UniqueConfirmationIds(regs)
    && OneRegistrationPerEvent(regs)
    && (forall id :: id in regs ==> regs[id].userId in users)
    && (forall id :: id in regs && regs[id].eventId.Some? ==> regs[id].eventId.value in events)
  }

  /** Adding a user under the next key, with an address nobody has and not
      both approved and rejected, keeps every table valid. */
  lemma InsertKeepsTables(users: map<int, UserRecord>, nextUser: int,
                          events: map<int, EventRecord>, nextEvent: int,
                          regs: map<int, RegistrationRecord>, nextReg: int, u: UserRecord)
    requires Tables(users, nextUser, events, nextEvent, regs, nextReg)
    requires u.id == nextUser && !(u.isApproved && u.rejectionReason.Some?)
    requires forall id :: id in users ==> users[id].email != u.email
    ensures Tables(users[nextUser := u], nextUser + 1, events, nextEvent, regs, nextReg)
  {
  }

  /** Replacing a user by one with the same key and address, not both
      approved and rejected, keeps every table valid. */
  lemma ReplaceUserKeepsTables(users: map<int, UserRecord>, nextUser: int,
                               events: map<int, EventRecord>, nextEvent: int,
                               regs: map<int, RegistrationRecord>, nextReg: int, u: UserRecord)
    requires Tables(users, nextUser, events, nextEvent, regs, nextReg)
    requires u.id in users && u.email == users[u.id].email && !(u.isApproved && u.rejectionReason.Some?)
    ensures Tables(users[u.id := u], nextUser, events, nextEvent, regs, nextReg)
  {
  }

  /** Adding an event of an existing organiser under the next key keeps
      every table valid. */
  lemma InsertEventKeepsTables(users: map<int, UserRecord>, nextUser: int,
                               events: map<int, EventRecord>, nextEvent: int,
                               regs: map<int, RegistrationRecord>, nextReg: int, e: EventRecord)
    requires Tables(users, nextUser, events, nextEvent, regs, nextReg)
    requires e.id == nextEvent && e.organizerId in users
    ensures Tables(users, nextUser, events[nextEvent := e], nextEvent + 1, regs, nextReg)
  {
  }

  /** Replacing an event by one with the same key and organiser keeps every
      table valid. */
  lemma ReplaceEventKeepsTables(users: map<int, UserRecord>, nextUser: int,
                                events: map<int, EventRecord>, nextEvent: int,
                                regs: map<int, RegistrationRecord>, nextReg: int, e: EventRecord)
    requires Tables(users, nextUser, events, nextEvent, regs, nextReg)
    requires e.id in events && e.organizerId == events[e.id].organizerId
    ensures Tables(users, nextUser, events[e.id := e], nextEvent, regs, nextReg)
  {
  }

  /** Changing a registration's status or reason keeps every table valid. */
  lemma ReviewKeepsTables(users: map<int, UserRecord>, nextUser: int,
                          events: map<int, EventRecord>, nextEvent: int,
                          regs: map<int, RegistrationRecord>, nextReg: int, g: RegistrationRecord)
    requires Tables(users, nextUser, events, nextEvent, regs, nextReg) && g.id in regs
    requires g == regs[g.id].(status := g.status, rejectionReason := g.rejectionReason)
    ensures Tables(users, nextUser, events, nextEvent, regs[g.id := g], nextReg)
  {
  }

  /** Adding a registration of an existing user for an existing event, under
      the next key, with a confirmation id nobody has and for an event the user
      has no registration for, keeps every table valid. */
  lemma InsertRegistrationKeepsTables(users: map<int, UserRecord>, nextUser: int,
                                      events: map<int, EventRecord>, nextEvent: int,
                                      regs: map<int, RegistrationRecord>, nextReg: int,
                                      g: RegistrationRecord)
    requires Tables(users, nextUser, events, nextEvent, regs, nextReg)
    requires g.id == nextReg && g.userId in users && g.eventId.Some? && g.eventId.value in events
    requires g.confirmationId.Some? && g.confirmationId.value !in UsedConfirmationIds(regs)
    requires !IsRegistered(regs, g.userId, g.eventId.value)
    ensures Tables(users, nextUser, events, nextEvent, regs[nextReg := g], nextReg + 1)
  {
  }

  ghost predicate UniqueEmails(users: map<int, UserRecord>)
  {
    forall a, b :: a in users && b in users && a != b ==> users[a].email != users[b].email
  }

  ghost predicate UniqueConfirmationIds(regs: map<int, RegistrationRecord>)
  {
    forall a, b :: a in regs && b in regs && a != b && regs[a].confirmationId.Some? ==>
      regs[a].confirmationId != regs[b].confirmationId
  }

  ghost predicate OneRegistrationPerEvent(regs: map<int, RegistrationRecord>)
  {
    forall a, b ::
      a in regs && b in regs && a != b && regs[a].userId == regs[b].userId && regs[a].eventId.Some?
      ==> regs[a].eventId != regs[b].eventId
  }

  /** The confirmation ids in use. */
  function UsedConfirmationIds(regs: map<int, RegistrationRecord>): (used: set<string>)
    ensures forall id :: id in regs && regs[id].confirmationId.Some? ==>
      regs[id].confirmationId.value in used
    ensures forall c :: c in used ==> exists id :: id in regs && regs[id].confirmationId == Some(c)
  {
    set id | id in regs && regs[id].confirmationId.Some? :: regs[id].confirmationId.value
  }

  /** The registrations of an event whose status is approved. */
  function ApprovedOf(regs: map<int, RegistrationRecord>, eventId: int): set<int>
  {
    set id | id in regs && regs[id].eventId == Some(eventId) && regs[id].status == Approved
  }

  /** Whether `userId` already has a registration for `eventId`. */
  predicate IsRegistered(regs: map<int, RegistrationRecord>, userId: int, eventId: int)
  {
    exists id :: id in regs && regs[id].userId == userId && regs[id].eventId == Some(eventId)
  }

  /** The values of `m` whose keys lie in `[lo, hi)`, in key order: the order
      in which the database returns rows. */
  function InKeyOrder<T(!new)>(m: map<int, T>, lo: int, hi: int): (r: seq<T>)
    ensures forall x :: x in r <==> exists k :: lo <= k < hi && k in m && m[k] == x
    decreases hi - lo
  {
    if lo >= hi then []
    else if lo in m then [m[lo]] + InKeyOrder(m, lo + 1, hi)
    else InKeyOrder(m, lo + 1, hi)
  }

  /** When every value of `m` carries its own key (`key`), the values come out
      with strictly increasing keys, all in `[lo, hi)`. */
  lemma {:induction false} InKeyOrderSorted<T(!new)>(m: map<int, T>, lo: int, hi: int, key: T -> int)
    requires forall k :: k in m ==> key(m[k]) == k
    ensures forall i :: 0 <= i < |InKeyOrder(m, lo, hi)| ==> lo <= key(InKeyOrder(m, lo, hi)[i]) < hi
    ensures forall i, j :: 0 <= i < j < |InKeyOrder(m, lo, hi)| ==>
      key(InKeyOrder(m, lo, hi)[i]) < key(InKeyOrder(m, lo, hi)[j])
    decreases hi - lo
  {
    if lo < hi {
      InKeyOrderSorted(m, lo + 1, hi, key);
      if lo in m {
        var rest := InKeyOrder(m, lo + 1, hi);
        assert InKeyOrder(m, lo, hi) == [m[lo]] + rest;
      }
    }
  }

  /** One more than the largest key of `m` below `hi`, or 1 when there is
      none: the rowid SQLite gives the next row inserted into a table whose
      largest key is below `hi`. A deleted newest row's key is handed out
      again. */
  function NextKey<T>(m: map<int, T>, hi: int): (n: int)
    ensures 1 <= n && (hi >= 1 ==> n <= hi)
    ensures n == 1 || n - 1 in m
    ensures forall k :: k in m && 1 <= k < hi ==> k < n
    decreases hi
  {
    if hi <= 1 then 1
    else if hi - 1 in m then hi
    else NextKey(m, hi - 1)
  }

  /** `full_name: str` in the response schemas admits no null: a user whose
      full name is cleared cannot be serialised. */
  predicate HasFullName(u: UserRecord)
  {
    FullName in u.profile
  }

  /** A failed response validation, which the framework reports after the
      handler (and its commit) has run. */
  const InternalServerError := HttpError(500, "Internal Server Error")

  /** A user as a `UserSchema` response: the user itself, or 500 when the
      user has no full name. */
  function UserResponse(u: UserRecord): (r: Result<UserRecord>)
    ensures r.Ok? <==> HasFullName(u)
    ensures r.Ok? ==> r.value == u
    ensures r.Err? ==> r.error == InternalServerError
  {
    if HasFullName(u) then Ok(u) else Err(InternalServerError)
  }

  /** A `List[UserSchema]` response: the rows, or 500 when one of them has no
      full name. */
  function UsersResponse(rows: seq<UserRecord>): (r: Result<seq<UserRecord>>)
    ensures r.Ok? <==> forall i :: 0 <= i < |rows| ==> HasFullName(rows[i])
    ensures r.Ok? ==> r.value == rows
    ensures r.Err? ==> r.error == InternalServerError
  {
    if forall i :: 0 <= i < |rows| ==> HasFullName(rows[i]) then Ok(rows) else Err(InternalServerError)
  }

  /** Whether a registration fits `RegistrationSchema`: `event_id: int` needs
      an event, and the embedded user summary needs the user's full name. */
  predicate RegistrationSerializes(users: map<int, UserRecord>, g: RegistrationRecord)
  {
    g.eventId.Some? && (g.userId in users ==> HasFullName(users[g.userId]))
  }

  /** A `RegistrationSchema` response: the registration, or 500 when it does
      not fit the schema. */
  function RegistrationResponse(users: map<int, UserRecord>, g: RegistrationRecord)
    : (r: Result<RegistrationRecord>)
    ensures r.Ok? <==> RegistrationSerializes(users, g)
    ensures r.Ok? ==> r.value == g
    ensures r.Err? ==> r.error == InternalServerError
  {
    if RegistrationSerializes(users, g) then Ok(g) else Err(InternalServerError)
  }

  /** A `List[RegistrationSchema]` response: the rows, or 500 when one of
      them does not fit the schema. */
  function RegistrationsResponse(users: map<int, UserRecord>, rows: seq<RegistrationRecord>)
    : (r: Result<seq<RegistrationRecord>>)
    ensures r.Ok? <==> forall i :: 0 <= i < |rows| ==> RegistrationSerializes(users, rows[i])
    ensures r.Ok? ==> r.value == rows
    ensures r.Err? ==> r.error == InternalServerError
  {
    if forall i :: 0 <= i < |rows| ==> RegistrationSerializes(users, rows[i]) then Ok(rows)
    else Err(InternalServerError)
  }

  /** The keys of `m` in `[lo, hi)`. */
  function KeysBetween<T>(m: map<int, T>, lo: int, hi: int): set<int>
  {
    set k | k in m && lo <= k < hi
  }

  /** One row per key in range: never more rows than the map holds. */
  lemma {:induction false} InKeyOrderLength<T(!new)>(m: map<int, T>, lo: int, hi: int)
    ensures |InKeyOrder(m, lo, hi)| == |KeysBetween(m, lo, hi)| <= |m|
    decreases hi - lo
  {
    var inRange := KeysBetween(m, lo, hi);
    assert m.Keys == inRange + (m.Keys - inRange) && inRange * (m.Keys - inRange) == {};
    if lo < hi {
      InKeyOrderLength(m, lo + 1, hi);
      if lo in m {
        assert KeysBetween(m, lo, hi) == {lo} + KeysBetween(m, lo + 1, hi);
      } else {
        assert KeysBetween(m, lo, hi) == KeysBetween(m, lo + 1, hi);
      }
    } else {
      assert KeysBetween(m, lo, hi) == {};
    }
  }

  /** The first row in key order whose e-mail is `email` (`.filter(...).first()`). */
  function FindByEmail(users: map<int, UserRecord>, email: string, lo: int, hi: int): (r: Option<int>)
    ensures r.Some? ==> lo <= r.value < hi && r.value in users && users[r.value].email == email
    ensures r.None? ==> forall k :: lo <= k < hi && k in users ==> users[k].email != email
    decreases hi - lo
  {
    if lo >= hi then None
    else if lo in users && users[lo].email == email then Some(lo)
    else FindByEmail(users, email, lo + 1, hi)
  }
}
