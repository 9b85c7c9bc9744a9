/** The detail page of one event: who sees which controls, and the user's
    registration state for the event. */
module EventViewPage {
  import opened Common
  import opened Decimal
  import opened Models
  import opened Items

  /** `isOrganizer`: a manager viewing an event they organise. */
  predicate IsOrganizer(role: string, userId: int, e: EventItem)
  {
    role == "manager" && userId == e.organizerId
  }

  /** `isAdmin`. */
  predicate IsAdmin(role: string)
  {
    role == "admin"
  }

  /** The organiser's controls appear only for the caller the backend lets
      update and delete the event, its organiser, and for a manager exactly
      then; an admin, whom the backend lets update but not delete, never
      gets them. */
  lemma OrganizerMatchesBackend(caller: UserRecord, e: EventItem, events: map<int, EventRecord>)
    requires e.id in events && events[e.id].organizerId == e.organizerId
    ensures IsOrganizer(RoleName(caller.role), caller.id, e) ==> events[e.id].organizerId == caller.id
    ensures caller.role == Manager ==>
      (IsOrganizer(RoleName(caller.role), caller.id, e) <==> events[e.id].organizerId == caller.id)
    ensures caller.role == Admin ==> !IsOrganizer(RoleName(caller.role), caller.id, e)
  {
  }

  /** The controls of the page, as the role and the event decide them. */
  datatype Controls = Controls(
    deactivate: bool,
    editAndDelete: bool,
    register: bool,
    manageAttendees: bool)

  /** Deactivate for admins; edit, delete and manage attendees for the
      organiser; the register control for role user. No role gets both the
      register control and the organiser's controls, and admins never get the
      organiser's controls. */
  function ControlsFor(role: string, userId: int, e: EventItem): (c: Controls)
    ensures c.deactivate <==> role == "admin"
    ensures c.editAndDelete <==> IsOrganizer(role, userId, e)
    ensures c.manageAttendees == c.editAndDelete
    ensures c.register <==> role == "user"
    ensures !(c.register && c.editAndDelete) && !(c.deactivate && c.editAndDelete)
  {
    Controls(IsAdmin(role), IsOrganizer(role, userId, e), role == "user", IsOrganizer(role, userId, e))
  }

  /** `myRegs.some(r => r.event_id === id)`. */
  function RegisteredFor(myRegs: seq<RegistrationItem>, eventId: int): (b: bool)
    ensures b <==> exists i :: 0 <= i < |myRegs| && myRegs[i].eventId == eventId
  {
    if myRegs == [] then false
    else myRegs[0].eventId == eventId || RegisteredFor(myRegs[1..], eventId)
  }

  /** `/events/{id}`. */
  function EventPath(eventId: int): (p: string)
    ensures "/events/" <= p
  {
    "/events/" + IntToString(eventId)
  }

  datatype EventViewState = EventViewState(
    event: Option<EventItem>,
    error: Option<string>,
    isRegistered: bool)

  class EventView {
    /** The signed-in user and the event id of the route (as `parseInt`
        reads it). */
    const role: string
    const userId: int
    const eventId: int
    var event: Option<EventItem>
    var error: Option<string>
    var isRegistered: bool

    function State(): EventViewState
      reads this
    {
      EventViewState(event, error, isRegistered)
    }

    constructor (role: string, userId: int, eventId: int)
      ensures this.role == role && this.userId == userId && this.eventId == eventId
      ensures State() == EventViewState(None, None, false)
    {
      this.role, this.userId, this.eventId := role, userId, eventId;
      event, error, isRegistered := None, None, false;
    }

    /** `fetchEvent`, given the event response and, for role user, the
        user's registrations (`None` when a request fails): the event, and
        whether one of the registrations is for it; a failure sets the error. */
    method FetchEvent(eventRes: Option<EventItem>, registrationsRes: Option<seq<RegistrationItem>>)
      modifies this
      ensures eventRes.None? ==> State() == old(State()).(error := Some("Failed to load event details."))
      ensures eventRes.Some? && role != "user" ==> State() == old(State()).(event := eventRes)
      ensures eventRes.Some? && role == "user" && registrationsRes.None? ==>
        State() == old(State()).(event := eventRes, error := Some("Failed to load event details."))
      ensures eventRes.Some? && role == "user" && registrationsRes.Some? ==>
        State() == old(State()).(event := eventRes,
                                 isRegistered := RegisteredFor(registrationsRes.value, eventId))
    {
      if eventRes.None? {
        error := Some("Failed to load event details.");
        return;
      }
      event := eventRes;
      if role == "user" {
        if registrationsRes.None? {
          error := Some("Failed to load event details.");
          return;
        }
        isRegistered := RegisteredFor(registrationsRes.value, eventId);
      }
    }

    /** `handleRegister`: on success the page shows the user as registered;
        on failure nothing changes. */
    method Register(ok: bool) returns (call: ApiCall)
      modifies this
      ensures call == ApiCall(Post, RegisterPath(eventId), None)
      ensures ok ==> State() == old(State()).(isRegistered := true)
      ensures !ok ==> State() == old(State())
    {
      call := ApiCall(Post, RegisterPath(eventId), None);
      if ok {
        isRegistered := true;
      }
    }

    /** `handleDelete`: nothing unless the user confirms; then a DELETE of
        the event, and back to the dashboard when it succeeds. */
    method DeleteEvent(confirmed: bool, ok: bool) returns (call: Option<ApiCall>, navigateHome: bool)
      ensures call.Some? <==> confirmed
      ensures call.Some? ==> call.value == ApiCall(Delete, EventPath(eventId), None)
      ensures navigateHome <==> confirmed && ok
    {
      if !confirmed {
        return None, false;
      }
      call := Some(ApiCall(Delete, EventPath(eventId), None));
      navigateHome := ok;
    }

    /** `handleDeactivate`: nothing unless the user confirms; then a PUT to
        the event's deactivate path, and back to the dashboard when it
        succeeds. */
    method DeactivateEvent(confirmed: bool, ok: bool) returns (call: Option<ApiCall>, navigateHome: bool)
      ensures call.Some? <==> confirmed
      ensures call.Some? ==> call.value == ApiCall(Put, EventPath(eventId) + "/deactivate", None)
      ensures navigateHome <==> confirmed && ok
    {
      if !confirmed {
        return None, false;
      }
      call := Some(ApiCall(Put, EventPath(eventId) + "/deactivate", None));
      navigateHome := ok;
    }
  }
}
