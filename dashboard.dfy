/** The dashboard page: the searchable, filterable, paginated events grid with
    its Join control, and, for admins, the pending-manager panel with its
    approve and reject actions. */
module DashboardPage {
  import opened Common
  import opened Models
  import opened Items
  import opened ListView
  import RegistrationsApi

  /** Events shown per page (the initial and only page size). */
  const PageSize: nat := 6

  /** The search box and the two drop-downs: the lower-cased title contains
      the lower-cased term, and type and status each equal their filter or
      the filter is 'all'. */
  predicate MatchesEvent(e: EventItem, searchTerm: string, filterType: string, filterStatus: string)
  {
    && Contains(Lower(e.title), Lower(searchTerm))
    && (filterType == "all" || e.eventType == filterType)
    && (filterStatus == "all" || e.status == filterStatus)
  }

  function EventMatcher(searchTerm: string, filterType: string, filterStatus: string): EventItem -> bool
  {
    (e: EventItem) => MatchesEvent(e, searchTerm, filterType, filterStatus)
  }

  /** `filteredEvents`: exactly the matching events, in their order. */
  function FilteredEvents(events: seq<EventItem>, searchTerm: string, filterType: string,
                          filterStatus: string): (r: seq<EventItem>)
    ensures forall e :: e in r <==> e in events && MatchesEvent(e, searchTerm, filterType, filterStatus)
    ensures IsSubsequence(r, events)
  {
    FilterIsSubsequence(events, EventMatcher(searchTerm, filterType, filterStatus));
    Filter(events, EventMatcher(searchTerm, filterType, filterStatus))
  }

  /** With an empty search and both filters at 'all', every event is shown,
      in its order. */
  lemma EmptySearchKeepsAll(events: seq<EventItem>)
    ensures FilteredEvents(events, "", "all", "all") == events
  {
    forall e | e in events
      ensures MatchesEvent(e, "", "all", "all")
    {
      ContainsEmpty(Lower(e.title));
    }
    FilterAll(events, EventMatcher("", "all", "all"));
  }

  /** The users the admin panel lists: managers not yet approved. */
  predicate IsPendingManager(u: UserItem)
  {
    u.role == "manager" && !u.isApproved
  }

  /** Join (or Registered) is offered to users and managers on events they do
      not organise. */
  predicate ShowsJoin(role: string, userId: int, e: EventItem)
  {
    (role == "user" || role == "manager") && e.organizerId != userId
  }

  /** The "Your Event" badge: a manager's own event. */
  predicate ShowsYourEvent(role: string, userId: int, e: EventItem)
  {
    role == "manager" && e.organizerId == userId
  }

  /** Join is never offered to an admin; for a user or a manager it is
      hidden exactly on the events they organise, the case the backend
      refuses with 400, so every registration the backend would admit from
      them has its Join control. */
  lemma JoinMatchesBackend(caller: UserRecord, e: EventItem, events: map<int, EventRecord>,
                           regs: map<int, RegistrationRecord>)
    requires e.id in events && events[e.id].organizerId == e.organizerId
    ensures caller.role == Admin ==> !ShowsJoin(RoleName(caller.role), caller.id, e)
    ensures caller.role != Admin ==>
      (ShowsJoin(RoleName(caller.role), caller.id, e) <==> events[e.id].organizerId != caller.id)
    ensures caller.role != Admin && RegistrationsApi.Admits(events, regs, caller.id, e.id) ==>
      ShowsJoin(RoleName(caller.role), caller.id, e)
  {
  }

  /** The "Your Event" badge marks exactly a manager's own events, on which
      the backend refuses a registration by that manager. */
  lemma YourEventMatchesBackend(caller: UserRecord, e: EventItem, events: map<int, EventRecord>,
                                regs: map<int, RegistrationRecord>)
    requires e.id in events && events[e.id].organizerId == e.organizerId
    ensures ShowsYourEvent(RoleName(caller.role), caller.id, e) <==>
      caller.role == Manager && events[e.id].organizerId == caller.id
    ensures ShowsYourEvent(RoleName(caller.role), caller.id, e) ==>
      !RegistrationsApi.Admits(events, regs, caller.id, e.id)
  {
  }

  /** The panel lists a user exactly when the backend's pending-manager
      query would: a manager not yet approved. */
  lemma PendingPanelMatchesQueue(u: UserRecord)
    ensures IsPendingManager(UserItemOf(u)) <==> u.role == Manager && !u.isApproved
  {
  }

  /** On an event card, Join and the "Your Event" badge never both appear;
      a manager sees exactly one of them; an admin sees neither. */
  lemma EventCardControls(role: string, userId: int, e: EventItem)
    ensures !(ShowsJoin(role, userId, e) && ShowsYourEvent(role, userId, e))
    ensures role == "manager" ==> ShowsJoin(role, userId, e) || ShowsYourEvent(role, userId, e)
    ensures role == "admin" ==> !ShowsJoin(role, userId, e) && !ShowsYourEvent(role, userId, e)
  {
  }

  /** The state cells of the page, as one value. */
  datatype DashboardState = DashboardState(
    events: seq<EventItem>,
    myRegistrations: seq<int>,
    pendingManagers: seq<UserItem>,
    selectedManager: Option<UserItem>,
    adminComment: string,
    searchTerm: string,
    filterType: string,
    filterStatus: string,
    currentPage: int)

  class Dashboard {
    /** The signed-in user. */
    const role: string
    const userId: int
    var events: seq<EventItem>
    /** The event ids of the user's registrations (`event_id` is the only key
        the page reads). */
    var myRegistrations: seq<int>
    var pendingManagers: seq<UserItem>
    var selectedManager: Option<UserItem>
    var adminComment: string
    var searchTerm: string
    var filterType: string
    var filterStatus: string
    var currentPage: int

    ghost predicate Valid()
      reads this
    {
      currentPage >= 1
    }

    function State(): DashboardState
      reads this
    {
      DashboardState(events, myRegistrations, pendingManagers, selectedManager, adminComment,
                     searchTerm, filterType, filterStatus, currentPage)
    }

    constructor (role: string, userId: int)
      ensures Valid() && this.role == role && this.userId == userId
      ensures State() == DashboardState([], [], [], None, "", "", "all", "all", 1)
    {
      this.role, this.userId := role, userId;
      events, myRegistrations, pendingManagers := [], [], [];
      selectedManager, adminComment := None, "";
      searchTerm, filterType, filterStatus := "", "all", "all";
      currentPage := 1;
    }

    /** `fetchData`, given each response (`None` when that request fails,
        which stops the sequence): the events; then the user's registrations
        for role user, or the pending managers among all users for an admin. */
    method FetchData(eventsRes: Option<seq<EventItem>>, registrationsRes: Option<seq<int>>,
                     usersRes: Option<seq<UserItem>>)
      requires Valid()
      modifies this
      ensures Valid()
      ensures eventsRes.None? ==> State() == old(State())
      ensures eventsRes.Some? ==> State() == old(State()).(
        events := eventsRes.value,
        myRegistrations :=
          if role == "user" && registrationsRes.Some? then registrationsRes.value else old(myRegistrations),
        pendingManagers :=
          if role == "admin" && usersRes.Some? then Filter(usersRes.value, IsPendingManager)
          else old(pendingManagers))
    {
      if eventsRes.None? {
        return;
      }
      events := eventsRes.value;
      if role == "user" {
        if registrationsRes.None? {
          return;
        }
        myRegistrations := registrationsRes.value;
      }
      if role == "admin" {
        if usersRes.None? {
          return;
        }
        pendingManagers := Filter(usersRes.value, IsPendingManager);
      }
    }

    /** `handleApproveManager`: always calls approve with the fixed reason;
        only when the call succeeds does exactly that id leave the panel. */
    method ApproveManager(managerId: int, ok: bool) returns (call: ApiCall)
      requires Valid()
      modifies this
      ensures Valid()
      ensures call == ApiCall(Put, UserActionPath(managerId, "approve"), Some("Approved by admin"))
      ensures ok ==> State() == old(State()).(pendingManagers := WithoutId(old(pendingManagers), managerId))
      ensures !ok ==> State() == old(State())
    {
      call := ApiCall(Put, UserActionPath(managerId, "approve"), Some("Approved by admin"));
      if ok {
        pendingManagers := WithoutId(pendingManagers, managerId);
      }
    }

    /** Opening (`Some`) or dismissing (`None`) the rejection dialog; the
        comment typed so far is kept. */
    method SelectManager(m: Option<UserItem>)
      requires Valid()
      modifies this
      ensures Valid()
      ensures State() == old(State()).(selectedManager := m)
    {
      selectedManager := m;
    }

    method SetAdminComment(comment: string)
      requires Valid()
      modifies this
      ensures Valid()
      ensures State() == old(State()).(adminComment := comment)
    {
      adminComment := comment;
    }

    /** `handleRejectManager`: nothing without a selected manager or with an
        empty comment (no request either); otherwise reject with the comment
        as reason, and on success drop that id and reset the dialog. */
    method RejectManager(ok: bool) returns (call: Option<ApiCall>)
      requires Valid()
      modifies this
      ensures Valid()
      ensures (old(selectedManager).None? || old(adminComment) == "") ==>
        call == None && State() == old(State())
      ensures old(selectedManager).Some? && old(adminComment) != "" ==>
        && call == Some(ApiCall(Put, UserActionPath(old(selectedManager).value.id, "reject"),
                                Some(old(adminComment))))
        && (ok ==> State() == old(State()).(
              pendingManagers := WithoutId(old(pendingManagers), old(selectedManager).value.id),
              selectedManager := None, adminComment := ""))
        && (!ok ==> State() == old(State()))
    {
      if selectedManager.None? {
        return None;
      }
      if adminComment == "" {
        return None;
      }
      var id := selectedManager.value.id;
      call := Some(ApiCall(Put, UserActionPath(id, "reject"), Some(adminComment)));
      if ok {
        pendingManagers := WithoutId(pendingManagers, id);
        selectedManager := None;
        adminComment := "";
      }
    }

    /** `isRegistered`: some registration of the user is for this event. */
    predicate IsRegistered(eventId: int)
      reads this
    {
      eventId in myRegistrations
    }

    /** `handleRegister`: registers; on success the event counts as
        registered from then on. */
    method Register(eventId: int, ok: bool) returns (call: ApiCall)
      requires Valid()
      modifies this
      ensures Valid()
      ensures call == ApiCall(Post, RegisterPath(eventId), None)
      ensures ok ==> State() == old(State()).(myRegistrations := old(myRegistrations) + [eventId])
                     && IsRegistered(eventId)
      ensures !ok ==> State() == old(State())
      ensures forall other :: old(IsRegistered(other)) ==> IsRegistered(other)
    {
      call := ApiCall(Post, RegisterPath(eventId), None);
      if ok {
        myRegistrations := myRegistrations + [eventId];
      }
    }

    /** The search box and drop-downs; none of them moves the current page. */
    method SetFilters(term: string, eventType: string, status: string)
      requires Valid()
      modifies this
      ensures Valid()
      ensures State() == old(State()).(searchTerm := term, filterType := eventType, filterStatus := status)
    {
      searchTerm, filterType, filterStatus := term, eventType, status;
    }

    /** The "clear filters" button of the empty state: afterwards every
        loaded event matches. */
    method ClearFilters()
      requires Valid()
      modifies this
      ensures Valid()
      ensures State() == old(State()).(searchTerm := "", filterType := "all", filterStatus := "all")
      ensures Filtered() == events
    {
      searchTerm, filterType, filterStatus := "", "all", "all";
      EmptySearchKeepsAll(events);
    }

    function Filtered(): seq<EventItem>
      reads this
    {
      FilteredEvents(events, searchTerm, filterType, filterStatus)
    }

    function TotalPages(): nat
      reads this
    {
      PageCount(|Filtered()|, PageSize)
    }

    /** `paginatedEvents`: the current page of the filtered events; empty when
        the current page lies past the last one (a narrower search keeps the
        page number). */
    function Visible(): (r: seq<EventItem>)
      requires Valid()
      reads this
      ensures |r| <= PageSize
      ensures forall i :: 0 <= i < |r| ==>
        (currentPage - 1) * PageSize + i < |Filtered()| && r[i] == Filtered()[(currentPage - 1) * PageSize + i]
      ensures currentPage > TotalPages() ==> r == []
    {
      PageBounds(|Filtered()|, PageSize, currentPage);
      Page(Filtered(), currentPage, PageSize)
    }

    /** The "Showing first to last of n" line, over the current page. */
    function ShowingRange(): (range: (int, int))
      requires Valid()
      reads this
      ensures currentPage <= TotalPages() ==> range.1 - range.0 + 1 == |Visible()|
    {
      var start := (currentPage - 1) * PageSize;
      var n := |Filtered()|;
      PageBounds(n, PageSize, currentPage);
      (start + 1, if start + PageSize <= n then start + PageSize else n)
    }

    /** The pagination bar is shown only with more than one page. */
    predicate ShowsPagination()
      reads this
    {
      TotalPages() > 1
    }

    /** The admin panel: shown to admins with at least one pending manager,
        listing the first three. */
    function PendingPreview(): (r: seq<UserItem>)
      reads this
      ensures role == "admin" && pendingManagers != [] ==> 1 <= |r| <= 3 && |r| <= |pendingManagers| && r == pendingManagers[..|r|]
      ensures !(role == "admin" && pendingManagers != []) ==> r == []
    {
      if role == "admin" && pendingManagers != [] then Window(pendingManagers, 0, 3) else []
    }

    /** Previous: never below page 1. */
    method PreviousPage()
      requires Valid()
      modifies this
      ensures Valid()
      ensures State() == old(State()).(currentPage := ListView.PreviousPage(old(currentPage)))
    {
      currentPage := ListView.PreviousPage(currentPage);
    }

    /** Next, offered only while the bar is shown: never past the last page. */
    method NextPage()
      requires Valid() && ShowsPagination()
      modifies this
      ensures Valid()
      ensures State() == old(State()).(currentPage := ListView.NextPage(old(currentPage), TotalPages()))
      ensures currentPage <= TotalPages()
    {
      currentPage := ListView.NextPage(currentPage, TotalPages());
    }

    /** A page-number button. */
    method GoToPage(page: int)
      requires Valid() && ShowsPagination() && 1 <= page <= TotalPages()
      modifies this
      ensures Valid()
      ensures State() == old(State()).(currentPage := page)
    {
      currentPage := page;
    }
  }
}
