/** The admin's user table: search by name or e-mail, pagination with a
    choosable page size, and deactivation. */
module ManageUsersPage {
  import opened Common
  import opened Models
  import opened Items
  import opened ListView

  /** The page sizes the "Show" drop-down offers. */
  predicate IsPageSizeOption(size: int)
  {
    size == 10 || size == 25 || size == 50
  }

  /** `user.full_name?.toLowerCase().includes(q) || user.email?...`: a missing
      name or e-mail never matches, not even an empty query. */
  predicate MatchesQuery(u: UserItem, query: string)
  {
    || (u.fullName.Some? && Contains(Lower(u.fullName.value), Lower(query)))
    || (u.email.Some? && Contains(Lower(u.email.value), Lower(query)))
  }

  function FilteredUsers(users: seq<UserItem>, query: string): (r: seq<UserItem>)
    ensures forall u :: u in r <==> u in users && MatchesQuery(u, query)
    ensures IsSubsequence(r, users)
  {
    FilterIsSubsequence(users, (u: UserItem) => MatchesQuery(u, query));
    Filter(users, (u: UserItem) => MatchesQuery(u, query))
  }

  /** The empty query lists every user who has a name or an e-mail. */
  lemma EmptyQueryKeepsNamed(users: seq<UserItem>, u: UserItem)
    requires u in users && (u.fullName.Some? || u.email.Some?)
    ensures u in FilteredUsers(users, "")
  {
    if u.fullName.Some? {
      ContainsEmpty(Lower(u.fullName.value));
    } else {
      ContainsEmpty(Lower(u.email.value));
    }
  }

  /** `users.map(u => u.id === userId ? { ...u, is_active: false } : u)`. */
  function MarkInactive(users: seq<UserItem>, userId: int): (r: seq<UserItem>)
    ensures |r| == |users|
    ensures forall i :: 0 <= i < |r| ==>
      r[i] == if users[i].id == userId then users[i].(isActive := false) else users[i]
  {
    seq(|users|, i requires 0 <= i < |users| =>
      if users[i].id == userId then users[i].(isActive := false) else users[i])
  }

  /** The deactivate button: active users who are not admins. */
  predicate ShowsDeactivate(u: UserItem)
  {
    u.isActive && u.role != "admin"
  }

  /** After a deactivation, no row of that user offers the button again, and
      every other row offers it exactly as before. */
  lemma DeactivatedLosesButton(users: seq<UserItem>, userId: int, i: nat)
    requires i < |users|
    ensures MarkInactive(users, userId)[i].id == users[i].id
    ensures users[i].id == userId ==> !ShowsDeactivate(MarkInactive(users, userId)[i])
    ensures users[i].id != userId ==>
      ShowsDeactivate(MarkInactive(users, userId)[i]) == ShowsDeactivate(users[i])
  {
  }

  /** The button appears for the active users who are not admins, so the
      admin viewing the page never has it on their own row: a click never
      meets the backend's "Cannot deactivate yourself" refusal. */
  lemma DeactivateNeverTargetsSelf(users: map<int, UserRecord>, adminId: int, userId: int)
    requires adminId in users && users[adminId].role == Admin
    requires userId in users
    ensures ShowsDeactivate(UserItemOf(users[userId])) <==>
      users[userId].isActive && users[userId].role != Admin
    ensures ShowsDeactivate(UserItemOf(users[userId])) ==> userId != adminId
  {
  }

  datatype ManageUsersState = ManageUsersState(
    users: seq<UserItem>,
    currentPage: int,
    pageSize: int,
    searchQuery: string)

  class ManageUsers {
    var users: seq<UserItem>
    var currentPage: int
    var pageSize: int
    var searchQuery: string

    ghost predicate Valid()
      reads this
    {
      currentPage >= 1 && IsPageSizeOption(pageSize)
    }

    function State(): ManageUsersState
      reads this
    {
      ManageUsersState(users, currentPage, pageSize, searchQuery)
    }

    constructor ()
      ensures Valid()
      ensures State() == ManageUsersState([], 1, 10, "")
    {
      users, currentPage, pageSize, searchQuery := [], 1, 10, "";
    }

    /** `fetchUsers`: the list is replaced on success and kept on failure. */
    method FetchUsers(response: Option<seq<UserItem>>)
      requires Valid()
      modifies this
      ensures Valid()
      ensures State() == old(State()).(users := if response.Some? then response.value else old(users))
    {
      if response.Some? {
        users := response.value;
      }
    }

    /** `handleDeactivate`: nothing when the confirmation is cancelled (and no
        request); otherwise deactivate, and on success mark exactly the rows
        of that user inactive; a failed call leaves the list as it was. */
    method Deactivate(userId: int, confirmed: bool, ok: bool) returns (call: Option<ApiCall>)
      requires Valid()
      modifies this
      ensures Valid()
      ensures !confirmed ==> call == None && State() == old(State())
      ensures confirmed ==> call == Some(ApiCall(Put, UserActionPath(userId, "deactivate"), None))
      ensures confirmed && ok ==> State() == old(State()).(users := MarkInactive(old(users), userId))
      ensures confirmed && !ok ==> State() == old(State())
    {
      if !confirmed {
        return None;
      }
      call := Some(ApiCall(Put, UserActionPath(userId, "deactivate"), None));
      if ok {
        users := MarkInactive(users, userId);
      }
    }

    method SetSearchQuery(query: string)
      requires Valid()
      modifies this
      ensures Valid()
      ensures State() == old(State()).(searchQuery := query)
    {
      searchQuery := query;
    }

    function Filtered(): seq<UserItem>
      reads this
    {
      FilteredUsers(users, searchQuery)
    }

    function TotalPages(): nat
      requires Valid()
      reads this
    {
      PageCount(|Filtered()|, pageSize)
    }

    /** `paginatedUsers`: the slice `[(page - 1) * size, page * size)` of the
        filtered users. */
    function Visible(): (r: seq<UserItem>)
      requires Valid()
      reads this
      ensures |r| <= pageSize
      ensures forall i :: 0 <= i < |r| ==>
        (currentPage - 1) * pageSize + i < |Filtered()| && r[i] == Filtered()[(currentPage - 1) * pageSize + i]
      ensures currentPage <= TotalPages() ==> r != []
    {
      PageBounds(|Filtered()|, pageSize, currentPage);
      Page(Filtered(), currentPage, pageSize)
    }

    /** `handlePageSizeChange`: a new size, back to page 1. */
    method ChangePageSize(size: int)
      requires Valid() && IsPageSizeOption(size)
      modifies this
      ensures Valid()
      ensures State() == old(State()).(pageSize := size, currentPage := 1)
    {
      pageSize := size;
      currentPage := 1;
    }

    /** `goToPage`: the requested page clamped into `[1, totalPages]` (1 when
        there are no pages). Previous and Next call it with the neighbours of
        the current page. */
    method GoToPage(page: int)
      requires Valid()
      modifies this
      ensures Valid()
      ensures State() == old(State()).(currentPage := ClampPage(page, old(TotalPages())))
      ensures TotalPages() >= 1 ==> 1 <= currentPage <= TotalPages()
    {
      currentPage := ClampPage(page, TotalPages());
    }
  }
}
