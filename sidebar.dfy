/** The navigation sidebar: the entries each role sees, in order, and which
    one is highlighted. */
module SidebarNav {
  import opened Common

  datatype NavEntry = NavEntry(title: string, path: string)

  const DashboardEntry := NavEntry("Dashboard", "/")
  const MyEventsEntry := NavEntry("My Events", "/my-events")
  const MyProfileEntry := NavEntry("My Profile", "/my-profile")
  const ManagerRequestEntry := NavEntry("Manager Request", "/my-manager-request")
  const ManageUsersEntry := NavEntry("Manage Users", "/admin/users")
  const ManagerRequestsEntry := NavEntry("Manager Requests", "/admin/requests")
  const BecomeManagerEntry := NavEntry("Become Manager", "/become-manager")

  /** The entries for the signed-in user's role (`None` when nobody is signed
      in), top to bottom. */
  function Entries(role: Option<string>): (r: seq<NavEntry>)
    ensures |r| >= 1 && r[0] == DashboardEntry
    ensures role == Some("admin") ==> r == [DashboardEntry, ManageUsersEntry, ManagerRequestsEntry]
    ensures role != Some("admin") ==> |r| >= 3 && r[1] == MyEventsEntry && r[2] == MyProfileEntry
    ensures ManagerRequestEntry in r <==> role == Some("user") || role == Some("manager")
    ensures BecomeManagerEntry in r <==> role == Some("user")
    ensures MyEventsEntry in r <==> role != Some("admin")
  {
    var personal :=
      if role != Some("admin") then
        [MyEventsEntry, MyProfileEntry]
        + (if role == Some("user") || role == Some("manager") then [ManagerRequestEntry] else [])
      else [];
    var administration := if role == Some("admin") then [ManageUsersEntry, ManagerRequestsEntry] else [];
    var actions := if role == Some("user") then [BecomeManagerEntry] else [];
    [DashboardEntry] + personal + administration + actions
  }

  /** `isActive`: the pathname equals the entry's path exactly. */
  predicate IsActive(pathname: string, e: NavEntry)
  {
    pathname == e.path
  }

  /** No two entries share a path, so at most one entry is highlighted. */
  lemma AtMostOneActive(role: Option<string>, pathname: string)
    ensures forall i, j :: 0 <= i < j < |Entries(role)| ==> Entries(role)[i].path != Entries(role)[j].path
    ensures forall i, j :: 0 <= i < j < |Entries(role)| ==>
      !(IsActive(pathname, Entries(role)[i]) && IsActive(pathname, Entries(role)[j]))
  {
    var r := Entries(role);
    if role == Some("admin") {
      assert r == [DashboardEntry, ManageUsersEntry, ManagerRequestsEntry];
    } else if role == Some("user") {
      assert r == [DashboardEntry, MyEventsEntry, MyProfileEntry, ManagerRequestEntry, BecomeManagerEntry];
    } else if role == Some("manager") {
      assert r == [DashboardEntry, MyEventsEntry, MyProfileEntry, ManagerRequestEntry];
    } else {
      assert r == [DashboardEntry, MyEventsEntry, MyProfileEntry];
    }
  }
}
