/** What the frontend pages hold: the JSON objects the backend returns (only
    the keys the pages read), the requests the pages send, and the rendering
    of a backend row as such an object. Roles and statuses arrive as strings. */
module Items {
  import opened Common
  import opened Decimal
  import opened Models
  import opened ListView

  /** A user object as the `/users/...` endpoints return it. */
  datatype UserItem = UserItem(
    id: int,
    email: Option<string>,
    fullName: Option<string>,
    role: string,
    isActive: bool,
    isApproved: bool,
    rejectionReason: Option<string>,
    adminComment: Option<string>,
    idProofUrl: Option<string>)

  /** An event object as the `/events/...` endpoints return it. */
  datatype EventItem = EventItem(
    id: int,
    title: string,
    eventType: string,
    status: string,
    organizerId: int)

  /** The nested `user` summary of a registration. */
  datatype Attendee = Attendee(fullName: Option<string>, email: Option<string>)

  /** A registration object as the `/registrations/...` endpoints return it. */
  datatype RegistrationItem = RegistrationItem(
    id: int,
    eventId: int,
    status: string,
    confirmationId: Option<string>,
    rejectionReason: Option<string>,
    user: Option<Attendee>)

  datatype Verb = Get | Post | Put | Delete

  /** A request a page sends: verb, path and the `reason` query parameter. */
  datatype ApiCall = ApiCall(verb: Verb, path: string, reason: Option<string>)

  /** `/users/{id}/{action}`. */
  function UserActionPath(userId: int, action: string): (p: string)
    ensures "/users/" <= p
  {
    "/users/" + IntToString(userId) + "/" + action
  }

  /** `/registrations/{id}/{action}`. */
  function RegistrationActionPath(registrationId: int, action: string): (p: string)
    ensures "/registrations/" <= p
  {
    "/registrations/" + IntToString(registrationId) + "/" + action
  }

  /** `/registrations/{eventId}`: the path that registers for an event. */
  function RegisterPath(eventId: int): (p: string)
    ensures "/registrations/" <= p
  {
    "/registrations/" + IntToString(eventId)
  }

  /** The index of the first `c` in `s`, or `|s|` when there is none. */
  function FirstIndexOf(s: string, c: char): (i: nat)
    ensures i <= |s|
  {
    if s == [] then 0 else if s[0] == c then 0 else 1 + FirstIndexOf(s[1..], c)
  }

  /** In `x + "/" + y`, the first '/' is the one after `x` when `x` has none. */
  lemma {:induction false} FirstSlash(x: string, y: string)
    requires forall j :: 0 <= j < |x| ==> x[j] != '/'
    ensures FirstIndexOf(x + "/" + y, '/') == |x|
  {
    if x != [] {
      assert (x + "/" + y)[1..] == x[1..] + "/" + y;
      FirstSlash(x[1..], y);
    }
  }

  /** A decimal integer has no '/'. */
  lemma NoSlashInNumber(i: int)
    ensures forall j :: 0 <= j < |IntToString(i)| ==> IntToString(i)[j] != '/'
  {
    if i < 0 {
      assert IntToString(i) == "-" + NatToString(-i);
    }
  }

  /** Requests for different users, or different actions, go to different
      paths. */
  lemma UserActionPathInjective(a: int, actionA: string, b: int, actionB: string)
    requires UserActionPath(a, actionA) == UserActionPath(b, actionB)
    ensures a == b && actionA == actionB
  {
    var sa, sb := IntToString(a), IntToString(b);
    var pa := UserActionPath(a, actionA);
    assert pa[7..] == sa + "/" + actionA;
    assert pa[7..] == sb + "/" + actionB;
    NoSlashInNumber(a);
    NoSlashInNumber(b);
    FirstSlash(sa, actionA);
    FirstSlash(sb, actionB);
    assert sa == pa[7..][..|sa|] == sb;
    IntToStringInjective(a, b);
    assert actionA == pa[7..][|sa| + 1..] == actionB;
  }

  /** Requests for different registrations, or different actions, go to
      different paths. */
  lemma RegistrationActionPathInjective(a: int, actionA: string, b: int, actionB: string)
    requires RegistrationActionPath(a, actionA) == RegistrationActionPath(b, actionB)
    ensures a == b && actionA == actionB
  {
    var sa, sb := IntToString(a), IntToString(b);
    var pa := RegistrationActionPath(a, actionA);
    assert pa[15..] == sa + "/" + actionA;
    assert pa[15..] == sb + "/" + actionB;
    NoSlashInNumber(a);
    NoSlashInNumber(b);
    FirstSlash(sa, actionA);
    FirstSlash(sb, actionB);
    assert sa == pa[15..][..|sa|] == sb;
    IntToStringInjective(a, b);
    assert actionA == pa[15..][|sa| + 1..] == actionB;
  }

  /** Registering for different events posts to different paths. */
  lemma RegisterPathInjective(a: int, b: int)
    requires RegisterPath(a) == RegisterPath(b)
    ensures a == b
  {
    assert RegisterPath(a)[15..] == IntToString(a);
    assert RegisterPath(b)[15..] == IntToString(b);
    IntToStringInjective(a, b);
  }

  /** The JSON object a `users` row is serialised as. */
  function UserItemOf(u: UserRecord): (item: UserItem)
    ensures item.id == u.id && item.role == RoleName(u.role)
    ensures item.isApproved == u.isApproved && item.isActive == u.isActive
    ensures item.rejectionReason == u.rejectionReason && item.adminComment == u.adminComment
    ensures item.idProofUrl == u.idProofUrl && item.email == Some(u.email)
  {
    UserItem(u.id, Some(u.email), FullNameOf(u), RoleName(u.role), u.isActive, u.isApproved,
             u.rejectionReason, u.adminComment, u.idProofUrl)
  }

  /** The JSON object a `registrations` row is serialised as; the schema
      requires an event id, so a row whose event was deleted has none. */
  function RegistrationItemOf(g: RegistrationRecord, attendee: Option<Attendee>): (item: RegistrationItem)
    requires g.eventId.Some?
    ensures item.id == g.id && item.eventId == g.eventId.value
    ensures item.status == RegistrationStatusName(g.status)
    ensures item.confirmationId == g.confirmationId && item.rejectionReason == g.rejectionReason
  {
    RegistrationItem(g.id, g.eventId.value, RegistrationStatusName(g.status), g.confirmationId,
                     g.rejectionReason, attendee)
  }

  /** `users.filter(u => u.id !== id)`: the list without the entries of
      that id, the others in their order. */
  function WithoutId(users: seq<UserItem>, id: int): (r: seq<UserItem>)
    ensures forall u :: u in r <==> u in users && u.id != id
    ensures IsSubsequence(r, users)
  {
    FilterIsSubsequence(users, (u: UserItem) => u.id != id);
    Filter(users, (u: UserItem) => u.id != id)
  }
}
