/** The three tables of the backend (users, events, registrations): their
    enumerations, their records and the defaults a new row takes. */
module Models {
  import opened Common

  /** `UserRole`: every user has exactly one of these three roles. */
  datatype UserRole = Admin | Manager | User

  datatype EventType = Online | Offline

  datatype EventStatus = Draft | Published | Cancelled | Completed

  /** `RegistrationStatus`: four values, `Cancelled` included. */
  datatype RegistrationStatus = Pending | Approved | Rejected | Cancelled

  /** The string value each role is stored and serialised as. */
  function RoleName(r: UserRole): string
  {
    match r
    case Admin => "admin"
    case Manager => "manager"
    case User => "user"
  }

  /** `UserRole(s)`: the role whose value is `s`, if any. */
  function ParseRole(s: string): (r: Option<UserRole>)
    ensures r.Some? <==> s in {"admin", "manager", "user"}
    ensures r.Some? ==> RoleName(r.value) == s
  {
    if s == "admin" then Some(Admin)
    else if s == "manager" then Some(Manager)
    else if s == "user" then Some(User)
    else None
  }

  /** Each role is written as exactly one string, and reads back as itself. */
  lemma RoleNameRoundTrip(r: UserRole)
    ensures ParseRole(RoleName(r)) == Some(r)
  {
  }

  function EventTypeName(t: EventType): string
  {
    match t
    case Online => "online"
    case Offline => "offline"
  }

  function EventStatusName(s: EventStatus): string
  {
    match s
    case Draft => "draft"
    case Published => "published"
    case Cancelled => "cancelled"
    case Completed => "completed"
  }

  /** `EventStatus(s)`. */
  function ParseEventStatus(s: string): (r: Option<EventStatus>)
    ensures r.Some? <==> s in {"draft", "published", "cancelled", "completed"}
    ensures r.Some? ==> EventStatusName(r.value) == s
  {
    if s == "draft" then Some(Draft)
    else if s == "published" then Some(Published)
    else if s == "cancelled" then Some(EventStatus.Cancelled)
    else if s == "completed" then Some(Completed)
    else None
  }

  function RegistrationStatusName(s: RegistrationStatus): string
  {
    match s
    case Pending => "pending"
    case Approved => "approved"
    case Rejected => "rejected"
    case Cancelled => "cancelled"
  }

  /** `RegistrationStatus(s)`. */
  function ParseRegistrationStatus(s: string): (r: Option<RegistrationStatus>)
    ensures r.Some? <==> s in {"pending", "approved", "rejected", "cancelled"}
    ensures r.Some? ==> RegistrationStatusName(r.value) == s
  {
    if s == "pending" then Some(Pending)
    else if s == "approved" then Some(Approved)
    else if s == "rejected" then Some(Rejected)
    else if s == "cancelled" then Some(RegistrationStatus.Cancelled)
    else None
  }

  /** The nullable string columns a profile update may set (`UserProfileUpdate`). */
  datatype ProfileField =
    | FullName | Phone | City | State | Country
    | LinkedinUrl | YoutubeUrl | FacebookUrl | TwitterUrl | InstagramUrl
    | AboutMe | Gender | Dob

  /** A row of `users`. `profile` holds the non-null profile columns; a field
      missing from it is NULL. `email` is unique across rows (see
      `Database.Db.Valid`). */
  datatype UserRecord = UserRecord(
    id: int,
    email: string,
    hashedPassword: string,
    role: UserRole,
    isActive: bool,
    isApproved: bool,
    rejectionReason: Option<string>,
    adminComment: Option<string>,
    isCompany: bool,
    additionalDetails: Option<string>,
    idProofUrl: Option<string>,
    profile: map<ProfileField, string>)

  /** The nullable `full_name` column. */
  function FullNameOf(u: UserRecord): Option<string>
  {
    if FullName in u.profile then Some(u.profile[FullName]) else None
  }

  /** A `users` row built from its required columns: every other column at its
      default (role user, active, not approved, not a company, no review
      fields, no request fields, an empty profile). */
  function DefaultUser(id: int, email: string, hashedPassword: string): (u: UserRecord)
    ensures u.id == id && u.email == email && u.hashedPassword == hashedPassword
    ensures u.role == User && u.isActive && !u.isApproved && !u.isCompany
    ensures u.rejectionReason == None && u.adminComment == None
    ensures u.additionalDetails == None && u.idProofUrl == None
    ensures u.profile == map[]
  {
    UserRecord(id, email, hashedPassword, User, true, false, None, None, false, None, None, map[])
  }

  /** A row of `events`. Date-times are opaque instants (integers). */
  datatype EventRecord = EventRecord(
    id: int,
    title: string,
    description: string,
    startTime: int,
    endTime: int,
    location: string,
    eventType: EventType,
    capacity: int,
    status: EventStatus,
    isActive: bool,
    organizerId: int)

  /** An `events` row built from the columns a create request supplies: the
      status is draft and the event is active until set otherwise. */
  function DefaultEvent(id: int, title: string, description: string, startTime: int,
                        endTime: int, location: string, eventType: EventType, capacity: int,
                        organizerId: int): (e: EventRecord)
    ensures e.status == Draft && e.isActive
    ensures e.id == id && e.organizerId == organizerId && e.capacity == capacity
  {
    EventRecord(id, title, description, startTime, endTime, location, eventType, capacity,
                Draft, true, organizerId)
  }

  /** A row of `registrations`. `eventId` is NULL once its event is deleted. */
  datatype RegistrationRecord = RegistrationRecord(
    id: int,
    userId: int,
    eventId: Option<int>,
    status: RegistrationStatus,
    registrationDate: int,
    confirmationId: Option<string>,
    attended: bool,
    rejectionReason: Option<string>)

  /** A `registrations` row built from its user, event and date: pending,
      not attended, with no confirmation id and no rejection reason. */
  function DefaultRegistration(id: int, userId: int, eventId: int, registrationDate: int)
    : (g: RegistrationRecord)
    ensures g.status == Pending && !g.attended
    ensures g.confirmationId == None && g.rejectionReason == None
    ensures g.id == id && g.userId == userId && g.eventId == Some(eventId)
  {
    RegistrationRecord(id, userId, Some(eventId), Pending, registrationDate, None, false, None)
  }
}
