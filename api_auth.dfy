/** The authentication endpoints: password login and self-registration. The
    password hash, its check and the signing of tokens are not part of this
    model: the hash and the check are parameters, and a token is represented
    by the subject it is issued for. */
module AuthApi {
  import opened Common
  import opened Models
  import opened Database

  /** An access token, known by its subject (the user id it is issued for). */
  datatype AccessToken = AccessToken(subject: int)

  /** The response body of both endpoints (`Token`). */
  datatype TokenResponse = TokenResponse(accessToken: AccessToken, tokenType: string)

  function BearerFor(userId: int): TokenResponse
  {
    TokenResponse(AccessToken(userId), "bearer")
  }

  /** `login_access_token` over the users stored under keys `[1, hi)`:
      400 "Incorrect email or password" when no user has the e-mail or the
      password does not match its hash (checked first); 400 "Inactive user"
      for a deactivated account; otherwise a bearer token for that user. */
  function Login(users: map<int, UserRecord>, hi: int, username: string, password: string,
                 verify: (string, string) -> bool): (r: Result<TokenResponse>)
    ensures (forall id :: 1 <= id < hi && id in users ==> users[id].email != username) ==>
      r == Err(HttpError(400, "Incorrect email or password"))
    ensures forall id :: 1 <= id < hi && id in users && users[id].email == username && UniqueEmails(users) ==>
      r == if !verify(password, users[id].hashedPassword) then Err(HttpError(400, "Incorrect email or password"))
           else if !users[id].isActive then Err(HttpError(400, "Inactive user"))
           else Ok(BearerFor(id))
    ensures r.Ok? ==> r.value.tokenType == "bearer" && r.value.accessToken.subject in users
                      && users[r.value.accessToken.subject].email == username
                      && users[r.value.accessToken.subject].isActive
    ensures r.Err? ==> r.error.status == 400
  {
    match FindByEmail(users, username, 1, hi)
    case None => Err(HttpError(400, "Incorrect email or password"))
    case Some(id) =>
      if !verify(password, users[id].hashedPassword) then Err(HttpError(400, "Incorrect email or password"))
      else if !users[id].isActive then Err(HttpError(400, "Inactive user"))
      else Ok(BearerFor(id))
  }

  /** The body of a registration request (`UserCreate`). */
  datatype SignUp = SignUp(email: string, password: string, fullName: string, phone: string)

  /** The length of the local part of an address: the text before its first
      '@', or all of it when there is none. */
  function LocalPartLength(address: string): (n: nat)
    ensures n <= |address|
    ensures forall i :: 0 <= i < n ==> address[i] != '@'
    ensures n < |address| ==> address[n] == '@'
  {
    if address == [] || address[0] == '@' then 0 else 1 + LocalPartLength(address[1..])
  }

  /** The address an `EmailStr` field holds once validated: the local part as
      typed, and from the first '@' on, lower-cased. */
  function NormalizedEmail(address: string): (e: string)
    ensures |e| == |address|
    ensures forall i :: 0 <= i < LocalPartLength(address) ==> e[i] == address[i]
    ensures forall i :: LocalPartLength(address) <= i < |address| ==> e[i] == LowerChar(address[i])
  {
    var n := LocalPartLength(address);
    address[..n] + Lower(address[n..])
  }

  /** Normalising a normalised address changes nothing, so a stored address
      is its own normal form. */
  lemma NormalizedEmailIdempotent(address: string)
    ensures NormalizedEmail(NormalizedEmail(address)) == NormalizedEmail(address)
  {
    var e := NormalizedEmail(address);
    var n := LocalPartLength(address);
    assert LocalPartLength(e) == n by {
      LocalPartLengthSame(address, e);
    }
  }

  /** Two addresses that agree on every '@' position have local parts of the
      same length. */
  lemma {:induction false} LocalPartLengthSame(a: string, b: string)
    requires |a| == |b| && forall i :: 0 <= i < |a| ==> (a[i] == '@' <==> b[i] == '@')
    ensures LocalPartLength(a) == LocalPartLength(b)
  {
    if a != [] && a[0] != '@' {
      LocalPartLengthSame(a[1..], b[1..]);
    }
  }

  /** An address is its own normal form exactly when nothing after its
      first '@' is an upper-case letter. */
  lemma NormalizedEmailFixed(address: string)
    ensures NormalizedEmail(address) == address <==>
      forall i :: LocalPartLength(address) <= i < |address| ==> !IsUpper(address[i])
  {
    var n := LocalPartLength(address);
    if NormalizedEmail(address) == address {
      forall i | n <= i < |address|
        ensures !IsUpper(address[i])
      {
        assert NormalizedEmail(address)[i] == LowerChar(address[i]);
      }
    }
  }

  /** The error a request body whose `email` is not an address receives. */
  const InvalidEmail := HttpError(422, "value is not a valid email address")

  /** `register_user`: 422 when the `email` of the body is not an address
      (`isEmail` is the address check of the e-mail validator); 400 when the
      normalised address is taken; in both cases nothing is created.
      Otherwise a new approved user with role user, the normalised address,
      the hashed password and the given name and phone, under the next id, and
      a token for it. */
  method RegisterUser(db: Db, input: SignUp, hash: string -> string, isEmail: string -> bool)
    returns (r: Result<TokenResponse>)
    requires db.Valid()
    modifies db
    ensures db.Valid()
    ensures db.events == old(db.events) && db.registrations == old(db.registrations)
    ensures !isEmail(input.email) ==> r == Err(InvalidEmail)
    ensures isEmail(input.email)
            && (exists id :: id in old(db.users) && old(db.users)[id].email == NormalizedEmail(input.email)) ==>
      r == Err(HttpError(400, "The user with this email already exists in the system"))
    ensures r.Ok? <==> isEmail(input.email)
                       && forall id :: id in old(db.users) ==> old(db.users)[id].email != NormalizedEmail(input.email)
    ensures r.Err? ==> db.users == old(db.users)
    ensures r.Ok? ==>
      var id := old(db.nextUserId);
      && r.value == BearerFor(id)
      && id !in old(db.users)
      && db.users == old(db.users)[id := NewRegisteredUser(id, input, hash)]
      && |db.users| == |old(db.users)| + 1
  {
    if !isEmail(input.email) {
      return Err(InvalidEmail);
    }
    var existing := FindByEmail(db.users, NormalizedEmail(input.email), 1, db.nextUserId);
    if existing.Some? {
      return Err(HttpError(400, "The user with this email already exists in the system"));
    }
    var id := db.nextUserId;
    var user := NewRegisteredUser(id, input, hash);
    InsertKeepsTables(db.users, id, db.events, db.nextEventId, db.registrations, db.nextRegistrationId, user);
    db.Commit(db.users[id := user], id + 1, db.events, db.nextEventId, db.registrations, db.nextRegistrationId);
    r := Ok(BearerFor(id));
  }

  /** The row `register_user` creates: role user and approved, with the
      normalised address, the hash of the password and the full name and phone
      set. */
  function NewRegisteredUser(id: int, input: SignUp, hash: string -> string): (u: UserRecord)
    ensures u.id == id && u.email == NormalizedEmail(input.email) && u.hashedPassword == hash(input.password)
    ensures u.role == User && u.isApproved && u.isActive
    ensures u.profile == map[FullName := input.fullName, Phone := input.phone]
    ensures u.rejectionReason == None && u.adminComment == None && u.idProofUrl == None
  {
    DefaultUser(id, NormalizedEmail(input.email), hash(input.password))
      .(isApproved := true, profile := map[FullName := input.fullName, Phone := input.phone])
  }

  /** A user who has just registered can log in with the stored (normalised)
      address and the same password, provided the password check accepts the
      password against its own hash, and gets a token for the new id. */
  lemma RegisteredUserCanLogIn(users: map<int, UserRecord>, hi: int, input: SignUp,
                               hash: string -> string, verify: (string, string) -> bool)
    requires 1 <= hi && forall id :: id in users ==> id < hi
    requires forall id :: id in users ==> users[id].email != NormalizedEmail(input.email)
    requires verify(input.password, hash(input.password))
    ensures Login(users[hi := NewRegisteredUser(hi, input, hash)], hi + 1,
                  NormalizedEmail(input.email), input.password, verify) == Ok(BearerFor(hi))
  {
    var after := users[hi := NewRegisteredUser(hi, input, hash)];
    assert hi in after && after[hi].email == NormalizedEmail(input.email);
    assert forall id :: id in after && id != hi ==> after[id].email != NormalizedEmail(input.email);
  }

  /** The login form compares the address exactly as typed: logging in with
      the address given at registration works exactly when it was already in
      normal form (no capitals after its '@'), unless another account holds
      the typed address. */
  lemma TypedAddressLogIn(users: map<int, UserRecord>, hi: int, input: SignUp,
                          hash: string -> string, verify: (string, string) -> bool)
    requires 1 <= hi && forall id :: id in users ==> id < hi
    requires forall id :: id in users ==>
      users[id].email != NormalizedEmail(input.email) && users[id].email != input.email
    requires verify(input.password, hash(input.password))
    ensures Login(users[hi := NewRegisteredUser(hi, input, hash)], hi + 1,
                  input.email, input.password, verify).Ok?
            <==> forall i :: LocalPartLength(input.email) <= i < |input.email| ==> !IsUpper(input.email[i])
  {
    NormalizedEmailFixed(input.email);
    RegisteredUserCanLogIn(users, hi, input, hash, verify);
    var after := users[hi := NewRegisteredUser(hi, input, hash)];
    if NormalizedEmail(input.email) != input.email {
      assert forall id :: 1 <= id < hi + 1 && id in after ==> after[id].email != input.email;
    }
  }
}
