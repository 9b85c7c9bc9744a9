/** The user endpoints: the ID-proof upload check, the manager-upgrade workflow
    (request, pending list, approve, reject, own status), the profile update
    and user deactivation. */
module UsersApi {
  import opened Common
  import opened Models
  import opened Database
  import opened ListView

  // ---------------------------------------------------------------------------
  // Upload of an ID proof

  /** The index of the last `c` in `s`, or -1 (`str.rfind`). */
  function LastIndexOf(s: string, c: char): (i: int)
    ensures -1 <= i < |s|
    ensures i >= 0 ==> s[i] == c && forall j :: i < j < |s| ==> s[j] != c
    ensures i == -1 ==> forall j :: 0 <= j < |s| ==> s[j] != c
  {
    if s == [] then -1
    else if s[|s| - 1] == c then |s| - 1
    else LastIndexOf(s[..|s| - 1], c)
  }

  /** `Path(p).name` on a POSIX path: the last component of a '/'-separated
      path once empty components (from repeated or trailing slashes) and "."
      components are dropped, or empty when none is left. */
  function FinalComponent(path: string): (name: string)
    ensures forall j :: 0 <= j < |name| ==> name[j] != '/'
    ensures name != "."
    decreases |path|
  {
    var i := LastIndexOf(path, '/');
    var last := path[i + 1..];
    if last != "" && last != "." then last
    else if i < 0 then ""
    else FinalComponent(path[..i])
  }

  /** A trailing separator, or a trailing "." component, does not change the
      name: "proof.pdf/" and "scan.png/." name "proof.pdf" and "scan.png". */
  lemma FinalComponentIgnoresTrailing(path: string)
    ensures FinalComponent(path + "/") == FinalComponent(path)
    ensures FinalComponent(path + "/.") == FinalComponent(path)
  {
    assert LastIndexOf(path + "/", '/') == |path|;
    assert (path + "/")[..|path|] == path;
    assert (path + "/.")[..|path + "/"|] == path + "/";
    assert LastIndexOf(path + "/.", '/') == |path| by {
      LastIndexOfAppend(path + "/", ".", '/');
    }
    assert (path + "/.")[..|path|] == path;
  }

  /** `PurePath.suffix`: from the last dot of the name on, provided that dot
      is neither the first nor the last character; otherwise empty. */
  function NameSuffix(name: string): (suffix: string)
    ensures suffix != "" <==>
      exists i :: 0 < i < |name| - 1 && name[i] == '.' && forall j :: i < j < |name| ==> name[j] != '.'
    ensures suffix != "" ==>
      && 2 <= |suffix| < |name| && suffix == name[|name| - |suffix|..]
      && suffix[0] == '.' && forall j :: 1 <= j < |suffix| ==> suffix[j] != '.'
  {
    var i := LastIndexOf(name, '.');
    if 0 < i < |name| - 1 then name[i..] else ""
  }

  /** `Path(filename).suffix.lower()`. */
  function FileExtension(filename: string): (ext: string)
    ensures ext != "" ==> |ext| >= 2 && ext[0] == '.'
    ensures forall j :: 0 <= j < |ext| ==> ext[j] != '/' && !IsUpper(ext[j])
    ensures forall j :: 1 <= j < |ext| ==> ext[j] != '.'
  {
    Lower(NameSuffix(FinalComponent(filename)))
  }

  /** The extensions an ID proof may have. */
  predicate IsAllowedExtension(ext: string)
  {
    ext == ".jpg" || ext == ".jpeg" || ext == ".png" || ext == ".pdf"
  }

  const UploadDirectory: string := "/uploads/id_proofs/"

  /** `upload_id_proof`, less the file write: 400 unless the lower-cased
      suffix of the file name is an allowed one; 500 when saving fails
      (`saved` is the outcome of the write); otherwise the public path of the
      stored file, named by the generated `uuid` and the lower-cased suffix. */
  function UploadIdProof(filename: string, uuid: string, saved: bool): (r: Result<string>)
    ensures r.Err? && r.error.status == 400 <==> !IsAllowedExtension(FileExtension(filename))
    ensures r.Err? && r.error.status == 500 <==> IsAllowedExtension(FileExtension(filename)) && !saved
    ensures r.Ok? ==> r.value == UploadDirectory + uuid + FileExtension(filename)
  {
    var ext := FileExtension(filename);
    if !IsAllowedExtension(ext) then
      Err(HttpError(400, "File type not allowed. Allowed types: .jpg, .jpeg, .png, .pdf"))
    else if !saved then
      Err(HttpError(500, "Failed to upload file"))
    else
      Ok(UploadDirectory + uuid + ext)
  }

  /** Appending characters other than `c` does not move the last `c`. */
  lemma {:induction false} LastIndexOfAppend(a: string, b: string, c: char)
    requires forall j :: 0 <= j < |b| ==> b[j] != c
    ensures LastIndexOf(a + b, c) == LastIndexOf(a, c)
  {
    if b != [] {
      var b' := b[..|b| - 1];
      assert (a + b)[..|a + b| - 1] == a + b';
      LastIndexOfAppend(a, b', c);
    } else {
      assert a + b == a;
    }
  }

  /** A UUID's text: not empty, with no dot and no slash. */
  predicate IsPlainName(uuid: string)
  {
    uuid != [] && forall j :: 0 <= j < |uuid| ==> uuid[j] != '.' && uuid[j] != '/'
  }

  /** A file stored under the upload directory is named by what follows it. */
  lemma FinalComponentOfStored(name: string)
    requires name != "" && name != "." && forall j :: 0 <= j < |name| ==> name[j] != '/'
    ensures FinalComponent(UploadDirectory + name) == name
  {
    var dir := "/uploads/id_proofs";
    assert UploadDirectory == dir + ['/'];
    LastIndexOfAppend(dir + ['/'], name, '/');
    assert LastIndexOf(dir + ['/'], '/') == |dir|;
    assert (dir + ['/'] + name)[|dir| + 1..] == name;
  }

  /** The suffix of `uuid + ext` is `ext` when `ext` is one dot followed by at
      least one character other than a dot, and `uuid` is a plain name. */
  lemma NameSuffixOfStored(uuid: string, ext: string)
    requires IsPlainName(uuid)
    requires |ext| >= 2 && ext[0] == '.'
    requires forall j :: 1 <= j < |ext| ==> ext[j] != '.'
    ensures NameSuffix(uuid + ext) == ext
  {
    assert uuid + ext == (uuid + ['.']) + ext[1..];
    LastIndexOfAppend(uuid + ['.'], ext[1..], '.');
    assert LastIndexOf(uuid + ['.'], '.') == |uuid|;
    assert (uuid + ext)[|uuid|..] == ext;
  }

  /** A file stored as `uuid + ext`, where `ext` is a lower-case extension,
      has the extension `ext`. */
  lemma StoredExtension(uuid: string, ext: string)
    requires IsPlainName(uuid)
    requires |ext| >= 2 && ext[0] == '.'
    requires forall j :: 1 <= j < |ext| ==> ext[j] != '.' && ext[j] != '/'
    requires Lower(ext) == ext
    ensures FileExtension(UploadDirectory + uuid + ext) == ext
  {
    var name := uuid + ext;
    assert forall j :: 0 <= j < |name| ==> name[j] != '/' by {
      forall j | 0 <= j < |name|
        ensures name[j] != '/'
      {
        if j >= |uuid| {
          assert name[j] == ext[j - |uuid|];
        }
      }
    }
    FinalComponentOfStored(name);
    assert UploadDirectory + uuid + ext == UploadDirectory + name;
    NameSuffixOfStored(uuid, ext);
  }

  /** The stored path keeps the extension of the uploaded file: reading the
      extension of the returned path gives the one that was checked. */
  lemma UploadedPathKeepsExtension(filename: string, uuid: string)
    requires IsPlainName(uuid)
    requires UploadIdProof(filename, uuid, true).Ok?
    ensures FileExtension(UploadIdProof(filename, uuid, true).value) == FileExtension(filename)
  {
    var ext := FileExtension(filename);
    assert IsAllowedExtension(ext);
    LowerIdempotent(NameSuffix(FinalComponent(filename)));
    StoredExtension(uuid, ext);
  }

  // ---------------------------------------------------------------------------
  // Listing

  /** `read_users`: all users in id order, `skip` of them skipped and at most
      `limit` of them returned; with no skip and a large enough limit, every
      user. The response is 500 when a returned user has no full name.
      Nothing changes. */
  method ReadUsers(db: Db, callerId: int, skip: nat, limit: nat) returns (r: Result<seq<UserRecord>>)
    requires db.Valid() && callerId in db.users && db.users[callerId].role == Admin
    ensures r == UsersResponse(Window(InKeyOrder(db.users, 1, db.nextUserId), skip, limit))
    ensures r.Err? ==>
      r.error == InternalServerError && exists id :: id in db.users && !HasFullName(db.users[id])
    ensures (forall id :: id in db.users ==> HasFullName(db.users[id])) ==> r.Ok?
    ensures r.Ok? ==>
      && |r.value| <= limit
      && (forall i, j :: 0 <= i < j < |r.value| ==> r.value[i].id < r.value[j].id)
      && (forall u :: u in r.value ==> u.id in db.users && db.users[u.id] == u)
      && (skip == 0 && limit >= |db.users| ==> forall id :: id in db.users ==> db.users[id] in r.value)
  {
    var all := InKeyOrder(db.users, 1, db.nextUserId);
    var rows := Window(all, skip, limit);
    UsersWindowRows(db.users, db.nextUserId, skip, limit);
    r := UsersResponse(rows);
    if r.Err? {
      var i :| 0 <= i < |rows| && !HasFullName(rows[i]);
      assert rows[i] in rows;
    }
  }

  /** The rows of a window over the users in key order are stored users, in
      increasing id order; with no skip and a large enough limit, all of them. */
  lemma UsersWindowRows(users: map<int, UserRecord>, next: int, skip: nat, limit: nat)
    requires forall id :: id in users ==> users[id].id == id && 1 <= id < next
    ensures var rows := Window(InKeyOrder(users, 1, next), skip, limit);
      && (forall u :: u in rows ==> u.id in users && users[u.id] == u)
      && (forall i, j :: 0 <= i < j < |rows| ==> rows[i].id < rows[j].id)
      && (skip == 0 && limit >= |users| ==> forall id :: id in users ==> users[id] in rows)
  {
    var all := InKeyOrder(users, 1, next);
    var rows := Window(all, skip, limit);
    InKeyOrderSorted(users, 1, next, (u: UserRecord) => u.id);
    forall u | u in rows
      ensures u.id in users && users[u.id] == u
    {
      var i :| 0 <= i < |rows| && rows[i] == u;
      assert u in all;
    }
    forall i, j | 0 <= i < j < |rows|
      ensures rows[i].id < rows[j].id
    {
      assert rows[i] == all[skip + i] && rows[j] == all[skip + j];
    }
    if skip == 0 && limit >= |users| {
      InKeyOrderLength(users, 1, next);
      assert rows == all;
      forall id | id in users
        ensures users[id] in rows
      {
        assert 1 <= id < next;
      }
    }
  }

  // ---------------------------------------------------------------------------
  // Manager-upgrade workflow

  /** `read_pending_managers`: exactly the users whose role is manager and who
      are not approved, in id order; 500 when one of them has no full name.
      Nothing changes. */
  method ReadPendingManagers(db: Db, callerId: int) returns (r: Result<seq<UserRecord>>)
    requires db.Valid() && callerId in db.users && db.users[callerId].role == Admin
    ensures r.Ok? <==> forall id :: id in db.users && db.users[id].role == Manager && !db.users[id].isApproved
                         ==> HasFullName(db.users[id])
    ensures r.Err? ==> r.error == InternalServerError
    ensures r.Ok? ==>
      && (forall i, j :: 0 <= i < j < |r.value| ==> r.value[i].id < r.value[j].id)
      && (forall u :: u in r.value ==>
            u.id in db.users && db.users[u.id] == u && u.role == Manager && !u.isApproved)
      && (forall id :: id in db.users && db.users[id].role == Manager && !db.users[id].isApproved ==>
            db.users[id] in r.value)
  {
    var pending := map id | id in db.users && db.users[id].role == Manager && !db.users[id].isApproved
                     :: db.users[id];
    var rows := InKeyOrder(pending, 1, db.nextUserId);
    InKeyOrderSorted(pending, 1, db.nextUserId, (u: UserRecord) => u.id);
    forall id | id in db.users && db.users[id].role == Manager && !db.users[id].isApproved
      ensures db.users[id] in rows
    {
      assert id in pending && pending[id] == db.users[id] && 1 <= id < db.nextUserId;
    }
    r := UsersResponse(rows);
    if r.Ok? {
      forall id | id in db.users && db.users[id].role == Manager && !db.users[id].isApproved
        ensures HasFullName(db.users[id])
      {
        var i :| 0 <= i < |rows| && rows[i] == db.users[id];
      }
    } else {
      var i :| 0 <= i < |rows| && !HasFullName(rows[i]);
      assert rows[i] in rows;
    }
  }

  /** `request_upgrade`: the caller becomes an unapproved manager with the
      given request fields. The rejection reason and admin comment of an earlier
      review stay as they were; nothing else changes. The change is committed
      even when the response, the updated caller, fails for want of a full
      name. */
  method RequestUpgrade(db: Db, callerId: int, isCompany: bool, additionalDetails: string,
                        idProofUrl: string) returns (r: Result<UserRecord>)
    requires db.Valid() && callerId in db.users
    modifies db
    ensures db.Valid()
    ensures db.events == old(db.events) && db.registrations == old(db.registrations)
    ensures db.users == old(db.users)[callerId := old(db.users)[callerId].(role := Manager, isApproved := false,
      isCompany := isCompany, additionalDetails := Some(additionalDetails), idProofUrl := Some(idProofUrl))]
    ensures r == UserResponse(db.users[callerId])
    ensures r.Ok? <==> HasFullName(old(db.users)[callerId])
  {
    var u := db.users[callerId];
    u := u.(role := Manager);
    u := u.(isApproved := false);
    u := u.(isCompany := isCompany);
    u := u.(additionalDetails := Some(additionalDetails));
    u := u.(idProofUrl := Some(idProofUrl));
    ReplaceUserKeepsTables(db.users, db.nextUserId, db.events, db.nextEventId,
                           db.registrations, db.nextRegistrationId, u);
    db.Commit(db.users[callerId := u], db.nextUserId, db.events, db.nextEventId,
              db.registrations, db.nextRegistrationId);
    r := UserResponse(u);
  }

  /** `get_my_manager_request`: the caller's own record when the caller is a
      manager (approved or not), otherwise 404; 500 for a manager without a
      full name. */
  function MyManagerRequest(caller: UserRecord): (r: Result<UserRecord>)
    ensures r.Ok? <==> caller.role == Manager && HasFullName(caller)
    ensures r.Ok? ==> r.value == caller
    ensures caller.role != Manager ==> r == Err(HttpError(404, "No manager request found"))
    ensures caller.role == Manager && !HasFullName(caller) ==> r == Err(InternalServerError)
  {
    if caller.role != Manager then Err(HttpError(404, "No manager request found")) else UserResponse(caller)
  }

  /** `approve_manager`: 404 for an unknown user, 400 for a user who is not a
      manager; otherwise that user is approved, loses any rejection reason and
      gets `reason` as the admin comment. Nothing else changes. The response
      is that user, or 500 after the commit when the user has no full name. */
  method ApproveManager(db: Db, callerId: int, userId: int, reason: Option<string>)
    returns (r: Result<UserRecord>)
    requires db.Valid() && callerId in db.users && db.users[callerId].role == Admin
    modifies db
    ensures db.Valid()
    ensures db.events == old(db.events) && db.registrations == old(db.registrations)
    ensures userId !in old(db.users) ==> r == Err(HttpError(404, "User not found"))
    ensures userId in old(db.users) && old(db.users)[userId].role != Manager ==>
      r == Err(HttpError(400, "User is not a manager"))
    ensures userId in old(db.users) && old(db.users)[userId].role == Manager ==>
      && db.users == old(db.users)[userId := old(db.users)[userId].(isApproved := true,
                                                rejectionReason := None, adminComment := reason)]
      && r == UserResponse(db.users[userId])
    ensures r.Ok? <==> userId in old(db.users) && old(db.users)[userId].role == Manager
                       && HasFullName(old(db.users)[userId])
    ensures !(userId in old(db.users) && old(db.users)[userId].role == Manager) ==> db.users == old(db.users)
  {
    if userId !in db.users {
      return Err(HttpError(404, "User not found"));
    }
    var user := db.users[userId];
    if user.role != Manager {
      return Err(HttpError(400, "User is not a manager"));
    }
    user := user.(isApproved := true);
    user := user.(rejectionReason := None);
    user := user.(adminComment := reason);
    ReplaceUserKeepsTables(db.users, db.nextUserId, db.events, db.nextEventId,
                           db.registrations, db.nextRegistrationId, user);
    db.Commit(db.users[userId := user], db.nextUserId, db.events, db.nextEventId,
              db.registrations, db.nextRegistrationId);
    r := UserResponse(user);
  }

  /** `reject_manager`: 404 for an unknown user, 400 for a user who is not a
      manager; otherwise that user is unapproved and `reason` becomes both the
      rejection reason and the admin comment. Nothing else changes. The
      response is that user, or 500 after the commit when the user has no
      full name. */
  method RejectManager(db: Db, callerId: int, userId: int, reason: string)
    returns (r: Result<UserRecord>)
    requires db.Valid() && callerId in db.users && db.users[callerId].role == Admin
    modifies db
    ensures db.Valid()
    ensures db.events == old(db.events) && db.registrations == old(db.registrations)
    ensures userId !in old(db.users) ==> r == Err(HttpError(404, "User not found"))
    ensures userId in old(db.users) && old(db.users)[userId].role != Manager ==>
      r == Err(HttpError(400, "User is not a manager"))
    ensures userId in old(db.users) && old(db.users)[userId].role == Manager ==>
      && db.users == old(db.users)[userId := old(db.users)[userId].(isApproved := false,
                                                rejectionReason := Some(reason), adminComment := Some(reason))]
      && r == UserResponse(db.users[userId])
    ensures r.Ok? <==> userId in old(db.users) && old(db.users)[userId].role == Manager
                       && HasFullName(old(db.users)[userId])
    ensures !(userId in old(db.users) && old(db.users)[userId].role == Manager) ==> db.users == old(db.users)
  {
    if userId !in db.users {
      return Err(HttpError(404, "User not found"));
    }
    var user := db.users[userId];
    if user.role != Manager {
      return Err(HttpError(400, "User is not a manager"));
    }
    user := user.(isApproved := false);
    user := user.(rejectionReason := Some(reason));
    user := user.(adminComment := Some(reason));
    ReplaceUserKeepsTables(db.users, db.nextUserId, db.events, db.nextEventId,
                           db.registrations, db.nextRegistrationId, user);
    db.Commit(db.users[userId := user], db.nextUserId, db.events, db.nextEventId,
              db.registrations, db.nextRegistrationId);
    r := UserResponse(user);
  }

  // ---------------------------------------------------------------------------
  // Profile update and deactivation

  /** A profile after an update: a field given a value holds it, a field given
      null is cleared, a field the update does not mention is unchanged. */
  function UpdatedProfile(profile: map<ProfileField, string>,
                          update: map<ProfileField, Option<string>>): (p: map<ProfileField, string>)
    ensures forall f :: f in update && update[f].Some? ==> f in p && p[f] == update[f].value
    ensures forall f :: f in update && update[f].None? ==> f !in p
    ensures forall f :: f !in update ==> (f in p <==> f in profile) && (f in p ==> p[f] == profile[f])
  {
    map f | f in profile.Keys + update.Keys && !(f in update && update[f].None?) ::
      if f in update then update[f].value else profile[f]
  }

  /** `update_user_me`: the `setattr` loop over the supplied fields. Only the
      caller's profile columns change, as `UpdatedProfile` says; role,
      approval, review and request fields cannot be reached through it. The
      change is committed before the response is built, so an update that
      clears the full name is stored and answered with 500. */
  method UpdateUserMe(db: Db, callerId: int, update: map<ProfileField, Option<string>>)
    returns (r: Result<UserRecord>)
    requires db.Valid() && callerId in db.users
    modifies db
    ensures db.Valid()
    ensures db.events == old(db.events) && db.registrations == old(db.registrations)
    ensures db.users == old(db.users)[callerId :=
      old(db.users)[callerId].(profile := UpdatedProfile(old(db.users)[callerId].profile, update))]
    ensures r == UserResponse(db.users[callerId])
    ensures r.Ok? <==> if FullName in update then update[FullName].Some?
                       else HasFullName(old(db.users)[callerId])
  {
    var profile := db.users[callerId].profile;
    ghost var original := profile;
    var remaining := update.Keys;
    while remaining != {}
      invariant remaining <= update.Keys
      invariant forall f :: f in update && f !in remaining && update[f].Some? ==>
        f in profile && profile[f] == update[f].value
      invariant forall f :: f in update && f !in remaining && update[f].None? ==> f !in profile
      invariant forall f :: (f !in update || f in remaining) ==>
        (f in profile <==> f in original) && (f in profile ==> profile[f] == original[f])
      decreases remaining
    {
      var field :| field in remaining;
      match update[field] {
        case Some(value) => profile := profile[field := value];
        case None => profile := profile - {field};
      }
      remaining := remaining - {field};
    }
    assert profile == UpdatedProfile(original, update);
    var u := db.users[callerId].(profile := profile);
    ReplaceUserKeepsTables(db.users, db.nextUserId, db.events, db.nextEventId,
                           db.registrations, db.nextRegistrationId, u);
    db.Commit(db.users[callerId := u], db.nextUserId, db.events, db.nextEventId,
              db.registrations, db.nextRegistrationId);
    r := UserResponse(u);
  }

  /** `deactivate_user`: 404 for an unknown user, 400 when admins target
      themselves; otherwise only that user's `is_active` becomes false, and
      the response is that user, or 500 when the user has no full name. */
  method DeactivateUser(db: Db, callerId: int, userId: int) returns (r: Result<UserRecord>)
    requires db.Valid() && callerId in db.users && db.users[callerId].role == Admin
    modifies db
    ensures db.Valid()
    ensures db.events == old(db.events) && db.registrations == old(db.registrations)
    ensures userId !in old(db.users) ==> r == Err(HttpError(404, "User not found"))
    ensures userId in old(db.users) && userId == callerId ==>
      r == Err(HttpError(400, "Cannot deactivate yourself"))
    ensures userId in old(db.users) && userId != callerId ==>
      && db.users == old(db.users)[userId := old(db.users)[userId].(isActive := false)]
      && r == UserResponse(db.users[userId])
    ensures r.Ok? <==> userId in old(db.users) && userId != callerId && HasFullName(old(db.users)[userId])
    ensures !(userId in old(db.users) && userId != callerId) ==> db.users == old(db.users)
  {
    if userId !in db.users {
      return Err(HttpError(404, "User not found"));
    }
    var user := db.users[userId];
    if user.id == callerId {
      return Err(HttpError(400, "Cannot deactivate yourself"));
    }
    user := user.(isActive := false);
    ReplaceUserKeepsTables(db.users, db.nextUserId, db.events, db.nextEventId,
                           db.registrations, db.nextRegistrationId, user);
    db.Commit(db.users[userId := user], db.nextUserId, db.events, db.nextEventId,
              db.registrations, db.nextRegistrationId);
    r := UserResponse(user);
  }
}
