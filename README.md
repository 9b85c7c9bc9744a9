# Event management platform: a verified model

This Dafny project models the core of an event management platform. The
platform has a FastAPI backend over an SQL database and a React frontend.

**Backend.** Users sign up and log in. They register for events and get a
confirmation id of the form `EVT-{event id}-{6 digits}`. Organisers and
admins approve or reject registrations.

- A user may ask to become an event manager by uploading an ID proof. An admin
  approves or rejects the request.
- Managers and admins create events. Organisers and admins update them.
- Only admins deactivate events and users. Only the organiser deletes an event.

**Frontend.** The React pages filter and paginate events and users. They
update their lists after each successful call, guard rejections behind a
non-empty reason, and derive what each role sees.

**How each layer is modelled.**

- **Data** (`models.dfy`, `database.dfy`):
  - The three tables are datatypes held in maps inside one `Db` object.
  - Its `Valid()` invariant gathers the column constraints and the facts the
    endpoints keep. These are:
    - every row is stored under its own key;
    - e-mails are unique, and confirmation ids are unique;
    - no user is both approved and carrying a rejection reason;
    - a user has at most one registration per event;
    - every reference points to an existing row;
    - the next id of a table is one more than its largest id, or 1 when it
      is empty, as SQLite assigns an integer primary key.
- **Endpoints** (`api_*.dfy`):
  - Each endpoint is a method that takes the `Db` and the caller's id.
  - It returns `Ok` or `Err(HttpError(status, detail))` with the same status
    codes, detail strings and order of checks as the source.
  - A result the response schema rejects becomes 500 "Internal Server
    Error", after the handler has committed. Two cases arise: a user
    without a full name, and a registration whose event was deleted.
  - Its contract states the new contents of every table, and every endpoint
    preserves `Valid()`.
  - The loops in the source stay loops: the confirmation-id retry loop and the
    `setattr` loops of the two update endpoints.
- **Pages** (`dashboard.dfy`, `manage_users.dfy`, `event_registrations.dfy`,
  `admin_manager_requests.dfy`, `my_manager_request.dfy`, `my_events.dfy`,
  `event_view.dfy`, `sidebar.dfy`):
  - A page with state is a class whose fields are its state cells. Each
    handler is a method whose `ensures` gives the whole new state.
  - The network is a success flag `ok`. The request a handler sends is returned
    as an `ApiCall`, or `None` when it sends nothing.
  - The pure parts are functions with lemmas: filters, pagination, labels and
    visibility rules. They share `list_view.dfy` (filter, slice window, ceil
    page count, clamping) and `items.dfy` (the JSON shapes the pages receive).

Several lemmas connect the two layers:

- A registered user can log in.
- A registration the backend created and then approved offers a ticket on the
  "My Events" page.
- An uploaded PDF proof is previewed as a PDF.
- The dashboard's pending-manager panel selects the same users as the
  backend's pending query.
- Each visibility rule of a page (Join, "Your Event", confirm and reject,
  Deactivate, the ticket, the feedback block, the organiser's controls, the
  blocked confirm button) is tied to the backend check or stored state it
  reflects.

## Model

| member | source | states |
|---|---|---|
| Common.Lower | frontend/src/pages/Dashboard.jsx:100 | `toLowerCase` keeps the length and lower-cases each character on its own; the result has no upper-case letter |
| Common.LowerIdempotent | backend/app/api/v1/endpoints/users.py:84 | lower-casing an already lower-cased string changes nothing |
| Common.Capitalize | frontend/src/pages/MyEvents.jsx:93 | `charAt(0).toUpperCase() + slice(1)`: same length, first character upper-cased, the rest unchanged; the status label of My Events and of the attendee table (EventRegistrations.jsx:186) |
| Decimal.NatToString | backend/app/api/v1/endpoints/registrations.py:41 | the decimal text of a number is non-empty, all digits, with a leading zero only for 0 |
| Decimal.ParseNatToString | backend/app/api/v1/endpoints/registrations.py:41 | reading back the decimal text of `n` gives `n` |
| Decimal.IntToStringInjective | backend/app/api/v1/endpoints/registrations.py:41 | two integers with the same decimal text are equal |
| Models.ParseRole | backend/app/models/user.py:6-9 | exactly "admin", "manager" and "user" name a role, and each names the role whose value it is |
| Models.RoleNameRoundTrip | backend/app/models/user.py:6-9 | every role's stored value reads back as that role |
| Models.ParseEventStatus | backend/app/models/event.py:11-15 | exactly the four values draft, published, cancelled, completed name an event status, each its own |
| Models.ParseRegistrationStatus | backend/app/models/registration.py:7-11 | exactly the four values pending, approved, rejected, cancelled name a registration status, each its own |
| Models.DefaultUser | backend/app/models/user.py:18-30 | a new user row has role user, is active, is not approved, is not a company, and has no rejection reason, comment, details, proof URL or profile fields |
| Models.DefaultEvent | backend/app/models/event.py:28-30 | a new event row is a draft, active, and keeps its organiser and capacity |
| Models.DefaultRegistration | backend/app/models/registration.py:17-23 | a new registration row is pending and not attended, with no confirmation id and no rejection reason |
| Database.Db.constructor | backend/app/models/user.py:15 | the empty database satisfies the invariant (unique e-mails and confirmation ids, one registration per user and event, references exist) |
| Database.Db.Commit | backend/app/api/v1/endpoints/events.py:63 | `db.commit()`: tables that keep every table constraint become the stored state, which is then valid |
| Database.InsertKeepsTables | backend/app/models/user.py:14-15 | a new user under the next id, with an e-mail no stored user has, keeps every table constraint |
| Database.ReplaceUserKeepsTables | backend/app/api/v1/endpoints/users.py:207-210 | changing a stored user without changing its id or e-mail, and not making it both approved and rejected, keeps every constraint |
| Database.InsertEventKeepsTables | backend/app/api/v1/endpoints/events.py:62-63 | a new event under the next id, organised by a stored user, keeps every constraint |
| Database.ReplaceEventKeepsTables | backend/app/api/v1/endpoints/events.py:107-112 | changing a stored event without changing its id or organiser keeps every constraint |
| Database.ReviewKeepsTables | backend/app/api/v1/endpoints/registrations.py:122-124 | changing only a registration's status and rejection reason keeps every constraint |
| Database.InsertRegistrationKeepsTables | backend/app/api/v1/endpoints/registrations.py:85-92 | a new registration under the next id, for a stored user and event the user is not yet registered for, with an unused confirmation id, keeps every constraint |
| Database.NextKey | backend/app/models/event.py:20 | the id the next inserted row receives: one more than the largest stored id, or 1, and above every stored id; after the newest row is deleted its id is handed out again |
| Database.UserResponse | backend/app/api/v1/endpoints/users.py:16-18 | a user is returned as itself when it has a full name, and otherwise the response fails with 500 |
| Database.UsersResponse | backend/app/api/v1/endpoints/users.py:16-18 | a list of users is returned as itself when every user in it has a full name, and otherwise fails with 500 |
| Database.RegistrationResponse | backend/app/api/v1/endpoints/registrations.py:17-29 | a registration is returned as itself when it still has an event and its user has a full name, and otherwise fails with 500 |
| Database.RegistrationsResponse | backend/app/api/v1/endpoints/registrations.py:17-29 | a list of registrations is returned as itself when each one serialises, and otherwise fails with 500 |
| Database.UsedConfirmationIds | backend/app/models/registration.py:21 | exactly the confirmation ids stored on some registration |
| Database.InKeyOrder | backend/app/api/v1/endpoints/events.py:75 | the rows with keys in a range, and only those, in key order |
| Database.InKeyOrderLength | backend/app/api/v1/endpoints/users.py:71 | a key-ordered listing has one row per key in range, so never more rows than the table |
| Database.InKeyOrderSorted | backend/app/api/v1/endpoints/events.py:75 | a key-ordered listing holds ids within the range, strictly increasing |
| Database.FindByEmail | backend/app/api/v1/endpoints/auth.py:28 | `.filter(email).first()`: a row with that e-mail if one exists, otherwise none |
| RegistrationsApi.ConfirmationId | backend/app/api/v1/endpoints/registrations.py:38-41 | the id is "EVT-", the event id's decimal text, "-", then exactly the six drawn digits |
| RegistrationsApi.ParseIntToString | backend/app/api/v1/endpoints/registrations.py:41 | an event id, negative ones included, reads back from its text |
| RegistrationsApi.ConfirmationIdRoundTrip | backend/app/api/v1/endpoints/registrations.py:38-41 | the event id and the digits can be read back from a confirmation id |
| RegistrationsApi.ConfirmationIdInjective | backend/app/api/v1/endpoints/registrations.py:38-41 | different (event, digits) pairs never give the same confirmation id |
| RegistrationsApi.UniqueConfirmationId | backend/app/api/v1/endpoints/registrations.py:80-83 | the retry loop returns the first drawn id not already in use, after every earlier draw was in use |
| RegistrationsApi.RegisterForEvent | backend/app/api/v1/endpoints/registrations.py:50-93 | 404 missing event, then 400 own event, 400 full (approved registrations only), 400 already registered; once the checks pass, exactly one new pending registration for the caller with an unused confirmation id is stored, and the response is that registration, or 500 when the caller has no full name; when a check fails nothing changes; the invariant holds |
| RegistrationsApi.PendingDoesNotFill | backend/app/api/v1/endpoints/registrations.py:61-68 | adding a pending registration leaves the approved count of every event unchanged |
| RegistrationsApi.Review | backend/app/api/v1/endpoints/registrations.py:112-123 | 404 unknown registration; 500 when its event was deleted; 403 unless organiser or admin; otherwise only that registration's status and reason change, and the response is the registration, or 500 when its user has no full name |
| RegistrationsApi.ApproveRegistration | backend/app/api/v1/endpoints/registrations.py:112-127 | the review outcome with status approved and the rejection reason cleared |
| RegistrationsApi.ConfirmRegistration | backend/app/api/v1/endpoints/registrations.py:129-136 | the same outcome as approval |
| RegistrationsApi.RejectRegistration | backend/app/api/v1/endpoints/registrations.py:146-161 | the review outcome with status rejected and exactly the given reason |
| RegistrationsApi.ReadEventRegistrations | backend/app/api/v1/endpoints/registrations.py:170-180 | 404 unknown event, 403 unless organiser or admin; otherwise the stored registrations of that event, each exactly once, in increasing id order; 500 exactly when one of their users has no full name |
| RegistrationsApi.ReadMyRegistrations | backend/app/api/v1/endpoints/registrations.py:97-103 | the caller's stored registrations, each exactly once, in increasing id order; 500 exactly when one of them lost its event to a deletion, or when there is one and the caller has no full name |
| RegistrationsApi.Selected | backend/app/api/v1/endpoints/registrations.py:103 | exactly the stored registrations the filter keeps, unchanged, under their own ids |
| RegistrationsApi.SelectedListing | backend/app/api/v1/endpoints/registrations.py:180 | the listing of the selected registrations is in increasing id order, holds each of them and nothing else, and serialises exactly when each one does |
| UsersApi.LastIndexOf | backend/app/api/v1/endpoints/users.py:84 | the position of the last occurrence of a character, or -1 when there is none |
| UsersApi.FinalComponent | backend/app/api/v1/endpoints/users.py:84 | `Path(...).name`: no '/' in the result, which is never "."; empty and "." components are skipped |
| UsersApi.FinalComponentIgnoresTrailing | backend/app/api/v1/endpoints/users.py:84 | a trailing "/" or "/." does not change the final component |
| UsersApi.NameSuffix | backend/app/api/v1/endpoints/users.py:84 | `.suffix`: present exactly when a dot lies after the first character and before the last with no dot after it; it is then an ending of the name shorter than the name, starting with that dot and holding no other |
| UsersApi.FileExtension | backend/app/api/v1/endpoints/users.py:84 | `.suffix.lower()`: empty, or a dot and at least one more character, none of them a dot, a slash or an upper-case letter |
| UsersApi.UploadIdProof | backend/app/api/v1/endpoints/users.py:83-111 | 400 exactly when the lower-cased suffix is not .jpg/.jpeg/.png/.pdf; 500 exactly when an allowed file cannot be saved; otherwise the path under /uploads/id_proofs/ |
| UsersApi.LastIndexOfAppend | backend/app/api/v1/endpoints/users.py:84 | appending text without the character does not move its last occurrence |
| UsersApi.FinalComponentOfStored | backend/app/api/v1/endpoints/users.py:94 | the final path component of a stored file is its generated name |
| UsersApi.NameSuffixOfStored | backend/app/api/v1/endpoints/users.py:93 | the suffix of a generated name plus an extension is that extension |
| UsersApi.UploadedPathKeepsExtension | backend/app/api/v1/endpoints/users.py:93-106 | the returned path has the same lower-cased suffix as the uploaded file |
| UsersApi.ReadUsers | backend/app/api/v1/endpoints/users.py:71 | the users in id order, `skip` skipped, at most `limit`; each one stored; all of them with no skip and a large enough limit; 500 only when some stored user has no full name, and never when all have one |
| UsersApi.UsersWindowRows | backend/app/api/v1/endpoints/users.py:71 | the `skip`/`limit` window of the users in id order is sorted, stored, at most `limit` long, and everything when nothing is skipped and the limit is large enough |
| UsersApi.ReadPendingManagers | backend/app/api/v1/endpoints/users.py:119 | exactly the stored users with role manager who are not approved, in id order; 500 exactly when one of them has no full name |
| UsersApi.RequestUpgrade | backend/app/api/v1/endpoints/users.py:129-133 | the caller becomes an unapproved manager with the three request fields; rejection reason, comment and every other row stay; the response is the caller, or 500 when the caller has no full name |
| UsersApi.MyManagerRequest | backend/app/api/v1/endpoints/users.py:168-170 | the caller's own record exactly when they are a manager with a full name; 404 "No manager request found" for a caller who is not a manager; 500 for a manager without a full name |
| UsersApi.ApproveManager | backend/app/api/v1/endpoints/users.py:199-209 | 404 missing user, then 400 not a manager; otherwise approved, rejection reason cleared, comment set to the reason, only that user changes, and the response is that user, or 500 when they have no full name |
| UsersApi.RejectManager | backend/app/api/v1/endpoints/users.py:223-233 | 404, then 400 as for approval; otherwise not approved, with rejection reason and comment both the reason, only that user changes, and the response is that user, or 500 when they have no full name |
| UsersApi.UpdatedProfile | backend/app/api/v1/endpoints/users.py:153-155 | supplied fields take their new value (an explicit null clears), unsupplied fields keep theirs |
| UsersApi.UpdateUserMe | backend/app/api/v1/endpoints/users.py:153-155 | the `setattr` loop changes only the caller's profile fields, as the updated profile says; role, approval and review fields cannot change; the response is 500 exactly when the caller is left without a full name, the change being stored all the same |
| UsersApi.DeactivateUser | backend/app/api/v1/endpoints/users.py:179-185 | 404 missing user, then 400 for the caller themself; otherwise only that user's active flag becomes false, and the response is that user, or 500 when they have no full name |
| EventsApi.CreateEvent | backend/app/api/v1/endpoints/events.py:50-61 | 403 exactly for role user; otherwise one new published, active event organised by the caller under a fresh id |
| EventsApi.PublishedEvents | backend/app/api/v1/endpoints/events.py:75 | exactly the stored published events |
| EventsApi.ReadEvents | backend/app/api/v1/endpoints/events.py:75 | the `skip`/`limit` window over the published events: at most `limit`, all stored and published, all of them with no skip and a large enough limit |
| EventsApi.ReadEvent | backend/app/api/v1/endpoints/events.py:84-88 | the stored event, or 404 "Event not found" exactly when it is missing |
| EventsApi.Patched | backend/app/api/v1/endpoints/events.py:107-109 | applying the supplied fields never changes id, active flag or organiser |
| EventsApi.PatchedHolds | backend/app/api/v1/endpoints/events.py:107-109 | after the update every supplied field has its supplied value |
| EventsApi.PatchedKeeps | backend/app/api/v1/endpoints/events.py:107-109 | a field that was not supplied keeps its value |
| EventsApi.UpdateEvent | backend/app/api/v1/endpoints/events.py:99-109 | 404, then 403 unless organiser or admin; the call succeeds exactly when the event exists and the caller is its organiser or an admin; the `setattr` loop's result is then the patched event and only it changes |
| EventsApi.DeactivateEvent | backend/app/api/v1/endpoints/events.py:125-134 | 403 for non-admins before the 404 check; the call succeeds exactly for an admin on an existing event, and then only that event's active flag becomes false |
| EventsApi.Orphaned | backend/app/models/event.py:33 | deleting an event sets its registrations' event to null and keeps every other registration |
| EventsApi.DeleteEvent | backend/app/api/v1/endpoints/events.py:148-157 | 404, then 403 unless the caller organises it (admins refused); the call succeeds exactly for the organiser of an existing event and returns it; the event is removed, its registrations lose their event, and the next event id is recomputed from the largest remaining one, so a deleted newest id is used again |
| EventsApi.OrphanedKeepsRegistrations | backend/app/models/event.py:33 | setting the event of a deleted event's registrations to null keeps every registration constraint |
| EventsApi.DeleteKeepsTables | backend/app/api/v1/endpoints/events.py:157-158 | removing an event, orphaning its registrations and recomputing the next event id keeps every constraint |
| AuthApi.Login | backend/app/api/v1/endpoints/auth.py:28-38 | 400 for an unknown e-mail or a wrong password, then 400 "Inactive user"; otherwise a bearer token whose subject is that active user |
| AuthApi.RegisterUser | backend/app/api/v1/endpoints/auth.py:47-65 | 422 when the e-mail is not an address; 400 when its normalised form is taken; nothing created in either case; otherwise exactly one new user under the next id, with the normalised address, and a token for that id |
| AuthApi.NewRegisteredUser | backend/app/api/v1/endpoints/auth.py:56-63 | a signed-up user has role user, is approved and active, and has the normalised address, the hashed password, name and phone |
| AuthApi.RegisteredUserCanLogIn | backend/app/api/v1/endpoints/auth.py:28-36 | right after sign-up, logging in with the address as stored (normalised) and the same password yields a token for the new user |
| AuthApi.LocalPartLength | backend/app/api/v1/endpoints/auth.py:14 | the position of the first '@' of an address, or its length when there is none |
| AuthApi.NormalizedEmail | backend/app/api/v1/endpoints/auth.py:14 | an `EmailStr` value: same length, the local part as typed, lower-cased from the first '@' on |
| AuthApi.NormalizedEmailIdempotent | backend/app/api/v1/endpoints/auth.py:14 | normalising a normalised address changes nothing |
| AuthApi.LocalPartLengthSame | backend/app/api/v1/endpoints/auth.py:14 | two addresses with '@' at the same positions have local parts of the same length |
| AuthApi.NormalizedEmailFixed | backend/app/api/v1/endpoints/auth.py:14 | an address is its own normal form exactly when no upper-case letter follows its first '@' |
| AuthApi.TypedAddressLogIn | backend/app/api/v1/endpoints/auth.py:28 | logging in with the address exactly as typed at sign-up succeeds exactly when it had no upper-case letter after its '@' |
| ListView.Filter | frontend/src/pages/Dashboard.jsx:99 | `Array.filter`: never longer, and keeps exactly the elements satisfying the predicate |
| ListView.FilterAll | frontend/src/pages/Dashboard.jsx:99-104 | when every element passes, the filter returns the list itself |
| ListView.FilterIsSubsequence | frontend/src/pages/Dashboard.jsx:99-104 | the filtered list keeps the original order |
| ListView.Window | frontend/src/pages/Dashboard.jsx:108 | `slice(start, start + count)`: at most `count` items, exactly the ones from `start`, empty past the end |
| ListView.PageCount | frontend/src/pages/Dashboard.jsx:106 | `Math.ceil(n / size)`: the least page count covering `n` items; zero exactly when there are no items |
| ListView.ItemOnItsPage | frontend/src/pages/Dashboard.jsx:106-108 | item `i` appears on page `i / size + 1`, at position `i % size`, and that page exists |
| ListView.PageBounds | frontend/src/pages/Dashboard.jsx:106-108 | a page past the last starts past the end; a page up to the last starts inside the list |
| ListView.PagesFrom | frontend/src/pages/Dashboard.jsx:106-108 | the pages from a given one onwards, concatenated, are the rest of the list |
| ListView.AllPages | frontend/src/pages/Dashboard.jsx:106-108 | pages 1 to the last, concatenated, give back the whole list |
| ListView.ClampPage | frontend/src/pages/ManageUsers.jsx:83-85 | `max(1, min(page, total))`: at least 1, at most the total when there are pages, and the page itself when in range |
| ListView.PreviousPage | frontend/src/pages/Dashboard.jsx:418 | never below 1, and one less otherwise |
| ListView.NextPage | frontend/src/pages/Dashboard.jsx:439 | never above the total, and one more otherwise |
| Items.UserActionPath | frontend/src/pages/AdminManagerRequests.jsx:51 | the request path starts with "/users/" |
| Items.RegistrationActionPath | frontend/src/pages/EventRegistrations.jsx:47 | the request path starts with "/registrations/"; `RegistrationActionPathInjective` shows it names exactly one registration and action |
| Items.RegisterPath | frontend/src/pages/Dashboard.jsx:88 | the register request path starts with "/registrations/"; `RegisterPathInjective` shows it names exactly one event |
| Items.RegistrationActionPathInjective | frontend/src/pages/EventRegistrations.jsx:47 | different registrations or actions give different paths, so a confirm or reject request names exactly that registration and action |
| Items.RegisterPathInjective | frontend/src/pages/Dashboard.jsx:88 | different events give different register paths, so the request names exactly that event |
| Items.UserActionPathInjective | frontend/src/pages/AdminManagerRequests.jsx:51 | different users or actions give different paths, so a request names exactly one user and action |
| Items.UserItemOf | backend/app/api/v1/endpoints/users.py:15-38 | the JSON a page receives carries the user's id, role name, flags, review fields and proof URL |
| Items.RegistrationItemOf | backend/app/api/v1/endpoints/registrations.py:25-33 | the JSON carries the registration's id, event, status name, confirmation id and reason |
| Items.WithoutId | frontend/src/pages/Dashboard.jsx:63 | `filter(u => u.id !== id)`: exactly the other entries, in order |
| DashboardPage.FilteredEvents | frontend/src/pages/Dashboard.jsx:99-104 | an event is kept exactly when its lower-cased title contains the lower-cased term and type and status match or are 'all'; order kept |
| DashboardPage.EmptySearchKeepsAll | frontend/src/pages/Dashboard.jsx:99-104 | an empty term with both filters 'all' shows every event in order |
| DashboardPage.PendingPanelMatchesQueue | frontend/src/pages/Dashboard.jsx:49 | the panel lists a user exactly when the backend's pending query would (manager, not approved) |
| DashboardPage.EventCardControls | frontend/src/pages/Dashboard.jsx:361-377 | Join and "Your Event" never both appear; a manager sees exactly one; an admin sees neither |
| DashboardPage.JoinMatchesBackend | frontend/src/pages/Dashboard.jsx:361 | `ShowsJoin`: never for an admin; for a user or manager exactly on events they do not organise, so every registration the backend would admit from them has a Join control |
| DashboardPage.YourEventMatchesBackend | frontend/src/pages/Dashboard.jsx:377 | `ShowsYourEvent`: exactly a manager's own events, on which the backend refuses that manager's registration |
| DashboardPage.Dashboard.constructor | frontend/src/pages/Dashboard.jsx:23-31 | empty lists, no selection, empty search, both filters 'all', page 1 |
| DashboardPage.Dashboard.FetchData | frontend/src/pages/Dashboard.jsx:35-58 | events replaced; a user's registrations and an admin's pending managers (filtered) loaded when their request succeeds; a failed events request changes nothing |
| DashboardPage.Dashboard.ApproveManager | frontend/src/pages/Dashboard.jsx:60-67 | sends approve with reason "Approved by admin"; on success exactly that id leaves the pending list; on failure nothing changes |
| DashboardPage.Dashboard.SelectManager | frontend/src/pages/Dashboard.jsx:234 | only the selected manager changes |
| DashboardPage.Dashboard.SetAdminComment | frontend/src/pages/Dashboard.jsx:485 | only the comment changes |
| DashboardPage.Dashboard.RejectManager | frontend/src/pages/Dashboard.jsx:69-84 | no selection or an empty comment: no call and nothing changes; otherwise reject with the comment, and on success the id leaves the list and selection and comment clear |
| DashboardPage.Dashboard.Register | frontend/src/pages/Dashboard.jsx:86-97 | posts the registration; on success the event is appended and `isRegistered` holds for it, and stays true for every event that had it |
| DashboardPage.Dashboard.SetFilters | frontend/src/pages/Dashboard.jsx:257-282 | only the search term and the two filters change; the page is not reset |
| DashboardPage.Dashboard.ClearFilters | frontend/src/pages/Dashboard.jsx:402 | term empty, filters 'all', and the filtered list is then every event |
| DashboardPage.Dashboard.Visible | frontend/src/pages/Dashboard.jsx:106-108 | at most six cards, the filtered events from `(page-1)*6` on, none past the last page |
| DashboardPage.Dashboard.ShowingRange | frontend/src/pages/Dashboard.jsx:414 | on an existing page the "Showing a to b" range counts exactly the visible cards |
| DashboardPage.Dashboard.PendingPreview | frontend/src/pages/Dashboard.jsx:194-213 | for an admin with pending managers, the first one to three of them; otherwise nothing |
| DashboardPage.Dashboard.PreviousPage | frontend/src/pages/Dashboard.jsx:418 | only the page changes, to `max(1, page - 1)` |
| DashboardPage.Dashboard.NextPage | frontend/src/pages/Dashboard.jsx:439 | only the page changes, to `min(total, page + 1)`, never past the last page |
| DashboardPage.Dashboard.GoToPage | frontend/src/pages/Dashboard.jsx:425-428 | only the page changes, to the chosen one |
| ManageUsersPage.FilteredUsers | frontend/src/pages/ManageUsers.jsx:67-70 | a user is kept exactly when the lower-cased name or e-mail contains the lower-cased query; order kept |
| ManageUsersPage.EmptyQueryKeepsNamed | frontend/src/pages/ManageUsers.jsx:67-70 | an empty query keeps every user that has a name or an e-mail |
| ManageUsersPage.MarkInactive | frontend/src/pages/ManageUsers.jsx:60 | same length; exactly the matching user becomes inactive, every other entry unchanged |
| ManageUsersPage.DeactivatedLosesButton | frontend/src/pages/ManageUsers.jsx:194 | the deactivated user loses the Deactivate button; every other row keeps its button state |
| ManageUsersPage.DeactivateNeverTargetsSelf | frontend/src/pages/ManageUsers.jsx:194 | `ShowsDeactivate`: exactly for active non-admin users, so never on the viewing admin's own row, which the backend would refuse with 400 |
| ManageUsersPage.ManageUsers.constructor | frontend/src/pages/ManageUsers.jsx:31-36 | no users, page 1, page size 10, empty query |
| ManageUsersPage.ManageUsers.FetchUsers | frontend/src/pages/ManageUsers.jsx:42-51 | the users are replaced on success and kept on failure |
| ManageUsersPage.ManageUsers.Deactivate | frontend/src/pages/ManageUsers.jsx:53-65 | cancelled: no call and nothing changes; confirmed: the deactivate call, then on success exactly that user marked inactive, on failure nothing |
| ManageUsersPage.ManageUsers.SetSearchQuery | frontend/src/pages/ManageUsers.jsx:112 | only the query changes |
| ManageUsersPage.ManageUsers.Visible | frontend/src/pages/ManageUsers.jsx:73-76 | at most a page of users, the filtered ones from `(page-1)*size` on, and not empty on an existing page |
| ManageUsersPage.ManageUsers.ChangePageSize | frontend/src/pages/ManageUsers.jsx:78-81 | the size changes and the page resets to 1 |
| ManageUsersPage.ManageUsers.GoToPage | frontend/src/pages/ManageUsers.jsx:83-85 | the page becomes the clamped one, within 1 and the total when there are pages |
| EventRegistrationsPage.FilteredRegistrations | frontend/src/pages/EventRegistrations.jsx:72-76 | a row is kept exactly when the attendee's name or e-mail or the confirmation id contains the term, ignoring case; order kept |
| EventRegistrationsPage.FoundByConfirmationId | frontend/src/pages/EventRegistrations.jsx:75 | searching for a row's confirmation id finds that row |
| EventRegistrationsPage.ConfirmationCell | frontend/src/pages/EventRegistrations.jsx:174 | the confirmation id when present and non-empty, otherwise "N/A" |
| EventRegistrationsPage.WithStatus | frontend/src/pages/EventRegistrations.jsx:48-49 | same length; exactly the matching row takes the new status and reason |
| EventRegistrationsPage.ReviewedRowsLoseActions | frontend/src/pages/EventRegistrations.jsx:202 | after approve or reject the row no longer offers actions; other rows are unchanged |
| EventRegistrationsPage.ActionsWhilePending | frontend/src/pages/EventRegistrations.jsx:202 | `ShowsActions`: confirm and reject are offered exactly while the stored registration is pending |
| EventRegistrationsPage.EnabledRejectShowsReason | frontend/src/pages/EventRegistrations.jsx:285 | `RejectDisabled`: a reason the dialog lets through is non-empty, so the rejected row carries it, shows it and offers no more actions |
| EventRegistrationsPage.EventRegistrations.constructor | frontend/src/pages/EventRegistrations.jsx:23-28 | no rows, no selection, empty reason and search, no error |
| EventRegistrationsPage.EventRegistrations.FetchRegistrations | frontend/src/pages/EventRegistrations.jsx:30-43 | rows replaced on success; on failure only the error is set |
| EventRegistrationsPage.EventRegistrations.Confirm | frontend/src/pages/EventRegistrations.jsx:45-55 | sends confirm; on success exactly that row becomes approved with no reason; on failure nothing changes |
| EventRegistrationsPage.EventRegistrations.SelectForRejection | frontend/src/pages/EventRegistrations.jsx:212 | only the selected row changes |
| EventRegistrationsPage.EventRegistrations.SetRejectReason | frontend/src/pages/EventRegistrations.jsx:271 | only the reason changes |
| EventRegistrationsPage.EventRegistrations.Reject | frontend/src/pages/EventRegistrations.jsx:57-70 | no selection or an empty reason: no call and nothing changes; otherwise reject with the reason, and on success that row becomes rejected with that reason and the dialog resets |
| EventRegistrationsPage.EventRegistrations.SetSearchTerm | frontend/src/pages/EventRegistrations.jsx:124 | only the search term changes |
| AdminManagerRequestsPage.AdminManagerRequests.constructor | frontend/src/pages/AdminManagerRequests.jsx:22-26 | no requests and the dialog closed |
| AdminManagerRequestsPage.AdminManagerRequests.FetchRequests | frontend/src/pages/AdminManagerRequests.jsx:32-41 | requests replaced on success, kept on failure |
| AdminManagerRequestsPage.AdminManagerRequests.OpenModal | frontend/src/pages/AdminManagerRequests.jsx:64-68 | the request and action are set and the comment cleared; the list stays |
| AdminManagerRequestsPage.AdminManagerRequests.CloseModal | frontend/src/pages/AdminManagerRequests.jsx:70-74 | the dialog closes with no selection, action or comment; the list stays |
| AdminManagerRequestsPage.AdminManagerRequests.SetAdminComment | frontend/src/pages/AdminManagerRequests.jsx:231 | only the comment changes |
| AdminManagerRequestsPage.AdminManagerRequests.HandleAction | frontend/src/pages/AdminManagerRequests.jsx:43-62 | no call without a selection and action; otherwise a call exactly when the confirm button is enabled, carrying the comment (empty allowed for approval); on success exactly that id leaves and the dialog closes |
| AdminManagerRequestsPage.EnabledRejectionReachesApplicant | frontend/src/pages/AdminManagerRequests.jsx:245 | `ConfirmDisabled`: approval is never blocked; a rejection let through has a non-empty comment, so the applicant's page reads the request as rejected, quoting it, with the feedback block |
| MyManagerRequestPage.GetStatusConfig | frontend/src/pages/MyManagerRequest.jsx:79-104 | approved wins; else a non-empty rejection reason gives "Rejected" quoting it; else "Pending Review"; always one of the three |
| MyManagerRequestPage.FetchErrorMessage | frontend/src/pages/MyManagerRequest.jsx:35-39 | a 404 gives the "No manager request found" message; any other failure the generic one |
| MyManagerRequestPage.ApprovalShownAsApproved | frontend/src/pages/MyManagerRequest.jsx:80-87 | after a backend approval, whatever the comment, the applicant sees "Approved" |
| MyManagerRequestPage.RejectionShownToApplicant | frontend/src/pages/MyManagerRequest.jsx:88-95 | after a backend rejection the applicant sees "Rejected" with the reason and the feedback block; an empty reason reads as pending, without feedback |
| MyManagerRequestPage.FeedbackAfterApproval | frontend/src/pages/MyManagerRequest.jsx:201 | `ShowsFeedback`: after an approval, exactly when the admin's comment is non-empty; never on a request not yet reviewed |
| MyManagerRequestPage.UploadedProofPreview | frontend/src/pages/MyManagerRequest.jsx:263 | a stored proof is previewed as a PDF exactly when the uploaded file's suffix was .pdf |
| MyEventsPage.TicketHasConfirmationId | frontend/src/pages/MyEvents.jsx:105-130 | a card offering a ticket also shows its confirmation id |
| MyEventsPage.ReviewedRegistrationCard | frontend/src/pages/MyEvents.jsx:105-130 | a backend registration, once approved, offers a ticket and no rejection box; once rejected, no ticket, and the box exactly when the reason is non-empty |
| MyEventsPage.TicketExactlyWhenApproved | frontend/src/pages/MyEvents.jsx:130 | `OffersTicket`: for a registration the backend created, the ticket is offered exactly when it is approved |
| MyEventsPage.StatusLabelOfStatus | frontend/src/pages/MyEvents.jsx:93 | every backend status gets a non-empty label starting with a capital letter, the rest as stored |
| EventViewPage.ControlsFor | frontend/src/pages/EventView.jsx:105-106 | Deactivate exactly for admins; Edit, Delete and Manage Attendees exactly for the organising manager; Register exactly for role user; no role gets Register together with the organiser's controls |
| EventViewPage.OrganizerMatchesBackend | frontend/src/pages/EventView.jsx:105 | `isOrganizer`: only for the event's organiser, the one caller the backend lets both update and delete it; for a manager exactly then; never for an admin |
| EventViewPage.RegisteredFor | frontend/src/pages/EventView.jsx:38 | true exactly when one of the user's registrations is for the event |
| EventViewPage.EventView.constructor | frontend/src/pages/EventView.jsx:24-27 | no event, no error, not registered |
| EventViewPage.EventView.FetchEvent | frontend/src/pages/EventView.jsx:29-49 | the event is stored; for role user, registration status is derived from their registrations; any failed request sets the error |
| EventViewPage.EventView.Register | frontend/src/pages/EventView.jsx:75-82 | posts the registration; on success the page shows the user registered; on failure nothing changes |
| EventViewPage.EventView.DeleteEvent | frontend/src/pages/EventView.jsx:51-61 | a DELETE only after confirmation, and back to the dashboard only when it succeeds |
| EventViewPage.EventView.DeactivateEvent | frontend/src/pages/EventView.jsx:63-73 | a deactivate call only after confirmation, and back to the dashboard only when it succeeds |
| SidebarNav.Entries | frontend/src/components/Sidebar.jsx:59-98 | Dashboard first. Non-admins then get My Events and My Profile. Manager Request only for user and manager. Admin gets exactly Dashboard, Manage Users and Manager Requests. Become Manager only for role user |
| SidebarNav.AtMostOneActive | frontend/src/components/Sidebar.jsx:22-24 | the entries' paths are distinct, so at most one entry is highlighted for any pathname |

## Left out

- The authentication dependencies (`deps.get_current_active_user`, `deps.get_current_active_superuser`) are not part of this model.
  - An endpoint receives the caller as an id of a stored user.
  - The superuser endpoints require that caller to be an admin, which is what that dependency guarantees.
- Password hashing and token signing live in a security module that is not part of this model. They are parameters: a hash function, a verify predicate, and a token datatype naming its subject.
- Random digits (`random.choices`) and `uuid4` are inputs: a sequence of six-digit draws and a generated name.
- RegistrationsApi.UniqueConfirmationId: it requires some draw in the supplied sequence to be unused. The source loops until that happens and would loop forever otherwise.
- UsersApi.UploadIdProof:
  - Writing the file to disk is a success flag.
  - The 400 detail lists the extensions in the order the source writes them, whereas Python's set order is unspecified.
- AuthApi.RegisterUser: whether the e-mail is an address is a predicate parameter standing for the e-mail validator, including its length limit. The surrounding-whitespace strip and the `Name <address>` form that `EmailStr` also accepts are not modelled. The 422 body is reduced to its message.
- Response validation of the e-mail in `UserSchema` is not modelled: stored addresses are taken to be valid.
- Common.Lower: lower-cases ASCII letters only. Python's `str.lower` and JavaScript's `toLowerCase` also fold other alphabets.
- EventsApi.UpdateEvent: an explicit `null` for a field is not modelled. Every supplied field carries a value.
- EventsApi.ReadEvents and UsersApi.ReadUsers: `skip` and `limit` are naturals; negative values are not modelled.
- Timestamps (`registration_date`, event times) are plain integers.
- `read_user_me` returns the caller unchanged and is not modelled separately.
- Approving a registration does not re-check capacity. The source does not do so, so "approved ≤ capacity" is not an invariant here.
- Status transitions are not restricted. Approve and reject apply to a registration in any status, as in the source.
- Approving or rejecting a registration whose event was deleted gives 500 "Internal Server Error" in the model.
  - Deleting an event sets its registrations' event to null, by the default relationship cascade.
  - The endpoint then reads the organiser of a missing event.
- Pages:
  - `window.confirm` and `alert` dialogs become a `confirmed` flag or are dropped.
  - Loading spinners, animations, styling and date formatting are left out.
  - The page-number window in the pagination bar of the user list (frontend/src/pages/ManageUsers.jsx:230) is presentation and is left unspecified.
- The dashboard keeps only the event ids of the user's registrations, which is all it reads from them.
- EventViewPage.EventView.FetchEvent: the route id is taken as the integer `parseInt` yields for a numeric route. Non-numeric routes are not modelled.
- Not part of this model, being routing, forms around a single call, or one-off scripts:
  - AuthContext, App and Layout;
  - MyProfile, EventCreate, EventEdit and BecomeManager;
  - the schema migration scripts, the admin seeding script and the application entry point.
