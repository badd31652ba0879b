# Hostel management core, modelled in Dafny

This project models the core of a hostel-management web application:

- **Booking engine.** `POST /api/registration/pay-and-book` validates the request. It then records a PAID yearly fee, picks the least-occupied room with a free bed or creates one, points the student at that room and logs the allocation. All of this runs in one transaction that rolls back on any fault.
- **Middlewares.** `requireLogin` and `requireRole` guard every protected route.
- **Student routes.** `/me`, `/list` and `/:id` decide whose record a session may see.
- **Account routes.** Sign-up, login and `/me`.
- **Admin demo seeder.** It inserts demo students with consecutive `AH26-<n>` codes and matching logins.
- **Client logic.** The role helpers, the `ProtectedRoute` guard and route table, the sign-up page's password-strength meter, and the dashboard's derived values.

How the model is built:

- **Tables** are sequences of immutable rows in primary-key order, in module `Store`. An AUTO_INCREMENT key is one more than the largest key.
- **Handlers** are pure functions from tables, session and request to new tables and a reply. Errors are `HttpError(status, message)` values carrying the source's own messages.
- **Environment.** The clock, `CURDATE()`, the password hash and database faults are parameters.
- **Modules** follow the source files:
  - `Registration`, plus `RegistrationProperties` for its theorems;
  - `Gate` for the two middlewares;
  - `StudentAccess`, `Auth` and `Seed` for the other routers;
  - `Roles`, `RouteGuard`, `SignupForm` and `DashboardView` for the client;
  - `Journeys` states properties that cross files;
  - `Findings` holds the two defects below.

## Model

| member | source | states |
|---|---|---|
| Gate.RequireLogin | DBMS_Software/backend/middleware/requireLogin.js:2-10 | passes exactly the sessions that have a role and, unless that role is exactly `admin`, a user id other than null and 0; otherwise 401 "Please log in." |
| Gate.RequireRole | DBMS_Software/backend/middleware/requireRole.js:2-16 | 401 exactly when not authenticated, 403 exactly when authenticated with a role outside the allowed list (case-sensitive), otherwise passes |
| Gate.RequireRoleAuthenticatesLikeRequireLogin | DBMS_Software/backend/middleware/requireRole.js:4-9 | `requireRole` rejects with 401 exactly the sessions `requireLogin` rejects, with the same reply |
| Gate.AdminAnyUserIdPasses | DBMS_Software/backend/middleware/requireLogin.js:6 | an `admin` session passes whatever its user id, the sentinel 0 included |
| Gate.Guard | DBMS_Software/backend/routes/registration.js:41 | the chain `requireLogin, requireRole(...)` behaves as `requireRole` alone |
| Registration.StudentIdOnlyForStudents | DBMS_Software/backend/routes/registration.js:11-14 | only a `student` session yields a student id, and for one it is the session's `studentId` |
| Registration.CapacityForRoomType | DBMS_Software/backend/routes/registration.js:16-22 | capacity is 1, 2 or 3: 1 iff the lowercased type contains `1-seater` or is `1`; 2 iff not 1 and it names 2; 3 otherwise, unknown types included |
| Registration.CapacityIgnoresCase | DBMS_Software/backend/routes/registration.js:17 | the capacity of a type equals that of its lowercased form |
| Registration.BookingPageLabels | DBMS_Software/backend/routes/registration.js:18-20 | the labels `1-Seater`, `2-Seater`, `3-Seater` map to 1, 2 and 3 seats |
| Registration.ValidateBooking | DBMS_Software/backend/routes/registration.js:44-56 | accepts iff the session yields a truthy student id, the room type is non-empty and the amount is a number > 0 (absent counts as 0); the no-student 400 comes before the input 400; the accepted type is trimmed and its capacity computed |
| Registration.NextFeeId | DBMS_Software/backend/routes/registration.js:27-28 | the next fee id exceeds every fee id, is 1 for an empty table, and is one more than an existing id otherwise |
| Registration.RecordPaidFee | DBMS_Software/backend/routes/registration.js:26-34 | appends exactly one fee, keeping the old rows, with a fresh id, the student, the amount as the `DECIMAL(10,2)` column keeps it, today's date, PAID/YEARLY/year/PAID, and keeps fee ids unique |
| Registration.Cents | DBMS_Software/backend/config/db.js:149 | the stored amount is a whole number of cents within half a cent of the value, halves rounded away from zero |
| Registration.CentsIdempotent | DBMS_Software/backend/config/db.js:149 | an amount already in whole cents is stored unchanged |
| Registration.StoredAmounts | DBMS_Software/backend/config/db.js:149 | 0.004 is stored as 0.00 and 0.005 as 0.01; whole amounts are kept; 99999999.99 fits the column, 99999999.995 and 10^8 do not |
| Registration.LeastOccupied | DBMS_Software/backend/routes/registration.js:88-104 | the returned room is eligible and no eligible room is less occupied; none is returned iff no room is eligible |
| Registration.SelectRoom | DBMS_Software/backend/routes/registration.js:86-107 | a matching-or-untyped room under capacity is preferred and is the least occupied such room; otherwise the least occupied room of any type; a room is created iff no room is under capacity |
| Registration.NewRoomLabel | DBMS_Software/backend/routes/registration.js:108 | a created room's label is `R-` followed only by decimal digits |
| Registration.NewRoomLabelFromClock | DBMS_Software/backend/routes/registration.js:108 | the digits are the clock's: for at least 1000 ms its thousands, hundreds, tens and units digits in that order; below that, the clock's whole decimal text |
| Registration.NewRoomLabelRepeats | DBMS_Software/backend/routes/registration.js:108 | two rooms created 10000 ms apart get the same label, so labels of created rooms are not unique |
| Registration.Place | DBMS_Software/backend/routes/registration.js:107-119 | an existing room leaves the table as it was; a created room gets the next key, the trimmed type and the requested capacity, and the chosen id always names a room afterwards |
| Registration.Book | DBMS_Software/backend/routes/registration.js:58-142 | any failure returns the snapshot taken before the transaction, with status 500 |
| Registration.PayAndBook | DBMS_Software/backend/routes/registration.js:41-143 | a failure changes no table; unauthenticated gives 401; a non-student role gives 403 |
| RegistrationProperties.RejectedBeforeTransaction | DBMS_Software/backend/routes/registration.js:44-54 | a student without a truthy session student id gets 400 "No student record. Please sign up first." with no write; with one, a missing type or non-positive amount gives 400 "Room type and amount are required." |
| RegistrationProperties.FaultRollsBack | DBMS_Software/backend/routes/registration.js:61-68 | a fault at any reached step leaves every table unchanged and answers 500; a fee-insert fault answers "Failed to record fee." |
| RegistrationProperties.OversizedAmountRefused | DBMS_Software/backend/routes/registration.js:61-68 | an admitted amount that rounds to 10^8 or more makes the fee insert fail: no table changes and the reply is 500 "Failed to record fee.", whatever else happens |
| RegistrationProperties.BookingEffects | DBMS_Software/backend/routes/registration.js:121-136 | success needs an amount the fee column holds; it appends exactly one PAID fee and one allocation for the student, sets only that student's `room_id`, leaves users and attendance alone, echoes the trimmed type and PAID, and adds at most the created room |
| RegistrationProperties.BookingChoosesRoomByRule | DBMS_Software/backend/routes/registration.js:86-119 | the chosen room follows the two-query rule: typed-or-untyped and least occupied if any such room has a bed; else least occupied of any type; else a new room labelled from the clock |
| RegistrationProperties.BookingRespectsRequestedCapacity | DBMS_Software/backend/routes/registration.js:89 | on valid tables, the chosen room holds at most the requested type's capacity after the booking |
| RegistrationProperties.FullRoomNeverChosen | DBMS_Software/backend/routes/registration.js:99 | a room already at the requested capacity is never the one chosen |
| RegistrationProperties.BookingPreservesValid | DBMS_Software/backend/routes/registration.js:114-128 | booking keeps keys increasing, fee ids unique and every `student.room_id` naming a room |
| RegistrationProperties.RebookingLastWriteWins | DBMS_Software/backend/routes/registration.js:122-128 | booking twice appends two fees and two allocations; the student's room is the second booking's room and no other student moves |
| StudentAccess.OwnStudent | DBMS_Software/backend/routes/student.js:10-11 | finds a student id iff some row carries the user id, and the id found is such a row's |
| StudentAccess.StudentIdForRequest | DBMS_Software/backend/routes/student.js:8-17 | students resolve through `user_id`; guardians through the linked id, with 0 meaning none; other roles resolve to none |
| StudentAccess.FeesOf | DBMS_Software/backend/routes/student.js:58 | holds exactly the fee rows of the student |
| StudentAccess.Newest | DBMS_Software/backend/routes/student.js:58-64 | `ORDER BY key DESC LIMIT n`: at most n rows of the pool, newest first, and no row left out is newer than one shown |
| StudentAccess.RoomOf | DBMS_Software/backend/routes/student.js:42-46 | a room is returned iff the student's `room_id` names one, and it is that room |
| StudentAccess.Me | DBMS_Software/backend/routes/student.js:20-80 | guard errors pass through; an unresolved id gives 404 with the guardian or the student message; a missing row gives 404 "Student not found."; otherwise the row, the room whose key is its `room_id` (none when no room has it), its 20 newest fees and 30 latest attendance rows (NULL dates last), and `readOnly` iff guardian |
| StudentAccess.AttendanceOf | DBMS_Software/backend/routes/student.js:64 | holds exactly the attendance rows of the student |
| StudentAccess.DayKey | DBMS_Software/backend/config/db.js:163 | the `date DESC` key: a NULL date ranks below every day, a dated row ranks by its day |
| StudentAccess.UndatedAttendanceListedLast | DBMS_Software/backend/routes/student.js:64 | rows with a NULL date are listed after every dated row, and none is listed while a dated row of the student is left out |
| StudentAccess.NewestFeeListedFirst | DBMS_Software/backend/routes/student.js:58 | a fee whose id exceeds every other fee id of the student is listed first |
| StudentAccess.List | DBMS_Software/backend/routes/student.js:83-91 | administrators only; every student row, as a permutation of the table, in increasing key order on valid tables |
| StudentAccess.ById | DBMS_Software/backend/routes/student.js:94-114 | 401 unless logged in; 400 for a non-numeric id; an admin reads any existing row; any other role gets 403 unless the id is its own resolved id; a missing row gives 404 |
| StudentAccess.OnlyOwnRecordUnlessAdmin | DBMS_Software/backend/routes/student.js:103-106 | a non-admin who succeeds read exactly the record its session resolves to |
| StudentAccess.GuardianReadsLinkedRecord | DBMS_Software/backend/routes/student.js:96-109 | a guardian asking for its linked id in decimal, with any non-digit suffix, gets that row |
| Auth.NormalEmail | DBMS_Software/backend/routes/auth.js:20 | the stored e-mail equals the trimmed input up to letter case, has the same length, no upper-case letter and no white space at either end |
| Auth.NormalEmailKeepsClean | DBMS_Software/backend/routes/auth.js:20 | an address with no white space and no upper-case letter is stored exactly as given |
| Auth.NormalEmailIdempotent | DBMS_Software/backend/routes/auth.js:20 | normalising a stored address again leaves it unchanged |
| Auth.UserByEmail | DBMS_Software/backend/routes/auth.js:72-78 | finds a user matching the e-mail under the collation, or none iff no user matches |
| Auth.NewUser | DBMS_Software/backend/routes/auth.js:17-21 | the inserted user gets the next key, the trimmed name, the trimmed lowercased e-mail, the digest and the role; a linked student only for a guardian, and only when truthy |
| Auth.SessionFor | DBMS_Software/backend/routes/auth.js:34-39 | the session gets the user id, the lowercased role and a truthy linked id or none, and keeps `studentId` as it was |
| Auth.Signup | DBMS_Software/backend/routes/auth.js:7-63 | missing fields, then an invalid role, then a taken e-mail each give 400 with nothing written; a failed profile insert keeps the user row and gives 500 "Signup failed."; success appends the user, a bare profile only for students, and sets the session |
| Auth.SignupPreservesInvariants | DBMS_Software/backend/routes/auth.js:18-28 | sign-up keeps keys increasing, room references resolving and e-mails unique |
| Auth.Login | DBMS_Software/backend/routes/auth.js:66-114 | 400 without both credentials; the same 401 for an unknown e-mail and a wrong password; 500 for a NULL digest; 403 for a non-empty mismatching role; the session changes only on success |
| Auth.LoginSucceedsIff | DBMS_Software/backend/routes/auth.js:69-93 | login succeeds exactly when both credentials are present, the e-mail names a user whose digest the password hashes to, and the asserted role is empty or that user's |
| Auth.SignupThenLogin | DBMS_Software/backend/routes/auth.js:17-93 | logging in after signing up, with the same credentials and no role or the same role in any case, succeeds as the new user |
| Auth.WhoAmI | DBMS_Software/backend/routes/auth.js:126-138 | 401 exactly when there is no truthy user id; otherwise echoes the session with the role lowercased |
| Auth.AdminSentinelUnknownToWhoAmI | DBMS_Software/backend/routes/auth.js:127 | the administrator's sentinel session passes `requireLogin` yet `/me` reports it as not logged in |
| Auth.WhoAmIAfterLogin | DBMS_Software/backend/routes/auth.js:89-93 | after a login, `/me` succeeds and reports the role the login reply named |
| Seed.LatestCoded | DBMS_Software/backend/routes/seed.js:34-36 | picks a row whose code is `LIKE 'AH26-%'` with the largest student id; none iff no code matches |
| Seed.CodeNumber | DBMS_Software/backend/routes/seed.js:39 | no number iff `AH26-<digit>` occurs nowhere; otherwise the digits at the leftmost occurrence |
| Seed.NextNumber | DBMS_Software/backend/routes/seed.js:34-41 | with no `AH26-%` row, 101; otherwise one more than the number the pattern captures in the latest such code, and 101 when the pattern finds none there |
| Seed.CodeForParsesBack | DBMS_Software/backend/routes/seed.js:40-42 | a generated code matches the LIKE pattern and parses back to its number |
| Seed.SeedOne | DBMS_Software/backend/routes/seed.js:30-54 | a known e-mail changes nothing; otherwise it appends one student with the next code and one login with that code, or fails on a duplicate code or login |
| Seed.SeedAll | DBMS_Software/backend/routes/seed.js:30-54 | a successful loop over the demo students only appends students and logins, one login per student, and leaves the other tables alone |
| Seed.BootstrapRooms | DBMS_Software/backend/routes/seed.js:56-61 | three new rooms with the next keys: R-101 (1-Seater, capacity 1), R-102 (2-Seater, capacity 2), R-103 (3-Seater, capacity 3) |
| Seed.BootstrapRoomsFitBookingRule | DBMS_Software/backend/routes/seed.js:59-60 | each bootstrap room's capacity is the one the booking route derives from its type |
| Seed.SeedDemo | DBMS_Software/backend/routes/seed.js:16-83 | non-admins are refused by the guard; a failure rolls every table back; on success, rooms are bootstrapped only into an empty room table |
| Seed.SeedAllCoversDemos | DBMS_Software/backend/routes/seed.js:30-32 | after a successful run every demo e-mail is present |
| Seed.ConsecutiveCodes | DBMS_Software/backend/routes/seed.js:37-42 | each new demo student's number is one more than the previous one's |
| Seed.FirstCode | DBMS_Software/backend/routes/seed.js:37 | with no coded student, the first code is `AH26-101` |
| Seed.LatestNotLargest | DBMS_Software/backend/routes/seed.js:35 | the next number follows the most recently inserted code, not the largest: codes 500 then 102 give 103 |
| Seed.LowerCaseCodeRestarts | DBMS_Software/backend/routes/seed.js:35-40 | a latest code `ah26-500` passes the case-insensitive LIKE but not the case-sensitive pattern, so the next code is `AH26-101` |
| Seed.SeedAllPairsLogins | DBMS_Software/backend/routes/seed.js:44-53 | every demo student added gets exactly one login row with its code, the shared digest and the student role, in the same order |
| Seed.SeedDemoPreservesValid | DBMS_Software/backend/routes/seed.js:16-83 | seeding keeps keys increasing, fee ids unique and room references resolving |
| Seed.SeedIdempotent | DBMS_Software/backend/routes/seed.js:31-32 | seeding a second time changes nothing and reports success |
| Roles.RolesListMatchesRoles | DBMS_Software/frontend/src/utils/roles.js:6-16 | the role picker offers exactly the role values, once each, in order |
| Roles.DashboardRolesExcludeAdmin | DBMS_Software/frontend/src/utils/roles.js:19 | the shared-dashboard roles are exactly the non-admin roles |
| Roles.IsAdmin | DBMS_Software/frontend/src/utils/roles.js:21-23 | true iff a role is given and equals `admin` ignoring ASCII case |
| Roles.GetDashboardPath | DBMS_Software/frontend/src/utils/roles.js:26-29 | the admin dashboard iff `isAdmin`, otherwise `/dashboard` |
| RouteGuard.ProtectedRoute | DBMS_Software/frontend/src/App.jsx:13-32 | loading shows the loading screen; the page renders iff a user is present and its lowercased role is allowed (or no list is given); every other case redirects to `/login` |
| RouteGuard.Navigate | DBMS_Software/frontend/src/App.jsx:36-91 | a location shows the route its key selects: the three public pages render, guarded pages apply `ProtectedRoute` with their role list, and the aliases and the catch-all redirect; only `/login`, the two dashboards and `/` are ever redirect targets |
| RouteGuard.NavigateIgnoresCase | DBMS_Software/frontend/src/App.jsx:36-91 | a location and its lower-case form lead to the same view, as no route sets `caseSensitive` |
| RouteGuard.NavigateIgnoresTrailingSlash | DBMS_Software/frontend/src/App.jsx:36-91 | adding a trailing slash to a location does not change the view |
| RouteGuard.UpperCaseDashboard | DBMS_Software/frontend/src/App.jsx:52-63 | `/Dashboard` shows what `/dashboard` shows |
| RouteGuard.SlashedDashboard | DBMS_Software/frontend/src/App.jsx:52-63 | `/dashboard/` shows what `/dashboard` shows |
| RouteGuard.SlashedAdminAlias | DBMS_Software/frontend/src/App.jsx:88 | `/admin/` redirects to the administrator's dashboard |
| RouteGuard.AdminKeptFromStudentPages | DBMS_Software/frontend/src/App.jsx:52-87 | an administrator is sent to the login page from every location that selects the dashboard, register or summary page, in any case and with any trailing slashes |
| RouteGuard.OthersKeptFromAdminPage | DBMS_Software/frontend/src/App.jsx:40-51 | students and guardians are sent to the login page from every location that selects the admin dashboard |
| RouteGuard.DashboardPathRenders | DBMS_Software/frontend/src/App.jsx:13-32 | the page `getDashboardPath` picks renders for every server role in any case; any other role goes back to login |
| SignupForm.Strength | DBMS_Software/frontend/src/pages/Signup.jsx:16-29 | the score is at most 4 and 0 for an empty password; it is 4 iff length > 8 with a digit and a symbol; it is 0 iff length ≤ 5 with no digit and no symbol |
| SignupForm.StrengthMonotone | DBMS_Software/frontend/src/pages/Signup.jsx:24-27 | typing another character never lowers the score |
| SignupForm.DemoPasswordIsStrong | DBMS_Software/frontend/src/pages/Signup.jsx:24-27 | the seeder's demo password scores 4, "Strong" |
| SignupForm.StrengthLabel | DBMS_Software/frontend/src/pages/Signup.jsx:53-58 | empty for 0, Weak for 1, Medium for 2-3, Strong for 4 and above |
| SignupForm.ColorFollowsLabel | DBMS_Software/frontend/src/pages/Signup.jsx:46-51 | two scores get the same bar colour iff they get the same label |
| SignupForm.TextColorFollowsLabel | DBMS_Software/frontend/src/pages/Signup.jsx:134-136 | for positive scores, the label text colour agrees exactly with the label |
| SignupForm.HandleSubmit | DBMS_Software/frontend/src/pages/Signup.jsx:36-44 | submission proceeds iff password and confirmation are identical |
| DashboardView.FeeStatusValue | DBMS_Software/frontend/src/pages/Dashboard.jsx:110 | `status` if truthy, else `payment_status` if truthy, else PENDING |
| DashboardView.FeeStatusKey | DBMS_Software/frontend/src/pages/Dashboard.jsx:111 | the key is the one lower-case text of the same length that equals the status under case-insensitive comparison |
| DashboardView.PendingFeeRecognised | DBMS_Software/frontend/src/pages/Dashboard.jsx:110-112 | a fee counts as pending exactly when its `status`, else its `payment_status`, spells "pending" in some letter case; a fee with neither column counts; `PENDING` and `Pending` count and `PAID` does not |
| DashboardView.PendingFeesOfList | DBMS_Software/frontend/src/pages/Dashboard.jsx:112 | the list has a pending fee exactly when some fee in it is pending on its own |
| DashboardView.ShowPayAndRegister | DBMS_Software/frontend/src/pages/Dashboard.jsx:112-114 | never shown read-only; otherwise shown iff a fee is pending or no room is held |
| DashboardView.Capacity | DBMS_Software/frontend/src/pages/Dashboard.jsx:106 | 0 without a room, 1 for a room without capacity, the column otherwise |
| DashboardView.OccupancyText | DBMS_Software/frontend/src/pages/Dashboard.jsx:105-107 | no text iff the capacity is not positive; otherwise `parseInt` of the text gives the occupied count, the text after the first slash reads back as the capacity, and the text ends in " occupied" |
| DashboardView.BadgeColor | DBMS_Software/frontend/src/pages/Dashboard.jsx:116-121 | green iff paid/present, amber iff pending/absent, red iff overdue, all compared lowercased |
| Journeys.SignedUpStudentSeesEmptyDashboard | DBMS_Software/backend/routes/student.js:20-75 | after a student sign-up, `/me` returns the new profile with no room, fees or attendance, not read-only, and the dashboard offers Pay and Register |
| Journeys.BookedFeeListedFirst | DBMS_Software/backend/routes/student.js:58 | after a booking, the booked student's `/me` lists the new fee first, and the dashboard reads it as paid with the amount charged rounded to cents |
| Journeys.GuardianNeverPrompted | DBMS_Software/frontend/src/pages/Dashboard.jsx:114 | a guardian's `/me` is read-only, so the Pay and Register prompt never shows |
| Journeys.GuardianNotLinkedRecognised | DBMS_Software/frontend/src/pages/Dashboard.jsx:43-46 | the guardian "No student linked" reply is taken as the no-record state |
| Journeys.StudentNotLinkedRecognised | DBMS_Software/frontend/src/pages/Dashboard.jsx:43-46 | the student "No student record linked" reply is taken as the no-record state |
| Journeys.StudentNotFoundShownAsError | DBMS_Software/frontend/src/pages/Dashboard.jsx:48 | "Student not found." is shown as an error, not as the no-record state |
| Findings.SignupLeavesBookingClosed | DBMS_Software/backend/routes/registration.js:10-14 | as written: a student who has just signed up always gets 400 "No student record. Please sign up first." from pay-and-book |
| Findings.LoginLeavesBookingClosed | DBMS_Software/backend/routes/auth.js:89-93 | as written: after any login the booking route refuses, and a student gets that same 400 |
| Findings.LinkedSessionAgrees | DBMS_Software/backend/routes/registration.js:10-14 | corrected: with the session linked at sign-up and login, the booking route and the student routes resolve the same student for every non-guardian |
| Findings.SignupThenBookSucceeds | DBMS_Software/backend/routes/registration.js:44-136 | corrected: after sign-up a well-formed booking whose amount the fee column holds, with no fault, succeeds and moves the profile row just created |
| Findings.LoginThenBookSucceeds | DBMS_Software/backend/routes/registration.js:44-136 | corrected: a student with a profile row can book after login, and the booking moves the row `/me` shows |
| Findings.OverbookingExample | DBMS_Software/backend/routes/registration.js:97-105 | as written: from valid tables with every room within capacity, a triple request puts a second student into a full single room |
| Findings.HonouringBookingKeepsWithinCapacity | DBMS_Software/backend/routes/registration.js:86-119 | corrected: if a room's own capacity is honoured too, a booking leaves every room, old or new, within its capacity |
| Findings.HonouringExample | DBMS_Software/backend/routes/registration.js:107-119 | corrected: the same triple request opens a new room, and the single keeps one occupant |

## Left out

- The schema and its migrations (`db.js`) are not modelled; the tables are the row types in `Store`.
- Column probing (`registration.js:73-84`) is not modelled. The model assumes `room_no`, `room_type` and `capacity` all exist, so the created room always records its type and capacity.
- Room labels: the `room_number` fallback is left out. For an existing room the query aliases the label column to `room_no`.
- The `/me` fallback room lookup (`student.js:47-56`) and the swallowed errors of the fee and attendance queries are not modelled. Read queries are assumed to succeed.
- Every generic 500 catch path for a failing read query is left out, in `student.js`, `auth.js` and `seed.js`. Only write faults in pay-and-book and the sign-up profile insert are modelled.
- Session storage is not modelled: `session.save` errors, logout, `destroy` and cookies. The session is a value passed in and returned.
- `Date.now()` and `CURDATE()` are parameters: `clockMillis` and `today`.
- bcrypt is a hash function passed in. Salt, cost and timing are not modelled.
- Concurrency is not modelled. Two simultaneous bookings could both see a free bed; the model runs requests one at a time.
- JavaScript `toLowerCase`, the MySQL collation and React Router's case-insensitive matching are modelled as ASCII-only case folding. No Unicode case mapping and no accent or trailing-space rules.
- React Router's URL handling beyond case and trailing slashes is not modelled: percent-decoding, a `basename`, and paths given without a leading `/`. A location is compared with a route as one whole string.
- String lengths count Dafny characters, not UTF-16 code units.
- `Number(amount)` is modelled as NaN or a finite real. Infinities, strings that parse to numbers, and floating-point rounding are left out. The rounding of the stored amount to cents and the refused insert of an amount of 10^8 or more are modelled, as MySQL does them in its default strict mode.
- SQL `ORDER BY` ties go to the earliest row in key order. MySQL leaves that order unspecified.
- AUTO_INCREMENT is one more than the largest key. Gaps left by deleted rows or rolled-back inserts are not modelled.
- The hard-coded administrator login is not part of this model. Only its session (role `admin`, user id 0) is used.
- The seeder's fallback room insert and its ignored room errors (`seed.js:56-69`) are not modelled. The model always inserts the three typed rooms into an empty table.
- The seeder's database error text is not modelled. A rollback reports which unique index was hit, as `SeedError`, in place of the driver's message.
- Sign-up's duplicate-e-mail 400 comes from the database's unique index (`ER_DUP_ENTRY`). The model checks the e-mail before inserting. Any other constraint error is not modelled, nor is the "Database not ready" message.
- JSON bodies are modelled as optional strings and numbers. Other JSON types in those fields are not modelled, and neither is `Array.isArray` on the fee list.
- The sign-up page's submit handler sends no request; only its password check is modelled.
- The presentational parts of the pages are not modelled: layout, loading skeletons, roommates and display names.
- The `users` table that `db.js:180-186` creates has no `email`, `password`, `name` or `linked_student_id` column. The `student` table at `db.js:116-129` has no `user_id` column. Sign-up, login and the student routes use those columns. The model gives the rows every column any handler reads or writes, so these handlers are modelled as they would run against a schema that has the columns.
- `server.js:35-36` mounts only the auth and student routers. The booking and seed routers are modelled as if they were mounted under `/api/registration` and `/api/seed`.
- The sign-up page offers a `warden` option (`Signup.jsx:189`). The server rejects it with 400 "Invalid role." through `Auth.Signup`.

## Findings

| source | as written | input that shows it | evidently intended | confidence | as-written member | corrected member |
|---|---|---|---|---|---|---|
| DBMS_Software/backend/routes/registration.js:10-14 | The booking route reads `session.studentId`. Neither sign-up (`auth.js:34-39`) nor login (`auth.js:89-93`) ever sets it. | Sign up as a student, then post `{roomType: "1-Seater", amount: 5000}`: the reply is 400 "No student record. Please sign up first." | The comment at line 10 says the id is set at login. A student with a profile row should be able to book. | high (not executed) | Findings.SignupLeavesBookingClosed | Findings.SignupThenBookSucceeds |
| DBMS_Software/backend/routes/registration.js:86-104 | Both room queries compare occupancy only with the requested type's capacity. The room's own `capacity` column is never read. | Room 1 is `1-Seater` with capacity 1 and holds student 1. Student 2 requests `3-Seater`. Room 1 ends with two occupants. | The comment at line 70 says "occupancy < capacity". The comment at line 86 says the capacity column is left out of the query on purpose, so the query works where the column is missing; that explains the omission but not the overbooking. No room should exceed its own capacity. | high (not executed) | Findings.OverbookingExample | Findings.HonouringBookingKeepsWithinCapacity |
