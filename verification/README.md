# Faculty Locator — a verified model of the request rules

The Faculty Locator is a small Flask application (`app.py`) backed by an SQLite database. Students
browse departments and see where each instructor is: "In", "Out", "On Leave" or "On Travel".
Instructors set their own status or schedule a leave or a trip, and every change leaves an entry
in an activity log.

This project models the application's core in Dafny, without HTTP, templates or SQL. It covers:
the five tables and their constraints; the sign-in decision and the session gates; the three
read-only pages; the two writes; and the demo data the database is seeded with. It then proves
what the handlers promise about them.

- `text.dfy` (module `Text`). Python's `str.strip()` and `str.title()`, and SQLite's BINARY
  ordering of TEXT, with its order laws.
- `seqs.dfy` (module `Seqs`). What the queries do to result rows:
  - `fetchone()` is the first match;
  - `ORDER BY` ascending or `DESC` is a sort, specified as sorted plus a permutation;
  - reversal.
- `schema.dfy` (module `Schema`). The rows of `users`, `departments`, `instructors`, `schedules`
  and `activity_log`. `WellFormed` holds every column constraint of `init_db`. Also here: the
  lookups the handlers run, and the outcomes a request can end in. Most outcomes stand for a
  flash message plus a redirect; `RedirectLogin` is a redirect with no message, and `ServerError`
  is an unhandled exception answered with HTTP 500.
- `access.dfy` (module `Access`). The session as a value, `login_required`, the instructor-role
  check, and the sign-in decision. `SessionState` is the session object `login` writes key by
  key.
- `directory.dfy` (module `Directory`). `student_dashboard`, `department_detail` and
  `instructor_dashboard` as functions from the tables and the session to a rendered page or a
  refusal.
- `transitions.dfy` (module `Transitions`). `update_status` and `add_schedule` as functions from
  the tables before the request to the outcome and the tables after the commit. Also here:
  the well-formedness they preserve, and the laws that relate requests.
- `store.dfy` (module `Store`). `FacultyStore`, the database as an object with the five tables
  as fields. Its constructor is `init_db`, `Seed` is `seed_db`, and `UpdateStatus` and
  `AddSchedule` are the committed handlers. Each method is proved to leave exactly the tables
  the specification functions describe.
- `scenarios.dfy` (module `Scenarios`). The seeded database, taken through the requests the
  application's test suite (`test_app.py`) sends.

## Model

| member | source | states |
|---|---|---|
| Text.IsSpace | app.py:166 | defines the characters Python's `str.isspace()` accepts, the ones `strip()` removes (no contract of its own; `Strip`'s contract is stated with it) |
| Text.Strip | app.py:166 | the result is the infix of the input left after dropping whitespace (Python's `isspace` set) at both ends: its ends are not whitespace and everything dropped is |
| Text.StripKeepsTrimmed | app.py:166 | a username with no surrounding whitespace is looked up unchanged |
| Text.Title | app.py:317 | `title()` keeps the length and upper-cases the first character |
| Text.TitleOfLowerWord | app.py:320 | a lower-case word is title-cased by capitalising its first letter only |
| Text.LessEq | app.py:197 | defines SQLite's BINARY collation of TEXT: code points compared in turn, a proper prefix first (no contract of its own; its laws are the three lemmas below) |
| Text.LessEqReflexive | app.py:197 | the BINARY collation is reflexive |
| Text.LessEqTotal | app.py:197 | any two names are comparable, so `ORDER BY` is a total preorder |
| Text.LessEqTransitive | app.py:214 | the collation is transitive |
| Seqs.FirstIndex | app.py:169 | `fetchone()`: the first matching row, and none exactly when no row matches |
| Seqs.Where | app.py:239-247 | `WHERE`: exactly the rows satisfying the condition, never more rows than the table |
| Seqs.WhereAppend | app.py:276-279 | a row appended to a table is the last of the selected rows when it satisfies the condition, and the selection is otherwise unchanged |
| Seqs.Reverse | app.py:248 | the k-th element of the reversal is the k-th from the end |
| Seqs.InOrderTotal | app.py:242 | ascending or `DESC`, any two keys are ordered one way or the other |
| Seqs.InOrderTransitive | app.py:242 | the order used by `ORDER BY ... DESC` is transitive |
| Seqs.Insert | app.py:214 | inserting into sorted rows gives sorted rows holding exactly one more row |
| Seqs.SortBy | app.py:197 | `ORDER BY key`: the result is sorted by the key and is a permutation of the rows |
| Schema.WellFormed | app.py:41-78 | defines the `init_db` constraints: ids equal to position plus one (AUTOINCREMENT, no deletes), UNIQUE usernames, user ids, department names and codes, the role, status and schedule-type CHECKs, and every REFERENCES in range (a predicate; the write lemmas preserve it) |
| Schema.FindUserByName | app.py:169 | the row found has that username; none is found exactly when no row has it |
| Schema.FindUser | app.py:212 | the join on `u.id`: the row found has that id; none exactly when no row has it |
| Schema.FindDepartment | app.py:205 | the department found has that id; none exactly when no department has it |
| Schema.FindInstructorByUser | app.py:271-273 | the instructor row found belongs to the user; none exactly when no row does |
| Schema.FoundInstructorIsUnique | app.py:57 | with `user_id` UNIQUE, the row the lookup finds is the only row of that user |
| Access.RequireLogin | app.py:143-149 | admits exactly the sessions with a `user_id`, and sends the rest to the login page |
| Access.RequireInstructor | app.py:263-265 | no `user_id`: login page; a role other than "instructor": "Access denied"; otherwise admitted as that user |
| Access.SessionFor | app.py:171-173 | the session written on success passes `login_required` as that user, and passes the instructor check exactly when the user's role is "instructor" |
| Access.Login | app.py:163-176 | success only if a user has the stripped name and the password verifies, with that user's id, name and role in the session; on distinct usernames, exactly then |
| Access.SessionState.constructor | app.py:146 | a new session holds no keys |
| Access.SessionState.SignIn | app.py:170-175 | the session keys become the user's on success and are left alone on failure; the result is `Login`'s |
| Access.FormValueOrEmpty | app.py:294 | defines `request.form.get(key, "")`: the field's value, or the empty string when it is absent (no contract of its own) |
| Access.LoginFailureIsUniform | app.py:170-175 | an unknown username and a wrong password give the same single failure |
| Access.StudentIsDeniedInstructorPages | app.py:224-226 | a signed-in student is answered "Access denied" by the instructor gate |
| Directory.StudentDashboard | app.py:193-198 | refused exactly without a `user_id`; otherwise all departments sorted by name, none lost or added |
| Directory.RowOf | app.py:210-212 | the inner join with `users`: a row exactly when a user has the instructor's `user_id`, carrying the instructor's id and status and that user's full name |
| Directory.Roster | app.py:209-215 | the join lists exactly the joined rows of the department's instructors |
| Directory.RosterAppend | app.py:209-215 | a further instructor row adds at most its own joined row, at the end, so the roster lists each instructor once |
| Directory.DepartmentDetail | app.py:201-216 | login page without a session; an id beyond SQLite's 64-bit INTEGER raises when bound (HTTP 500); otherwise "Department not found" exactly when no department has the id; a signed-in caller asking for an existing department always gets the page: that department and its roster sorted by full name, each instructor listed once (with `RosterAppend`) |
| Directory.DepartmentPageListsItsInstructors | app.py:209-215 | every row on the page is an instructor of that department, and every such instructor is on it |
| Directory.PageListsByName | app.py:214 | a full name that sorts strictly before another is listed above it |
| Directory.SchedulesOf | app.py:239-243 | exactly the schedules of that instructor |
| Directory.LogOf | app.py:245-247 | exactly the log entries of that instructor |
| Directory.LogOfKeepsOrder | app.py:245-250 | selecting one instructor's entries keeps their insertion order |
| Directory.RecentLog | app.py:248-249 | at most 20 entries: the instructor's last ones, newest first |
| Directory.LogOfAppend | app.py:276-279 | a newly appended entry becomes the last of its instructor's entries |
| Directory.NewestEntryShownFirst | app.py:245-250 | the entry a write has just logged is the first on the dashboard |
| Directory.LogIdsIncrease | app.py:73 | AUTOINCREMENT ids increase along the log |
| Directory.RecentLogNewestFirst | app.py:245-250 | on a well-formed database the dashboard log has at most 20 of the instructor's own entries with strictly decreasing ids |
| Directory.RecentLogOrder | app.py:248 | the recent log holds only the instructor's entries, in decreasing id order |
| Directory.RecentLogIsOwn | app.py:247 | every entry of the recent log is one of the instructor's |
| Directory.RecentLogDescending | app.py:248 | read newest first, an increasing log decreases |
| Directory.ProfileOf | app.py:228-234 | the profile is the user's instructor row, with the joined user's full name and the joined department's name; on well-formed tables it exists exactly when that row exists |
| Directory.InstructorDashboard | app.py:221-257 | the gate's answer when it refuses; "Instructor profile not found" exactly when the user has no instructor row; an admitted instructor with a profile always gets the page: that profile, the schedules sorted by start date descending (all of them, nothing else) and the recent log |
| Directory.GatesAnswerWithoutTables | app.py:146-147 | a refused page does not depend on the tables at all |
| Transitions.AppendLog | app.py:276-279 | the log keeps every old entry and gains one with the next id |
| Transitions.ValidStatus | app.py:266-267 | defines the status check: the field is present and one of the four values (a predicate; `StatusChange` states what follows from it) |
| Transitions.WriteStatus | app.py:274-279 | only that row changes, to exactly the new status; one "Status changed" entry "Changed from {old} to {new}" is appended |
| Transitions.StatusChange | app.py:260-282 | gate refusal, invalid status and missing profile leave the tables unchanged; otherwise the caller's row is written; the log grows by one exactly when the status is updated |
| Transitions.RowRewriteKeepsInstructorsOk | app.py:59 | rewriting one row's status to one of the four values keeps the instructors table valid |
| Transitions.AppendKeepsLogOk | app.py:74 | appending an entry for an existing instructor keeps the log valid |
| Transitions.WriteStatusKeepsWellFormed | app.py:275 | the status write keeps every table constraint |
| Transitions.StatusChangeKeepsWellFormed | app.py:260-282 | every outcome of `update_status` leaves a well-formed database; in particular every status stays in the four-value set |
| Transitions.RefusedStatusChangeNeverWrites | app.py:266-269 | a refused status change, repeated any number of times, changes nothing |
| Transitions.RepeatedStatusChangeLogsEveryTime | app.py:275-280 | an accepted status change repeated n times logs n entries ("In" to "In" too) and leaves the requested status |
| Transitions.LookupIgnoresStatus | app.py:271-273 | status writes do not move the user's instructor row |
| Transitions.ValidScheduleType | app.py:291-296 | defines the type check: the field is present and is "leave" or "travel" (a predicate) |
| Transitions.DatesGiven | app.py:292-299 | defines the date check: both fields present and non-empty, with no check of format or order (a predicate) |
| Transitions.DerivedStatus | app.py:312 | "On Leave" exactly for leave, "On Travel" exactly for travel, always a valid status |
| Transitions.ScheduleTypeTitles | app.py:317 | the two types title-case to "Leave" and "Travel" |
| Transitions.ScheduleDetails | app.py:317 | defines the details line: the title-cased type, "from" the start, "to" the end, then the reason (no contract of its own; `LeaveDetails` pins one instance) |
| Transitions.WriteSchedule | app.py:307-318 | one schedule row with the given type, dates and reason; the row's status becomes the derived one; one "Scheduled {type}" entry with the spelled-out details |
| Transitions.ScheduleAbsence | app.py:285-321 | the gate, then the type check, then the date check, each refusal writing nothing; a missing profile writes nothing; otherwise the write with the stripped reason; log and schedules each grow by one exactly when scheduled |
| Transitions.WriteScheduleKeepsWellFormed | app.py:307-318 | the schedule write keeps every table constraint |
| Transitions.ScheduleAbsenceKeepsWellFormed | app.py:285-321 | every outcome of `add_schedule` leaves a well-formed database |
| Transitions.ScheduleOverridesStatus | app.py:312-313 | after a manual status change, a schedule still sets the derived status |
| Store.DemoRowsAreValid | app.py:90-113 | the demo rows have valid statuses, existing departments, and distinct usernames, names and codes |
| Store.SeedIsWellFormed | app.py:83-136 | the seeded tables satisfy every constraint |
| Store.SeedTables | app.py:83-136 | the seeded database is well-formed, with 11 users, 5 departments, 10 instructors, no schedules and 10 log entries |
| Store.FacultyStore.constructor | app.py:38-80 | `init_db` on a new file: five empty, well-formed tables |
| Store.FacultyStore.Seed | app.py:83-136 | no change once there are users; otherwise exactly the seeded tables |
| Store.FacultyStore.InsertDemoDepartments | app.py:97-98 | the department loop inserts the five departments with ids 1 to 5 and touches nothing else |
| Store.FacultyStore.InsertDemoInstructors | app.py:114-128 | the instructor loop inserts each user, its instructor row and its "Status set" entry, threading the new ids |
| Store.FacultyStore.UpdateStatus | app.py:260-282 | the outcome and the new tables are exactly `StatusChange`'s, and the database stays well-formed |
| Store.FacultyStore.RecordStatus | app.py:274-279 | the UPDATE and INSERT leave exactly `WriteStatus`'s tables |
| Store.FacultyStore.AddSchedule | app.py:285-321 | the outcome and the new tables are exactly `ScheduleAbsence`'s, and the database stays well-formed |
| Store.FacultyStore.RecordSchedule | app.py:307-318 | the two INSERTs and the UPDATE leave exactly `WriteSchedule`'s tables |
| Scenarios.DemoAccountsSignIn | test_app.py:46-60 | jdoe and the student sign in with "password" and get their sessions; jdoe with a wrong password, and the unknown user "bad", fail |
| Scenarios.NoUserCalledBad | test_app.py:58-60 | no seeded account is named "bad" |
| Scenarios.StudentSeesDepartmentOne | test_app.py:84-96 | department 1 lists John Doe ("In") and Anna Smith ("Out") |
| Scenarios.AnnaListedBeforeJohn | test_app.py:84-89 | on that page Anna Smith is listed above John Doe |
| Scenarios.JdoeSeesDashboard | test_app.py:105-112 | jdoe's instructor dashboard renders, with John Doe's profile in department 1 |
| Scenarios.StudentIsTurnedAway | test_app.py:99-118 | department 999 is not found, and the student is denied the instructor dashboard |
| Scenarios.JdoeGoesOut | test_app.py:178-183 | jdoe's update to "Out" is reported, and the dashboard log opens with "Changed from In to Out". That it comes first rests on insertion order standing in for the timestamp (see "## Left out"); the test itself only looks for the entry |
| Scenarios.JdoeTakesLeave | test_app.py:135-144 | the leave is reported, jdoe is "On Leave", and the schedule row and log entry are the expected ones |
| Scenarios.LeaveDetails | test_app.py:135-144 | the details line reads "Leave from 2026-03-01 to 2026-03-05: Personal leave" |
| Scenarios.JdoeSendsBadSchedules | test_app.py:129-175 | an invalid type, empty dates or an invalid status are refused and change nothing |

## Left out

- HTTP and Flask are not modelled: routing, `render_template`, flash categories, redirect targets and status codes. Each handler's result is an `Outcome` or a `View`: the flash message and redirect (a bare redirect for `RedirectLogin`, HTTP 500 for `ServerError`), or the rendered page.
- `logout`, `index` and `role_select`, and the GET branch of `login` (which only renders the form), are not part of this model.
- SQLite connection management (`get_db`, `close_db`, `PRAGMA`, the DDL itself) is left out. The column constraints survive as `WellFormed`.
- Password hashing is a foreign call. `check_password_hash` is the parameter `verify`, and the output of `generate_password_hash("password")` is the parameter `passwordHash`.
- Timestamps are left out: `created_at`, and the log's `timestamp`, filled by `datetime('now')`. Insertion order stands in for the log's `timestamp` order. Entries written within one second tie in the source, and their order is not modelled.
- `ORDER BY` leaves the order of rows with equal keys open. `SortBy` fixes one order, and its contract promises only sortedness and a permutation.
- Commit, rollback and concurrent requests are left out. Each handler is one atomic step over the tables.
- Process startup, `app.run` and the secret key are left out.
- Ids are modelled as position plus one. This holds because AUTOINCREMENT tables are never deleted from. A database with gaps in its ids is not modelled.
- Text.Title: covers ASCII letters only; Python's Unicode case mapping is not modelled. Only "leave" and "travel" ever reach it.
- Transitions.StatusChange and Transitions.ScheduleAbsence: a user with the instructor role but no instructor row makes both handlers raise on `instructor["id"]` before any write. The model keeps this case as the outcome `ServerError` with the tables unchanged, rather than assuming it away. It cannot arise from the seeded data.
- Store.FacultyStore.Seed: requires that an empty `users` table comes with empty other tables, as on a fresh `init_db`. Otherwise the source's department INSERTs could violate UNIQUE and raise, which the model does not capture.
- The Flask session is modelled twice. `Access.Session` is the request's session as a value. `Access.SessionState` is the object `login` writes to; other session keys are left out.
