/** The five tables of the application's SQLite database (app.py, `init_db`), their column
    constraints, the lookups the handlers run on them, and the outcomes a request can have. */
module Schema {
  import opened Seqs

  /** CHECK(status IN ('In','Out','On Leave','On Travel')) */
  predicate IsStatus(s: string) {
    s == "In" || s == "Out" || s == "On Leave" || s == "On Travel"
  }

  /** CHECK(role IN ('student','instructor')) */
  predicate IsRole(r: string) {
    r == "student" || r == "instructor"
  }

  /** CHECK(schedule_type IN ('leave','travel')) */
  predicate IsScheduleType(t: string) {
    t == "leave" || t == "travel"
  }

  /** A row of `users`; `password` holds the salted hash, never the password. */
  datatype User = User(id: nat, username: string, password: string, fullName: string, role: string)

  /** A row of `departments`. */
  datatype Department = Department(id: nat, name: string, code: string)

  /** A row of `instructors`: the instructor extension of a user, with the mutable status. */
  datatype Instructor = Instructor(id: nat, userId: nat, departmentId: nat, status: string)

  /** A row of `schedules` (without `created_at`, a clock reading). */
  datatype Schedule = Schedule(id: nat, instructorId: nat, scheduleType: string,
                               startDate: string, endDate: string, reason: string)

  /** A row of `activity_log` (without `timestamp`; row order stands in for it). */
  datatype LogEntry = LogEntry(id: nat, instructorId: nat, action: string, details: string)

  datatype Tables = Tables(users: seq<User>, departments: seq<Department>,
                           instructors: seq<Instructor>, schedules: seq<Schedule>,
                           log: seq<LogEntry>)

  const EmptyTables := Tables([], [], [], [], [])

  /** Ids come from AUTOINCREMENT on tables that are never deleted from, so the row at
      position i has id i + 1; usernames are UNIQUE; roles pass their CHECK. */
  ghost predicate UsersOk(users: seq<User>) {
    && (forall i :: 0 <= i < |users| ==> users[i].id == i + 1 && IsRole(users[i].role))
    && (forall i, j :: 0 <= i < j < |users| ==> users[i].username != users[j].username)
  }

  /** Department names and codes are UNIQUE. */
  ghost predicate DepartmentsOk(departments: seq<Department>) {
    && (forall i :: 0 <= i < |departments| ==> departments[i].id == i + 1)
    && (forall i, j :: 0 <= i < j < |departments| ==>
          departments[i].name != departments[j].name && departments[i].code != departments[j].code)
  }

  /** `user_id` is UNIQUE and both foreign keys resolve; the status passes its CHECK. */
  ghost predicate InstructorsOk(instructors: seq<Instructor>, userCount: nat, departmentCount: nat) {
    && (forall i :: 0 <= i < |instructors| ==>
          && instructors[i].id == i + 1
          && 1 <= instructors[i].userId <= userCount
          && 1 <= instructors[i].departmentId <= departmentCount
          && IsStatus(instructors[i].status))
    && (forall i, j :: 0 <= i < j < |instructors| ==> instructors[i].userId != instructors[j].userId)
  }

  ghost predicate SchedulesOk(schedules: seq<Schedule>, instructorCount: nat) {
    forall i :: 0 <= i < |schedules| ==>
      && schedules[i].id == i + 1
      && 1 <= schedules[i].instructorId <= instructorCount
      && IsScheduleType(schedules[i].scheduleType)
  }

  ghost predicate LogOk(log: seq<LogEntry>, instructorCount: nat) {
    forall i :: 0 <= i < |log| ==> log[i].id == i + 1 && 1 <= log[i].instructorId <= instructorCount
  }

  /** Every constraint of the schema, with `PRAGMA foreign_keys = ON`. */
  ghost predicate WellFormed(t: Tables) {
    && UsersOk(t.users)
    && DepartmentsOk(t.departments)
    && InstructorsOk(t.instructors, |t.users|, |t.departments|)
    && SchedulesOk(t.schedules, |t.instructors|)
    && LogOk(t.log, |t.instructors|)
  }

  /** `SELECT * FROM users WHERE username = ?` with `fetchone()`. */
  function FindUserByName(users: seq<User>, username: string): (r: Option<nat>)
    ensures r.Some? ==> r.value < |users| && users[r.value].username == username
    ensures r.None? <==> forall i :: 0 <= i < |users| ==> users[i].username != username
  {
    FirstIndex(users, (u: User) => u.username == username)
  }

  /** The join `users u ON u.id = ?`. */
  function FindUser(users: seq<User>, id: nat): (r: Option<nat>)
    ensures r.Some? ==> r.value < |users| && users[r.value].id == id
    ensures r.None? <==> forall i :: 0 <= i < |users| ==> users[i].id != id
  {
    FirstIndex(users, (u: User) => u.id == id)
  }

  /** `SELECT * FROM departments WHERE id = ?` with `fetchone()`. */
  function FindDepartment(departments: seq<Department>, id: nat): (r: Option<nat>)
    ensures r.Some? ==> r.value < |departments| && departments[r.value].id == id
    ensures r.None? <==> forall i :: 0 <= i < |departments| ==> departments[i].id != id
  {
    FirstIndex(departments, (d: Department) => d.id == id)
  }

  /** `SELECT id FROM instructors WHERE user_id = ?` with `fetchone()`. */
  function FindInstructorByUser(instructors: seq<Instructor>, userId: nat): (r: Option<nat>)
    ensures r.Some? ==> r.value < |instructors| && instructors[r.value].userId == userId
    ensures r.None? <==> forall i :: 0 <= i < |instructors| ==> instructors[i].userId != userId
  {
    FirstIndex(instructors, (i: Instructor) => i.userId == userId)
  }

  /** On a well-formed table a user owns at most one instructor row, so the row found is THE row. */
  lemma FoundInstructorIsUnique(t: Tables, userId: nat, j: nat)
    requires WellFormed(t)
    requires j < |t.instructors| && t.instructors[j].userId == userId
    ensures FindInstructorByUser(t.instructors, userId) == Some(j)
  {
    var r := FindInstructorByUser(t.instructors, userId);
    assert r.Some?;
  }

  /** What a request ends in. Most outcomes stand for a flash message and a redirect;
      `RedirectLogin` is a redirect without a message, and `ServerError` an unhandled
      exception answered with HTTP 500. */
  /** The largest value Python's sqlite3 binds as an INTEGER parameter (a signed 64-bit
      integer); binding a larger Python int raises `OverflowError`. */
  const SqliteIntMax: nat := 0x7FFF_FFFF_FFFF_FFFF

  datatype Outcome =
    | RedirectLogin           // no user_id in the session: redirect to the login page
    | AccessDenied            // "Access denied."
    | ProfileNotFound         // "Instructor profile not found."
    | DepartmentNotFound      // "Department not found."
    | InvalidStatus           // "Invalid status."
    | InvalidScheduleType     // "Invalid schedule type."
    | MissingDates            // "Start and end dates are required."
    | StatusUpdated(status: string)     // "Status updated to {status}."
    | Scheduled(scheduleType: string)   // "{Type} scheduled successfully."
    | ServerError             // the handler raised before writing: HTTP 500, nothing committed
}
