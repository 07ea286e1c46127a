/** The read-only pages (app.py `student_dashboard`, `department_detail`,
    `instructor_dashboard`): which rows each query selects and the order it returns them in. */
module Directory {
  import opened Text
  import opened Seqs
  import opened Schema
  import opened Access

  /** A page is either rendered with what the queries returned, or refused with an outcome. */
  datatype View<T> = Render(page: T) | Refused(outcome: Outcome)

  function NameOf(d: Department): string { d.name }

  /** `student_dashboard`: every department, `ORDER BY name`. */
  function StudentDashboard(t: Tables, s: Session): (r: View<seq<Department>>)
    ensures r.Refused? <==> s.userId.None?
    ensures r.Refused? ==> r.outcome == RedirectLogin
    ensures r.Render? ==> SortedBy(r.page, NameOf, false) && multiset(r.page) == multiset(t.departments)
  {
    match RequireLogin(s)
    case Deny(o) => Refused(o)
    case Admit(_) => Render(SortBy(t.departments, NameOf, false))
  }

  /** A row of the department page: `i.id, u.full_name, i.status`. */
  datatype InstructorRow = InstructorRow(id: nat, fullName: string, status: string)

  function FullNameOf(row: InstructorRow): string { row.fullName }

  /** An instructor row joined with its user (`JOIN users u ON u.id = i.user_id`); an
      instructor without a user row drops out of the inner join. */
  function RowOf(i: Instructor, users: seq<User>): (r: Option<InstructorRow>)
    ensures r.Some? <==> exists k :: 0 <= k < |users| && users[k].id == i.userId
    ensures r.Some? ==> r.value.id == i.id && r.value.status == i.status
    ensures r.Some? ==> exists k :: 0 <= k < |users| && users[k].id == i.userId && users[k].fullName == r.value.fullName
  {
    match FindUser(users, i.userId)
    case None => None
    case Some(k) => Some(InstructorRow(i.id, users[k].fullName, i.status))
  }

  /** What one instructor row contributes to a department's join: its joined row when it is
      in the department and has a user, nothing otherwise. */
  function JoinedRow(i: Instructor, users: seq<User>, departmentId: nat): seq<InstructorRow> {
    if i.departmentId == departmentId && RowOf(i, users).Some? then [RowOf(i, users).value] else []
  }

  /** `WHERE i.department_id = ?` over the join, in table order: exactly the joined rows of
      the department's instructors. */
  function Roster(instructors: seq<Instructor>, users: seq<User>, departmentId: nat): (r: seq<InstructorRow>)
    ensures forall row :: row in r ==>
      exists k :: 0 <= k < |instructors| && instructors[k].departmentId == departmentId
                  && RowOf(instructors[k], users) == Some(row)
    ensures forall k :: 0 <= k < |instructors| && instructors[k].departmentId == departmentId
                        && RowOf(instructors[k], users).Some?
                        ==> RowOf(instructors[k], users).value in r
  {
    if instructors == [] then []
    else
      assert forall k :: 1 <= k < |instructors| ==> instructors[k] == instructors[1..][k - 1];
      JoinedRow(instructors[0], users, departmentId) + Roster(instructors[1..], users, departmentId)
  }

  /** The join is read row by row: a new instructor row adds at most its own row, at the end,
      so each instructor is listed once. */
  lemma {:induction false} RosterAppend(instructors: seq<Instructor>, i: Instructor, users: seq<User>, departmentId: nat)
    ensures Roster(instructors + [i], users, departmentId)
         == Roster(instructors, users, departmentId) + JoinedRow(i, users, departmentId)
  {
    if instructors != [] {
      var all := instructors + [i];
      assert all[0] == instructors[0] && all[1..] == instructors[1..] + [i];
      RosterAppend(instructors[1..], i, users, departmentId);
    }
  }

  datatype DepartmentPage = DepartmentPage(department: Department, instructors: seq<InstructorRow>)

  /** `department_detail(dept_id)`: the route takes any digit string, and an id beyond SQLite's
      64-bit INTEGER cannot be bound to the query, which raises; otherwise "Department not
      found." for an unknown id, or the department and its instructors `ORDER BY u.full_name`. */
  function DepartmentDetail(t: Tables, s: Session, departmentId: nat): (r: View<DepartmentPage>)
    ensures s.userId.None? ==> r == Refused(RedirectLogin)
    ensures s.userId.Some? && departmentId > SqliteIntMax ==> r == Refused(ServerError)
    ensures s.userId.Some? && departmentId <= SqliteIntMax ==>
      (r == Refused(DepartmentNotFound) <==> forall d :: d in t.departments ==> d.id != departmentId)
    ensures s.userId.Some? && departmentId <= SqliteIntMax && (exists d :: d in t.departments && d.id == departmentId)
            ==> r.Render?
    ensures r.Render? ==>
      && r.page.department in t.departments
      && r.page.department.id == departmentId
      && SortedBy(r.page.instructors, FullNameOf, false)
      && multiset(r.page.instructors) == multiset(Roster(t.instructors, t.users, departmentId))
  {
    match RequireLogin(s)
    case Deny(o) => Refused(o)
    case Admit(_) =>
      if departmentId > SqliteIntMax then Refused(ServerError)
      else
        match FindDepartment(t.departments, departmentId)
        case None => Refused(DepartmentNotFound)
        case Some(k) =>
          Render(DepartmentPage(t.departments[k],
                                SortBy(Roster(t.instructors, t.users, departmentId), FullNameOf, false)))
  }

  /** A name that sorts strictly before another is listed above it on a department page. */
  lemma PageListsByName(t: Tables, s: Session, departmentId: nat, first: string, second: string)
    requires DepartmentDetail(t, s, departmentId).Render?
    requires !LessEq(second, first)
    ensures forall i, j ::
      && 0 <= i < |DepartmentDetail(t, s, departmentId).page.instructors|
      && 0 <= j < |DepartmentDetail(t, s, departmentId).page.instructors|
      && DepartmentDetail(t, s, departmentId).page.instructors[i].fullName == first
      && DepartmentDetail(t, s, departmentId).page.instructors[j].fullName == second
      ==> i < j
  {
    var rows := DepartmentDetail(t, s, departmentId).page.instructors;
    forall i, j | 0 <= i < |rows| && 0 <= j < |rows| && rows[i].fullName == first && rows[j].fullName == second
      ensures i < j
    {
      if i == j {
        LessEqReflexive(first);
      }
    }
  }

  /** Every row on a department page belongs to an instructor of that department, and every
      instructor of the department (with a user row) is on it. */
  lemma DepartmentPageListsItsInstructors(t: Tables, s: Session, departmentId: nat)
    requires DepartmentDetail(t, s, departmentId).Render?
    ensures forall row :: row in DepartmentDetail(t, s, departmentId).page.instructors ==>
      exists k :: 0 <= k < |t.instructors| && t.instructors[k].departmentId == departmentId
                  && RowOf(t.instructors[k], t.users) == Some(row)
    ensures forall k :: 0 <= k < |t.instructors| && t.instructors[k].departmentId == departmentId
                        && RowOf(t.instructors[k], t.users).Some?
                        ==> RowOf(t.instructors[k], t.users).value
                            in DepartmentDetail(t, s, departmentId).page.instructors
  {
    var rows := DepartmentDetail(t, s, departmentId).page.instructors;
    var roster := Roster(t.instructors, t.users, departmentId);
    assert multiset(rows) == multiset(roster);
    forall row | row in rows
      ensures row in roster
    {
      assert row in multiset(rows);
    }
    forall row | row in roster
      ensures row in rows
    {
      assert row in multiset(roster);
    }
  }

  /** `SELECT * FROM schedules WHERE instructor_id = ?`, in table order. */
  function SchedulesOf(schedules: seq<Schedule>, instructorId: nat): (r: seq<Schedule>)
    ensures forall x :: x in r <==> x in schedules && x.instructorId == instructorId
  {
    Where(schedules, (x: Schedule) => x.instructorId == instructorId)
  }

  /** `SELECT * FROM activity_log WHERE instructor_id = ?`, in table (insertion) order. */
  function LogOf(log: seq<LogEntry>, instructorId: nat): (r: seq<LogEntry>)
    ensures forall x :: x in r <==> x in log && x.instructorId == instructorId
  {
    Where(log, (x: LogEntry) => x.instructorId == instructorId)
  }

  ghost predicate IdsIncreasing(log: seq<LogEntry>) {
    forall i, j :: 0 <= i < j < |log| ==> log[i].id < log[j].id
  }

  /** Selecting one instructor's entries keeps the table's order. */
  lemma {:induction false} LogOfKeepsOrder(log: seq<LogEntry>, instructorId: nat)
    requires IdsIncreasing(log)
    ensures IdsIncreasing(LogOf(log, instructorId))
  {
    if log != [] {
      LogOfKeepsOrder(log[1..], instructorId);
      var rest := LogOf(log[1..], instructorId);
      assert LogOf(log, instructorId) == if log[0].instructorId == instructorId then [log[0]] + rest else rest;
      forall x | x in rest
        ensures log[0].id < x.id
      {
        var j :| 0 <= j < |log[1..]| && log[1..][j] == x;
        assert log[j + 1] == x;
      }
      HeadBelowIncreasing(log[0], rest);
    }
  }

  lemma HeadBelowIncreasing(e: LogEntry, rest: seq<LogEntry>)
    requires IdsIncreasing(rest)
    requires forall x | x in rest :: e.id < x.id
    ensures IdsIncreasing([e] + rest)
  {
    var r := [e] + rest;
    forall i, j | 0 <= i < j < |r|
      ensures r[i].id < r[j].id
    {
      assert r[j] == rest[j - 1];
      if i > 0 {
        assert r[i] == rest[i - 1];
      }
    }
  }

  /** `LIMIT 20` of the dashboard's activity log. */
  const LogLimit := 20

  /** `ORDER BY timestamp DESC LIMIT 20`, with insertion order standing in for the timestamp:
      the instructor's last 20 entries, the newest first. */
  function RecentLog(log: seq<LogEntry>, instructorId: nat): (r: seq<LogEntry>)
    ensures |r| == if |LogOf(log, instructorId)| < LogLimit then |LogOf(log, instructorId)| else LogLimit
    ensures forall k :: 0 <= k < |r| ==>
      r[k] == LogOf(log, instructorId)[|LogOf(log, instructorId)| - 1 - k]
  {
    var newest := Reverse(LogOf(log, instructorId));
    if |newest| <= LogLimit then newest else newest[..LogLimit]
  }

  /** A new row of the log is the last of its instructor's entries. */
  lemma LogOfAppend(log: seq<LogEntry>, e: LogEntry, instructorId: nat)
    ensures LogOf(log + [e], instructorId)
         == LogOf(log, instructorId) + (if e.instructorId == instructorId then [e] else [])
  {
    WhereAppend(log, e, (x: LogEntry) => x.instructorId == instructorId);
  }

  /** The entry a write has just appended heads its instructor's recent log. */
  lemma NewestEntryShownFirst(log: seq<LogEntry>, e: LogEntry)
    ensures |RecentLog(log + [e], e.instructorId)| > 0
    ensures RecentLog(log + [e], e.instructorId)[0] == e
  {
    LogOfAppend(log, e, e.instructorId);
  }

  /** Entry ids are positions plus one, so they increase along the table. */
  lemma LogIdsIncrease(log: seq<LogEntry>, instructorCount: nat)
    requires LogOk(log, instructorCount)
    ensures IdsIncreasing(log)
  {
    forall i, j | 0 <= i < j < |log|
      ensures log[i].id < log[j].id
    {
      assert log[i].id == i + 1 && log[j].id == j + 1;
    }
  }

  /** On well-formed tables the recent log holds only the instructor's own entries, at most
      20 of them, with ids (that is, insertion times) strictly decreasing. */
  lemma RecentLogNewestFirst(t: Tables, instructorId: nat)
    requires WellFormed(t)
    ensures |RecentLog(t.log, instructorId)| <= LogLimit
    ensures forall e :: e in RecentLog(t.log, instructorId) ==> e in t.log && e.instructorId == instructorId
    ensures forall i, j :: 0 <= i < j < |RecentLog(t.log, instructorId)| ==>
      RecentLog(t.log, instructorId)[i].id > RecentLog(t.log, instructorId)[j].id
  {
    LogIdsIncrease(t.log, |t.instructors|);
    RecentLogOrder(t.log, instructorId);
  }

  lemma RecentLogOrder(log: seq<LogEntry>, instructorId: nat)
    requires IdsIncreasing(log)
    ensures forall e :: e in RecentLog(log, instructorId) ==> e in log && e.instructorId == instructorId
    ensures forall i, j :: 0 <= i < j < |RecentLog(log, instructorId)| ==>
      RecentLog(log, instructorId)[i].id > RecentLog(log, instructorId)[j].id
  {
    RecentLogIsOwn(log, instructorId);
    LogOfKeepsOrder(log, instructorId);
    RecentLogDescending(LogOf(log, instructorId), RecentLog(log, instructorId));
  }

  lemma RecentLogIsOwn(log: seq<LogEntry>, instructorId: nat)
    ensures forall e :: e in RecentLog(log, instructorId) ==> e in log && e.instructorId == instructorId
  {
    var mine := LogOf(log, instructorId);
    var r := RecentLog(log, instructorId);
    forall e | e in r
      ensures e in mine
    {
      var k :| 0 <= k < |r| && r[k] == e;
      assert e == mine[|mine| - 1 - k];
    }
  }

  /** A prefix of the reversal of an increasing log decreases. */
  lemma RecentLogDescending(mine: seq<LogEntry>, r: seq<LogEntry>)
    requires IdsIncreasing(mine) && |r| <= |mine|
    requires forall k :: 0 <= k < |r| ==> r[k] == mine[|mine| - 1 - k]
    ensures forall i, j :: 0 <= i < j < |r| ==> r[i].id > r[j].id
  {
    forall i, j | 0 <= i < j < |r|
      ensures r[i].id > r[j].id
    {
      assert r[i] == mine[|mine| - 1 - i] && r[j] == mine[|mine| - 1 - j];
    }
  }

  function StartDateOf(x: Schedule): string { x.startDate }

  /** The instructor's row joined with the user's name and the department's name. */
  datatype Profile = Profile(instructor: Instructor, fullName: string, departmentName: string)

  /** The dashboard's first query: `instructors JOIN users JOIN departments WHERE i.user_id = ?`. */
  function ProfileOf(t: Tables, userId: nat): (r: Option<Profile>)
    ensures r.Some? ==> r.value.instructor in t.instructors && r.value.instructor.userId == userId
    ensures WellFormed(t) && r.Some? ==>
      && r.value.fullName == t.users[r.value.instructor.userId - 1].fullName
      && r.value.departmentName == t.departments[r.value.instructor.departmentId - 1].name
    ensures WellFormed(t) ==>
      (r.Some? <==> exists k :: 0 <= k < |t.instructors| && t.instructors[k].userId == userId)
  {
    match FindInstructorByUser(t.instructors, userId)
    case None => None
    case Some(k) =>
      var i := t.instructors[k];
      assert WellFormed(t) ==> t.users[i.userId - 1].id == i.userId;
      assert WellFormed(t) ==> t.departments[i.departmentId - 1].id == i.departmentId;
      match (FindUser(t.users, i.userId), FindDepartment(t.departments, i.departmentId))
      case (Some(u), Some(d)) => Some(Profile(i, t.users[u].fullName, t.departments[d].name))
      case _ => None
  }

  datatype DashboardPage = DashboardPage(profile: Profile, schedules: seq<Schedule>, logs: seq<LogEntry>)

  /** `instructor_dashboard`: instructors only; "Instructor profile not found." when the user
      has no instructor row; otherwise the profile, its schedules `ORDER BY start_date DESC`
      and its recent activity log. */
  function InstructorDashboard(t: Tables, s: Session): (r: View<DashboardPage>)
    ensures RequireInstructor(s).Deny? ==> r == Refused(RequireInstructor(s).outcome)
    ensures RequireInstructor(s).Admit? && WellFormed(t) ==>
      (r == Refused(ProfileNotFound) <==>
        forall k :: 0 <= k < |t.instructors| ==> t.instructors[k].userId != s.userId.value)
    ensures RequireInstructor(s).Admit? && ProfileOf(t, s.userId.value).Some? ==>
      r.Render? && r.page.profile == ProfileOf(t, s.userId.value).value
    ensures r.Render? ==>
      && r.page.profile.instructor in t.instructors
      && r.page.profile.instructor.userId == s.userId.value
      && SortedBy(r.page.schedules, StartDateOf, true)
      && multiset(r.page.schedules) == multiset(SchedulesOf(t.schedules, r.page.profile.instructor.id))
      && r.page.logs == RecentLog(t.log, r.page.profile.instructor.id)
  {
    match RequireInstructor(s)
    case Deny(o) => Refused(o)
    case Admit(userId) =>
      match ProfileOf(t, userId)
      case None => Refused(ProfileNotFound)
      case Some(p) =>
        Render(DashboardPage(p, SortBy(SchedulesOf(t.schedules, p.instructor.id), StartDateOf, true),
                             RecentLog(t.log, p.instructor.id)))
  }

  /** The gates answer before any query runs: a refused page is the same whatever the tables hold. */
  lemma GatesAnswerWithoutTables(t1: Tables, t2: Tables, s: Session, departmentId: nat)
    ensures RequireLogin(s).Deny? ==>
      && StudentDashboard(t1, s) == StudentDashboard(t2, s) == Refused(RedirectLogin)
      && DepartmentDetail(t1, s, departmentId) == DepartmentDetail(t2, s, departmentId) == Refused(RedirectLogin)
    ensures RequireInstructor(s).Deny? ==>
      InstructorDashboard(t1, s) == InstructorDashboard(t2, s) == Refused(RequireInstructor(s).outcome)
  {
  }
}
