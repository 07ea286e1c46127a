/** The database as the handlers change it: one object holding the five tables, whose write
    methods are the committed bodies of `update_status` and `add_schedule` (app.py), and
    whose initial content is what `init_db` and `seed_db` leave behind. */
module Store {
  import opened Text
  import opened Seqs
  import opened Schema
  import opened Access
  import opened Transitions

  /** One tuple of `seed_db`'s instructor list (the password and role are the same for all). */
  datatype DemoInstructor = DemoInstructor(username: string, fullName: string, departmentId: nat, status: string)

  const DemoDepartments: seq<(string, string)> := [
    ("College of Computing Studies", "CCS"),
    ("College of Engineering", "COE"),
    ("College of Education", "CED"),
    ("College of Arts and Sciences", "CAS"),
    ("College of Business Administration", "CBA")
  ]

  const DemoInstructors: seq<DemoInstructor> := [
    DemoInstructor("jdoe", "John Doe", 1, "In"),
    DemoInstructor("asmith", "Anna Smith", 1, "Out"),
    DemoInstructor("bcruz", "Benjamin Cruz", 2, "On Leave"),
    DemoInstructor("mgarcia", "Maria Garcia", 2, "In"),
    DemoInstructor("rlopez", "Roberto Lopez", 3, "On Travel"),
    DemoInstructor("lreyes", "Lorna Reyes", 3, "In"),
    DemoInstructor("pnavarro", "Pedro Navarro", 4, "Out"),
    DemoInstructor("ctan", "Carmen Tan", 4, "In"),
    DemoInstructor("jsantos", "Jose Santos", 5, "In"),
    DemoInstructor("mvillar", "Marta Villar", 5, "On Leave")
  ]

  /** The demo student account, inserted last. */
  const StudentUsername := "student"
  const StudentFullName := "Juan Antonio"

  function DemoDepartmentRow(i: nat): Department
    requires i < |DemoDepartments|
  {
    Department(i + 1, DemoDepartments[i].0, DemoDepartments[i].1)
  }

  function DemoUserRow(i: nat, passwordHash: string): User
    requires i < |DemoInstructors|
  {
    User(i + 1, DemoInstructors[i].username, passwordHash, DemoInstructors[i].fullName, "instructor")
  }

  function DemoInstructorRow(i: nat): Instructor
    requires i < |DemoInstructors|
  {
    Instructor(i + 1, i + 1, DemoInstructors[i].departmentId, DemoInstructors[i].status)
  }

  function DemoLogRow(i: nat): LogEntry
    requires i < |DemoInstructors|
  {
    LogEntry(i + 1, i + 1, "Status set", "Status set to " + DemoInstructors[i].status)
  }

  function DemoDepartmentRows(): seq<Department> {
    seq(|DemoDepartments|, i requires 0 <= i < |DemoDepartments| => DemoDepartmentRow(i))
  }

  function DemoUserRows(passwordHash: string): seq<User> {
    seq(|DemoInstructors|, i requires 0 <= i < |DemoInstructors| => DemoUserRow(i, passwordHash))
  }

  function DemoInstructorRows(): seq<Instructor> {
    seq(|DemoInstructors|, i requires 0 <= i < |DemoInstructors| => DemoInstructorRow(i))
  }

  function DemoLogRows(): seq<LogEntry> {
    seq(|DemoInstructors|, i requires 0 <= i < |DemoInstructors| => DemoLogRow(i))
  }

  function StudentRow(passwordHash: string): User {
    User(|DemoInstructors| + 1, StudentUsername, passwordHash, StudentFullName, "student")
  }

  /** The tables `seed_db` fills an empty database with, `passwordHash` standing for
      `generate_password_hash("password")`. They satisfy every constraint of the schema. */
  function SeedTables(passwordHash: string): (t: Tables)
    ensures WellFormed(t)
    ensures |t.users| == 11 && |t.departments| == 5 && |t.instructors| == 10
    ensures t.schedules == [] && |t.log| == 10
  {
    var t := Tables(DemoUserRows(passwordHash) + [StudentRow(passwordHash)], DemoDepartmentRows(),
                    DemoInstructorRows(), [], DemoLogRows());
    SeedIsWellFormed(t, passwordHash);
    t
  }

  /** The demo rows satisfy the column constraints: known statuses, existing departments,
      distinct usernames (none of them the student's), distinct department names and codes. */
  lemma DemoRowsAreValid()
    ensures forall i :: 0 <= i < |DemoInstructors| ==>
      IsStatus(DemoInstructors[i].status) && 1 <= DemoInstructors[i].departmentId <= |DemoDepartments|
    ensures forall i :: 0 <= i < |DemoInstructors| ==> DemoInstructors[i].username != StudentUsername
    ensures forall i, j :: 0 <= i < j < |DemoInstructors| ==>
      DemoInstructors[i].username != DemoInstructors[j].username
    ensures forall i, j :: 0 <= i < j < |DemoDepartments| ==>
      DemoDepartments[i].0 != DemoDepartments[j].0 && DemoDepartments[i].1 != DemoDepartments[j].1
  {
    forall i | 0 <= i < |DemoInstructors|
      ensures IsStatus(DemoInstructors[i].status) && 1 <= DemoInstructors[i].departmentId <= |DemoDepartments|
      ensures DemoInstructors[i].username != StudentUsername
    {
      assert i == 0 || i == 1 || i == 2 || i == 3 || i == 4 || i == 5 || i == 6 || i == 7 || i == 8 || i == 9;
    }
    forall i, j | 0 <= i < j < |DemoInstructors|
      ensures DemoInstructors[i].username != DemoInstructors[j].username
    {
      assert i == 0 || i == 1 || i == 2 || i == 3 || i == 4 || i == 5 || i == 6 || i == 7 || i == 8;
      assert j == 1 || j == 2 || j == 3 || j == 4 || j == 5 || j == 6 || j == 7 || j == 8 || j == 9;
    }
    forall i, j | 0 <= i < j < |DemoDepartments|
      ensures DemoDepartments[i].0 != DemoDepartments[j].0 && DemoDepartments[i].1 != DemoDepartments[j].1
    {
      assert i == 0 || i == 1 || i == 2 || i == 3;
      assert j == 1 || j == 2 || j == 3 || j == 4;
    }
  }

  lemma SeedIsWellFormed(t: Tables, passwordHash: string)
    requires t == Tables(DemoUserRows(passwordHash) + [StudentRow(passwordHash)], DemoDepartmentRows(),
                         DemoInstructorRows(), [], DemoLogRows())
    ensures WellFormed(t)
  {
    DemoRowsAreValid();
    assert UsersOk(t.users) by {
      forall i, j | 0 <= i < j < |t.users|
        ensures t.users[i].username != t.users[j].username
      {
        if j < |DemoInstructors| {
          assert t.users[i] == DemoUserRow(i, passwordHash);
          assert t.users[j] == DemoUserRow(j, passwordHash);
        } else {
          assert t.users[i] == DemoUserRow(i, passwordHash);
        }
      }
    }
  }

  class FacultyStore {
    var users: seq<User>
    var departments: seq<Department>
    var instructors: seq<Instructor>
    var schedules: seq<Schedule>
    var log: seq<LogEntry>

    function Snapshot(): Tables
      reads this
    {
      Tables(users, departments, instructors, schedules, log)
    }

    /** The schema's constraints hold of the stored rows. */
    ghost predicate Valid()
      reads this
    {
      WellFormed(Snapshot())
    }

    /** `init_db` on a new database file: five empty tables. */
    constructor ()
      ensures Valid() && Snapshot() == EmptyTables
    {
      users, departments, instructors, schedules, log := [], [], [], [], [];
    }

    /** `seed_db`: does nothing once there are users; otherwise inserts the demo departments,
        then each demo instructor's user row, instructor row (with the user's new id) and
        "Status set" entry (with the instructor's new id), then the student account. */
    method Seed(passwordHash: string)
      requires Valid()
      requires users == [] ==> Snapshot() == EmptyTables
      modifies this
      ensures Valid()
      ensures old(users) != [] ==> Snapshot() == old(Snapshot())
      ensures old(users) == [] ==> Snapshot() == SeedTables(passwordHash)
    {
      if |users| > 0 {
        return;
      }
      InsertDemoDepartments();
      InsertDemoInstructors(passwordHash);
      users := users + [StudentRow(passwordHash)];
      assert Snapshot() == SeedTables(passwordHash);
    }

    /** The department loop of `seed_db`. */
    method InsertDemoDepartments()
      requires departments == []
      modifies this
      ensures departments == DemoDepartmentRows()
      ensures users == old(users) && instructors == old(instructors)
      ensures schedules == old(schedules) && log == old(log)
    {
      var i := 0;
      while i < |DemoDepartments|
        invariant i <= |DemoDepartments|
        invariant departments == DemoDepartmentRows()[..i]
        invariant users == old(users) && instructors == old(instructors)
        invariant schedules == old(schedules) && log == old(log)
      {
        departments := departments + [Department(|departments| + 1, DemoDepartments[i].0, DemoDepartments[i].1)];
        i := i + 1;
      }
      assert DemoDepartmentRows()[..i] == DemoDepartmentRows();
    }

    /** The instructor loop of `seed_db`: each demo instructor's user row, then the instructor
        row pointing at the user's new id, then the "Status set" entry for the new instructor. */
    method InsertDemoInstructors(passwordHash: string)
      requires users == [] && instructors == [] && log == []
      modifies this
      ensures users == DemoUserRows(passwordHash)
      ensures instructors == DemoInstructorRows() && log == DemoLogRows()
      ensures departments == old(departments) && schedules == old(schedules)
    {
      var j := 0;
      while j < |DemoInstructors|
        invariant j <= |DemoInstructors|
        invariant departments == old(departments) && schedules == old(schedules)
        invariant users == DemoUserRows(passwordHash)[..j]
        invariant instructors == DemoInstructorRows()[..j]
        invariant log == DemoLogRows()[..j]
      {
        assert DemoUserRows(passwordHash)[..j + 1] == DemoUserRows(passwordHash)[..j] + [DemoUserRow(j, passwordHash)];
        assert DemoInstructorRows()[..j + 1] == DemoInstructorRows()[..j] + [DemoInstructorRow(j)];
        assert DemoLogRows()[..j + 1] == DemoLogRows()[..j] + [DemoLogRow(j)];
        var demo := DemoInstructors[j];
        users := users + [User(|users| + 1, demo.username, passwordHash, demo.fullName, "instructor")];
        var userId := users[|users| - 1].id;
        instructors := instructors + [Instructor(|instructors| + 1, userId, demo.departmentId, demo.status)];
        var instructorId := instructors[|instructors| - 1].id;
        log := log + [LogEntry(|log| + 1, instructorId, "Status set", "Status set to " + demo.status)];
        j := j + 1;
      }
      assert DemoUserRows(passwordHash)[..j] == DemoUserRows(passwordHash);
      assert DemoInstructorRows()[..j] == DemoInstructorRows();
      assert DemoLogRows()[..j] == DemoLogRows();
    }

    /** `update_status`, committed: the tables become exactly what `StatusChange` says. */
    method UpdateStatus(s: Session, status: Option<string>) returns (outcome: Outcome)
      requires Valid()
      modifies this
      ensures Valid()
      ensures (outcome, Snapshot()) == StatusChange(old(Snapshot()), s, status)
    {
      StatusChangeKeepsWellFormed(Snapshot(), s, status);
      var gate := RequireInstructor(s);
      if gate.Deny? {
        return gate.outcome;
      }
      if status.None? || !IsStatus(status.value) {
        return InvalidStatus;
      }
      var found := FindInstructorByUser(instructors, gate.userId);
      if found.None? {
        return ServerError;
      }
      RecordStatus(found.value, status.value);
      outcome := StatusUpdated(status.value);
    }

    /** The UPDATE of the row at position `k`, then the "Status changed" INSERT, which reads
        the status the row had before. */
    method RecordStatus(k: nat, status: string)
      requires k < |instructors|
      modifies this
      ensures Snapshot() == WriteStatus(old(Snapshot()), k, status)
    {
      var previous := instructors[k].status;
      var id := instructors[k].id;
      instructors := instructors[k := instructors[k].(status := status)];
      log := log + [LogEntry(|log| + 1, id, "Status changed", "Changed from " + previous + " to " + status)];
    }

    /** `add_schedule`, committed: the tables become exactly what `ScheduleAbsence` says. */
    method AddSchedule(s: Session, scheduleType: Option<string>, startDate: Option<string>,
                       endDate: Option<string>, reason: Option<string>) returns (outcome: Outcome)
      requires Valid()
      modifies this
      ensures Valid()
      ensures (outcome, Snapshot()) == ScheduleAbsence(old(Snapshot()), s, scheduleType, startDate, endDate, reason)
    {
      ScheduleAbsenceKeepsWellFormed(Snapshot(), s, scheduleType, startDate, endDate, reason);
      var gate := RequireInstructor(s);
      if gate.Deny? {
        return gate.outcome;
      }
      var why := Strip(FormValueOrEmpty(reason));
      if scheduleType.None? || !IsScheduleType(scheduleType.value) {
        return InvalidScheduleType;
      }
      if startDate.None? || startDate.value == "" || endDate.None? || endDate.value == "" {
        return MissingDates;
      }
      var found := FindInstructorByUser(instructors, gate.userId);
      if found.None? {
        return ServerError;
      }
      RecordSchedule(found.value, scheduleType.value, startDate.value, endDate.value, why);
      outcome := Scheduled(scheduleType.value);
    }

    /** The schedule INSERT, the status UPDATE and the "Scheduled" INSERT for the row at
        position `k`, in that order. */
    method RecordSchedule(k: nat, scheduleType: string, startDate: string, endDate: string, reason: string)
      requires k < |instructors| && IsScheduleType(scheduleType)
      modifies this
      ensures Snapshot() == WriteSchedule(old(Snapshot()), k, scheduleType, startDate, endDate, reason)
    {
      var id := instructors[k].id;
      schedules := schedules + [Schedule(|schedules| + 1, id, scheduleType, startDate, endDate, reason)];
      var derived := if scheduleType == "leave" then "On Leave" else "On Travel";
      instructors := instructors[k := instructors[k].(status := derived)];
      log := log + [LogEntry(|log| + 1, id, "Scheduled " + scheduleType,
                             Title(scheduleType) + " from " + startDate + " to " + endDate + ": " + reason)];
    }
  }
}
