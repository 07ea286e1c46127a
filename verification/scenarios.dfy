/** The demo database `seed_db` leaves behind, taken through the requests of the application's
    own test suite (test_app.py): who can sign in, what the pages show and what the writes
    leave in the tables. `passwordHash` is the stored hash of "password", and `verify` the
    hash check, which accepts "password" against it. */
module Scenarios {
  import opened Text
  import opened Seqs
  import opened Schema
  import opened Access
  import opened Directory
  import opened Transitions
  import opened Store

  /** The session signing in as jdoe (user 1) leaves. */
  const JdoeSession := Session(Some(1), Some("John Doe"), Some("instructor"))

  /** The session signing in as the student (user 11) leaves. */
  const StudentSession := Session(Some(11), Some("Juan Antonio"), Some("student"))

  /** Both demo accounts sign in with "password"; jdoe with a wrong password and an unknown
      username are turned away. */
  lemma DemoAccountsSignIn(passwordHash: string, verify: (string, string) -> bool)
    requires verify(passwordHash, "password")
    ensures Login(SeedTables(passwordHash).users, Some("jdoe"), Some("password"), verify) == LoggedIn(JdoeSession)
    ensures Login(SeedTables(passwordHash).users, Some("student"), Some("password"), verify)
         == LoggedIn(StudentSession)
    ensures !verify(passwordHash, "wrong") ==>
              Login(SeedTables(passwordHash).users, Some("jdoe"), Some("wrong"), verify) == InvalidCredentials
    ensures Login(SeedTables(passwordHash).users, Some("bad"), Some("credentials"), verify) == InvalidCredentials
  {
    var users := SeedTables(passwordHash).users;
    assert users[0] == DemoUserRow(0, passwordHash);
    assert users[10] == StudentRow(passwordHash);
    StripKeepsTrimmed("jdoe");
    StripKeepsTrimmed("student");
    StripKeepsTrimmed("bad");
    NoUserCalledBad(passwordHash);
  }

  /** No seeded account has the username "bad". */
  lemma NoUserCalledBad(passwordHash: string)
    ensures forall i :: 0 <= i < |SeedTables(passwordHash).users| ==> SeedTables(passwordHash).users[i].username != "bad"
  {
    var users := SeedTables(passwordHash).users;
    forall i | 0 <= i < |users|
      ensures users[i].username != "bad"
    {
      assert i < 10 ==> users[i] == DemoUserRow(i, passwordHash);
      assert i == 10 ==> users[i] == StudentRow(passwordHash);
      assert i == 0 || i == 1 || i == 2 || i == 3 || i == 4 || i == 5 || i == 6 || i == 7 || i == 8 || i == 9 || i == 10;
    }
  }

  /** Signed in as the student: the page of department 1 lists John Doe and Anna Smith. */
  lemma StudentSeesDepartmentOne(passwordHash: string)
    ensures DepartmentDetail(SeedTables(passwordHash), StudentSession, 1).Render?
    ensures InstructorRow(1, "John Doe", "In")
            in DepartmentDetail(SeedTables(passwordHash), StudentSession, 1).page.instructors
    ensures InstructorRow(2, "Anna Smith", "Out")
            in DepartmentDetail(SeedTables(passwordHash), StudentSession, 1).page.instructors
  {
    var t := SeedTables(passwordHash);
    assert t.departments[0] == DemoDepartmentRow(0);
    assert t.instructors[0] == DemoInstructorRow(0) && t.instructors[1] == DemoInstructorRow(1);
    assert t.users[0] == DemoUserRow(0, passwordHash) && t.users[1] == DemoUserRow(1, passwordHash);
    assert RowOf(t.instructors[0], t.users) == Some(InstructorRow(1, "John Doe", "In"));
    assert RowOf(t.instructors[1], t.users) == Some(InstructorRow(2, "Anna Smith", "Out"));
    DepartmentPageListsItsInstructors(t, StudentSession, 1);
  }

  /** On that page Anna Smith comes before John Doe. */
  lemma AnnaListedBeforeJohn(passwordHash: string)
    ensures DepartmentDetail(SeedTables(passwordHash), StudentSession, 1).Render?
    ensures forall i, j ::
      && 0 <= i < |DepartmentDetail(SeedTables(passwordHash), StudentSession, 1).page.instructors|
      && 0 <= j < |DepartmentDetail(SeedTables(passwordHash), StudentSession, 1).page.instructors|
      && DepartmentDetail(SeedTables(passwordHash), StudentSession, 1).page.instructors[i].fullName == "Anna Smith"
      && DepartmentDetail(SeedTables(passwordHash), StudentSession, 1).page.instructors[j].fullName == "John Doe"
      ==> i < j
  {
    StudentSeesDepartmentOne(passwordHash);
    PageListsByName(SeedTables(passwordHash), StudentSession, 1, "Anna Smith", "John Doe");
  }

  /** Signed in as jdoe: the instructor dashboard renders John Doe's profile, in department 1. */
  lemma JdoeSeesDashboard(passwordHash: string)
    ensures InstructorDashboard(SeedTables(passwordHash), JdoeSession).Render?
    ensures InstructorDashboard(SeedTables(passwordHash), JdoeSession).page.profile.fullName == "John Doe"
    ensures InstructorDashboard(SeedTables(passwordHash), JdoeSession).page.profile.instructor.departmentId == 1
  {
    var t := SeedTables(passwordHash);
    assert t.instructors[0] == DemoInstructorRow(0);
    assert t.users[0] == DemoUserRow(0, passwordHash);
    FoundInstructorIsUnique(t, 1, 0);
  }

  /** Signed in as the student: department 999 does not exist, and the instructor dashboard
      is refused. */
  lemma StudentIsTurnedAway(passwordHash: string)
    ensures DepartmentDetail(SeedTables(passwordHash), StudentSession, 999) == Refused(DepartmentNotFound)
    ensures InstructorDashboard(SeedTables(passwordHash), StudentSession) == Refused(AccessDenied)
  {
  }

  /** jdoe sets the status to "Out": the update is reported, jdoe's row says "Out", and the
      dashboard's activity log opens with "Changed from In to Out". */
  lemma JdoeGoesOut(passwordHash: string)
    ensures StatusChange(SeedTables(passwordHash), JdoeSession, Some("Out")).0 == StatusUpdated("Out")
    ensures StatusChange(SeedTables(passwordHash), JdoeSession, Some("Out")).1.instructors[0].status == "Out"
    ensures InstructorDashboard(StatusChange(SeedTables(passwordHash), JdoeSession, Some("Out")).1, JdoeSession)
              .Render?
    ensures InstructorDashboard(StatusChange(SeedTables(passwordHash), JdoeSession, Some("Out")).1, JdoeSession)
              .page.logs[0] == LogEntry(11, 1, "Status changed", "Changed from In to Out")
  {
    var t := SeedTables(passwordHash);
    assert t.instructors[0] == DemoInstructorRow(0);
    FoundInstructorIsUnique(t, 1, 0);
    var t' := StatusChange(t, JdoeSession, Some("Out")).1;
    assert t' == WriteStatus(t, 0, "Out");
    StatusChangeKeepsWellFormed(t, JdoeSession, Some("Out"));
    var e := LogEntry(11, 1, "Status changed", "Changed from In to Out");
    assert t.instructors[0].status == "In";
    assert "Changed from " + "In" + " to " + "Out" == "Changed from In to Out";
    assert t'.log == t.log + [e];
    NewestEntryShownFirst(t.log, e);
    assert t'.instructors[0].id == 1;
    var page := InstructorDashboard(t', JdoeSession);
    assert page.Render? by {
      assert t'.instructors[0].userId == 1;
    }
    assert page.page.profile.instructor == t'.instructors[0] by {
      FoundInstructorIsUnique(t', 1, 0);
    }
  }

  /** jdoe schedules a leave: it is reported, the row turns "On Leave", and the schedule keeps
      the reason while the log entry spells out the whole absence. */
  lemma JdoeTakesLeave(passwordHash: string)
    ensures ScheduleAbsence(SeedTables(passwordHash), JdoeSession, Some("leave"), Some("2026-03-01"),
                            Some("2026-03-05"), Some("Personal leave")).0 == Scheduled("leave")
    ensures ScheduleAbsence(SeedTables(passwordHash), JdoeSession, Some("leave"), Some("2026-03-01"),
                            Some("2026-03-05"), Some("Personal leave")).1.instructors[0].status == "On Leave"
    ensures ScheduleAbsence(SeedTables(passwordHash), JdoeSession, Some("leave"), Some("2026-03-01"),
                            Some("2026-03-05"), Some("Personal leave")).1.schedules
         == [Schedule(1, 1, "leave", "2026-03-01", "2026-03-05", "Personal leave")]
    ensures ScheduleAbsence(SeedTables(passwordHash), JdoeSession, Some("leave"), Some("2026-03-01"),
                            Some("2026-03-05"), Some("Personal leave")).1.log[10]
         == LogEntry(11, 1, "Scheduled leave", "Leave from 2026-03-01 to 2026-03-05: Personal leave")
  {
    var t := SeedTables(passwordHash);
    assert t.instructors[0] == DemoInstructorRow(0);
    FoundInstructorIsUnique(t, 1, 0);
    StripKeepsTrimmed("Personal leave");
    var r := ScheduleAbsence(t, JdoeSession, Some("leave"), Some("2026-03-01"), Some("2026-03-05"),
                             Some("Personal leave"));
    assert r == (Scheduled("leave"),
                 WriteSchedule(t, 0, "leave", "2026-03-01", "2026-03-05", "Personal leave"));
    LeaveDetails();
  }

  /** The details line of that leave. */
  lemma LeaveDetails()
    ensures ScheduleDetails("leave", "2026-03-01", "2026-03-05", "Personal leave")
         == "Leave from 2026-03-01 to 2026-03-05: Personal leave"
  {
    ScheduleTypeTitles();
    assert "Leave" + " from " == "Leave from ";
    assert "Leave from " + "2026-03-01" == "Leave from 2026-03-01";
    assert "Leave from 2026-03-01" + " to " == "Leave from 2026-03-01 to ";
    assert "Leave from 2026-03-01 to " + "2026-03-05" == "Leave from 2026-03-01 to 2026-03-05";
    assert "Leave from 2026-03-01 to 2026-03-05" + ": " == "Leave from 2026-03-01 to 2026-03-05: ";
    assert "Leave from 2026-03-01 to 2026-03-05: " + "Personal leave"
        == "Leave from 2026-03-01 to 2026-03-05: Personal leave";
  }

  /** A request with an unknown type, or with empty dates, is refused and writes nothing. */
  lemma JdoeSendsBadSchedules(passwordHash: string)
    ensures ScheduleAbsence(SeedTables(passwordHash), JdoeSession, Some("invalid"), Some("2026-03-01"),
                            Some("2026-03-05"), None) == (InvalidScheduleType, SeedTables(passwordHash))
    ensures ScheduleAbsence(SeedTables(passwordHash), JdoeSession, Some("leave"), Some(""), Some(""), None)
         == (MissingDates, SeedTables(passwordHash))
    ensures StatusChange(SeedTables(passwordHash), JdoeSession, Some("Invalid"))
         == (InvalidStatus, SeedTables(passwordHash))
  {
  }
}
