/** The two writes an instructor can make (app.py `update_status`, `add_schedule`), as
    functions from the tables before the request to the outcome and the tables after the
    commit. Each handler commits once, so a request is one atomic step. */
module Transitions {
  import opened Text
  import opened Seqs
  import opened Schema
  import opened Access

  /** `INSERT INTO activity_log (instructor_id, action, details)`: the next AUTOINCREMENT id. */
  function AppendLog(log: seq<LogEntry>, instructorId: nat, action: string, details: string): (r: seq<LogEntry>)
    ensures |r| == |log| + 1 && r[..|log|] == log
    ensures r[|log|] == LogEntry(|log| + 1, instructorId, action, details)
  {
    log + [LogEntry(|log| + 1, instructorId, action, details)]
  }

  /** The user has an instructor row. The write handlers index the lookup result without
      checking it, so without one they raise before writing anything. */
  predicate HasProfile(t: Tables, userId: nat) {
    FindInstructorByUser(t.instructors, userId).Some?
  }

  /** Only the instructor row at position `k` may differ; users and departments are untouched. */
  ghost predicate OnlyRowChanged(t: Tables, t': Tables, k: nat) {
    && t'.users == t.users
    && t'.departments == t.departments
    && |t'.instructors| == |t.instructors|
    && (forall j :: 0 <= j < |t.instructors| && j != k ==> t'.instructors[j] == t.instructors[j])
  }

  // ---- update_status ----------------------------------------------------------------

  /** `new_status in ("In", "Out", "On Leave", "On Travel")`; a missing form field is not. */
  predicate ValidStatus(status: Option<string>) {
    status.Some? && IsStatus(status.value)
  }

  /** The request gets past both checks and reaches the UPDATE. */
  predicate ReachesStatusWrite(s: Session, status: Option<string>) {
    RequireInstructor(s).Admit? && ValidStatus(status)
  }

  /** The UPDATE and INSERT of `update_status` on the instructor row at position `k`: that
      row gets exactly the new status, and one "Status changed" entry records the transition. */
  function WriteStatus(t: Tables, k: nat, status: string): (t': Tables)
    requires k < |t.instructors|
    ensures OnlyRowChanged(t, t', k)
    ensures t'.instructors[k] == t.instructors[k].(status := status)
    ensures t'.schedules == t.schedules
    ensures t'.log == t.log + [LogEntry(|t.log| + 1, t.instructors[k].id, "Status changed",
                                        "Changed from " + t.instructors[k].status + " to " + status)]
  {
    var row := t.instructors[k];
    t.(instructors := t.instructors[k := row.(status := status)],
       log := AppendLog(t.log, row.id, "Status changed", "Changed from " + row.status + " to " + status))
  }

  /** `update_status`: the gate first; then an invalid value is refused with no write;
      otherwise the caller's own row is written (even when the status is the old one). */
  function StatusChange(t: Tables, s: Session, status: Option<string>): (r: (Outcome, Tables))
    ensures RequireInstructor(s).Deny? ==> r == (RequireInstructor(s).outcome, t)
    ensures RequireInstructor(s).Admit? && !ValidStatus(status) ==> r == (InvalidStatus, t)
    ensures ReachesStatusWrite(s, status) && !HasProfile(t, s.userId.value) ==> r == (ServerError, t)
    ensures ReachesStatusWrite(s, status) && HasProfile(t, s.userId.value) ==>
      r == (StatusUpdated(status.value),
            WriteStatus(t, FindInstructorByUser(t.instructors, s.userId.value).value, status.value))
    ensures |r.1.log| == |t.log| + (if r.0.StatusUpdated? then 1 else 0)
  {
    match RequireInstructor(s)
    case Deny(o) => (o, t)
    case Admit(userId) =>
      if !ValidStatus(status) then (InvalidStatus, t)
      else
        match FindInstructorByUser(t.instructors, userId)
        case None => (ServerError, t)
        case Some(k) => (StatusUpdated(status.value), WriteStatus(t, k, status.value))
  }

  /** Rewriting one row's status to a valid one keeps the instructor table's constraints. */
  lemma RowRewriteKeepsInstructorsOk(t: Tables, t': Tables, k: nat)
    requires InstructorsOk(t.instructors, |t.users|, |t.departments|)
    requires OnlyRowChanged(t, t', k) && k < |t.instructors|
    requires t'.instructors[k].id == t.instructors[k].id && t'.instructors[k].userId == t.instructors[k].userId
    requires t'.instructors[k].departmentId == t.instructors[k].departmentId
    requires IsStatus(t'.instructors[k].status)
    ensures InstructorsOk(t'.instructors, |t'.users|, |t'.departments|)
  {
    forall i, j | 0 <= i < j < |t'.instructors|
      ensures t'.instructors[i].userId != t'.instructors[j].userId
    {
      assert t'.instructors[i].userId == t.instructors[i].userId;
      assert t'.instructors[j].userId == t.instructors[j].userId;
    }
  }

  /** Appending an entry for an existing instructor keeps the log's constraints. */
  lemma AppendKeepsLogOk(log: seq<LogEntry>, instructorCount: nat, instructorId: nat, action: string, details: string)
    requires LogOk(log, instructorCount) && 1 <= instructorId <= instructorCount
    ensures LogOk(AppendLog(log, instructorId, action, details), instructorCount)
  {
    var log' := AppendLog(log, instructorId, action, details);
    forall i | 0 <= i < |log'|
      ensures log'[i].id == i + 1 && 1 <= log'[i].instructorId <= instructorCount
    {
      if i < |log| { assert log'[i] == log[i]; }
    }
  }

  lemma WriteStatusKeepsWellFormed(t: Tables, k: nat, status: string)
    requires WellFormed(t) && k < |t.instructors| && IsStatus(status)
    ensures WellFormed(WriteStatus(t, k, status))
  {
    var t' := WriteStatus(t, k, status);
    RowRewriteKeepsInstructorsOk(t, t', k);
    AppendKeepsLogOk(t.log, |t.instructors|, t.instructors[k].id, "Status changed",
                     "Changed from " + t.instructors[k].status + " to " + status);
  }

  lemma StatusChangeKeepsWellFormed(t: Tables, s: Session, status: Option<string>)
    requires WellFormed(t)
    ensures WellFormed(StatusChange(t, s, status).1)
  {
    if ReachesStatusWrite(s, status) && HasProfile(t, s.userId.value) {
      WriteStatusKeepsWellFormed(t, FindInstructorByUser(t.instructors, s.userId.value).value, status.value);
    }
  }

  /** The tables after the same request is sent `n` times in a row. */
  function RepeatStatusChange(t: Tables, s: Session, status: Option<string>, n: nat): (r: Tables)
    decreases n
  {
    if n == 0 then t
    else RepeatStatusChange(StatusChange(t, s, status).1, s, status, n - 1)
  }

  /** A refused status change can be repeated any number of times without changing anything. */
  lemma {:induction false} RefusedStatusChangeNeverWrites(t: Tables, s: Session, status: Option<string>, n: nat)
    requires !ReachesStatusWrite(s, status)
    ensures RepeatStatusChange(t, s, status, n) == t
    decreases n
  {
    if n > 0 {
      RefusedStatusChangeNeverWrites(t, s, status, n - 1);
    }
  }

  /** An accepted status change is not idempotent on the log: every repetition logs again
      ("In" to "In" included), while the status stays the requested one. */
  lemma {:induction false} RepeatedStatusChangeLogsEveryTime(t: Tables, s: Session, status: Option<string>,
                                                             n: nat, k: nat)
    requires ReachesStatusWrite(s, status)
    requires FindInstructorByUser(t.instructors, s.userId.value) == Some(k)
    ensures |RepeatStatusChange(t, s, status, n).log| == |t.log| + n
    ensures |RepeatStatusChange(t, s, status, n).instructors| == |t.instructors|
    ensures n > 0 ==> RepeatStatusChange(t, s, status, n).instructors[k].status == status.value
    decreases n
  {
    if n > 0 {
      var t1 := WriteStatus(t, k, status.value);
      assert StatusChange(t, s, status).1 == t1;
      LookupIgnoresStatus(t.instructors, t1.instructors, s.userId.value);
      RepeatedStatusChangeLogsEveryTime(t1, s, status, n - 1, k);
      assert RepeatStatusChange(t, s, status, n) == RepeatStatusChange(t1, s, status, n - 1);
      if n == 1 {
        assert RepeatStatusChange(t1, s, status, 0) == t1;
      }
    }
  }

  /** The user lookup only reads `user_id`, so rewriting statuses does not move it. */
  lemma {:induction false} LookupIgnoresStatus(a: seq<Instructor>, b: seq<Instructor>, userId: nat)
    requires |a| == |b| && forall j :: 0 <= j < |a| ==> a[j].userId == b[j].userId
    ensures FindInstructorByUser(a, userId) == FindInstructorByUser(b, userId)
  {
  }

  // ---- add_schedule -----------------------------------------------------------------

  /** `schedule_type in ("leave", "travel")`. */
  predicate ValidScheduleType(scheduleType: Option<string>) {
    scheduleType.Some? && IsScheduleType(scheduleType.value)
  }

  /** `not start_date or not end_date` is false: both present and non-empty. Nothing else is
      checked: neither the date format nor that the end comes after the start. */
  predicate DatesGiven(startDate: Option<string>, endDate: Option<string>) {
    startDate.Some? && startDate.value != "" && endDate.Some? && endDate.value != ""
  }

  predicate ReachesScheduleWrite(s: Session, scheduleType: Option<string>,
                                 startDate: Option<string>, endDate: Option<string>) {
    RequireInstructor(s).Admit? && ValidScheduleType(scheduleType) && DatesGiven(startDate, endDate)
  }

  /** The status a schedule imposes: "On Leave" for leave, "On Travel" for travel. */
  function DerivedStatus(scheduleType: string): (r: string)
    requires IsScheduleType(scheduleType)
    ensures IsStatus(r)
    ensures r == "On Leave" <==> scheduleType == "leave"
    ensures r == "On Travel" <==> scheduleType == "travel"
  {
    if scheduleType == "leave" then "On Leave" else "On Travel"
  }

  /** The log entry's details: the capitalised type, the date range and the stripped reason. */
  function ScheduleDetails(scheduleType: string, startDate: string, endDate: string, reason: string): string {
    Title(scheduleType) + " from " + startDate + " to " + endDate + ": " + reason
  }

  /** `"leave".title()` is "Leave" and `"travel".title()` is "Travel". */
  lemma ScheduleTypeTitles()
    ensures Title("leave") == "Leave" && Title("travel") == "Travel"
  {
    TitleOfLowerWord("leave");
    TitleOfLowerWord("travel");
  }

  /** The INSERT, UPDATE and INSERT of `add_schedule` for the instructor row at position `k`:
      one schedule row is appended, the status is overwritten with the derived one whatever it
      was, and one "Scheduled {type}" entry is appended. */
  function WriteSchedule(t: Tables, k: nat, scheduleType: string, startDate: string, endDate: string,
                         reason: string): (t': Tables)
    requires k < |t.instructors| && IsScheduleType(scheduleType)
    ensures OnlyRowChanged(t, t', k)
    ensures t'.instructors[k] == t.instructors[k].(status := DerivedStatus(scheduleType))
    ensures t'.schedules == t.schedules + [Schedule(|t.schedules| + 1, t.instructors[k].id, scheduleType,
                                                    startDate, endDate, reason)]
    ensures t'.log == t.log + [LogEntry(|t.log| + 1, t.instructors[k].id, "Scheduled " + scheduleType,
                                        ScheduleDetails(scheduleType, startDate, endDate, reason))]
  {
    var row := t.instructors[k];
    var entry := Schedule(|t.schedules| + 1, row.id, scheduleType, startDate, endDate, reason);
    t.(schedules := t.schedules + [entry],
       instructors := t.instructors[k := row.(status := DerivedStatus(scheduleType))],
       log := AppendLog(t.log, row.id, "Scheduled " + scheduleType,
                        ScheduleDetails(scheduleType, startDate, endDate, reason)))
  }

  /** `add_schedule`: the gate first; then the type is checked, then the dates, each refusal
      writing nothing; otherwise the caller's own row is written with the stripped reason. */
  function ScheduleAbsence(t: Tables, s: Session, scheduleType: Option<string>,
                           startDate: Option<string>, endDate: Option<string>,
                           reason: Option<string>): (r: (Outcome, Tables))
    ensures RequireInstructor(s).Deny? ==> r == (RequireInstructor(s).outcome, t)
    ensures RequireInstructor(s).Admit? && !ValidScheduleType(scheduleType) ==> r == (InvalidScheduleType, t)
    ensures RequireInstructor(s).Admit? && ValidScheduleType(scheduleType) && !DatesGiven(startDate, endDate)
            ==> r == (MissingDates, t)
    ensures ReachesScheduleWrite(s, scheduleType, startDate, endDate) && !HasProfile(t, s.userId.value)
            ==> r == (ServerError, t)
    ensures ReachesScheduleWrite(s, scheduleType, startDate, endDate) && HasProfile(t, s.userId.value) ==>
      r == (Scheduled(scheduleType.value),
            WriteSchedule(t, FindInstructorByUser(t.instructors, s.userId.value).value, scheduleType.value,
                          startDate.value, endDate.value, Strip(FormValueOrEmpty(reason))))
    ensures |r.1.log| == |t.log| + (if r.0.Scheduled? then 1 else 0)
    ensures |r.1.schedules| == |t.schedules| + (if r.0.Scheduled? then 1 else 0)
  {
    match RequireInstructor(s)
    case Deny(o) => (o, t)
    case Admit(userId) =>
      var why := Strip(FormValueOrEmpty(reason));
      if !ValidScheduleType(scheduleType) then (InvalidScheduleType, t)
      else if !DatesGiven(startDate, endDate) then (MissingDates, t)
      else
        match FindInstructorByUser(t.instructors, userId)
        case None => (ServerError, t)
        case Some(k) =>
          (Scheduled(scheduleType.value), WriteSchedule(t, k, scheduleType.value, startDate.value, endDate.value, why))
  }

  lemma WriteScheduleKeepsWellFormed(t: Tables, k: nat, scheduleType: string, startDate: string,
                                     endDate: string, reason: string)
    requires WellFormed(t) && k < |t.instructors| && IsScheduleType(scheduleType)
    ensures WellFormed(WriteSchedule(t, k, scheduleType, startDate, endDate, reason))
  {
    var t' := WriteSchedule(t, k, scheduleType, startDate, endDate, reason);
    RowRewriteKeepsInstructorsOk(t, t', k);
    AppendKeepsLogOk(t.log, |t.instructors|, t.instructors[k].id, "Scheduled " + scheduleType,
                     ScheduleDetails(scheduleType, startDate, endDate, reason));
    forall i | 0 <= i < |t'.schedules|
      ensures t'.schedules[i].id == i + 1 && 1 <= t'.schedules[i].instructorId <= |t'.instructors|
              && IsScheduleType(t'.schedules[i].scheduleType)
    {
      if i < |t.schedules| { assert t'.schedules[i] == t.schedules[i]; }
    }
  }

  lemma ScheduleAbsenceKeepsWellFormed(t: Tables, s: Session, scheduleType: Option<string>,
                                       startDate: Option<string>, endDate: Option<string>,
                                       reason: Option<string>)
    requires WellFormed(t)
    ensures WellFormed(ScheduleAbsence(t, s, scheduleType, startDate, endDate, reason).1)
  {
    if ReachesScheduleWrite(s, scheduleType, startDate, endDate) && HasProfile(t, s.userId.value) {
      WriteScheduleKeepsWellFormed(t, FindInstructorByUser(t.instructors, s.userId.value).value,
                                   scheduleType.value, startDate.value, endDate.value, Strip(FormValueOrEmpty(reason)));
    }
  }

  /** Scheduling overrides any manual status: whatever the status was, afterwards it is the
      one the schedule type implies, and the status a later page shows is that one. */
  lemma ScheduleOverridesStatus(t: Tables, s: Session, scheduleType: Option<string>,
                                startDate: Option<string>, endDate: Option<string>,
                                reason: Option<string>, before: Option<string>, k: nat)
    requires ReachesScheduleWrite(s, scheduleType, startDate, endDate) && ReachesStatusWrite(s, before)
    requires FindInstructorByUser(t.instructors, s.userId.value) == Some(k)
    ensures
      var t2 := ScheduleAbsence(StatusChange(t, s, before).1, s, scheduleType, startDate, endDate, reason).1;
      k < |t2.instructors| && t2.instructors[k].status == DerivedStatus(scheduleType.value)
  {
    var t1 := WriteStatus(t, k, before.value);
    assert StatusChange(t, s, before).1 == t1;
    LookupIgnoresStatus(t.instructors, t1.instructors, s.userId.value);
    var t2 := WriteSchedule(t1, k, scheduleType.value, startDate.value, endDate.value, Strip(FormValueOrEmpty(reason)));
    assert ScheduleAbsence(t1, s, scheduleType, startDate, endDate, reason).1 == t2;
  }
}
