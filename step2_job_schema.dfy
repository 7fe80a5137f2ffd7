/**
 * The job-details step's schema: field rules (department and job-type
 * enumerations, title length, a chosen manager) and the cross-field
 * refinement that checks the start-date window and the salary range.
 *
 * Dates are day numbers; `today` is the current day. As in the validation
 * library, an enumeration value outside its list stops the object check,
 * so the refinement then adds nothing; the other field failures do not
 * stop it, and its issues are appended after theirs.
 */
module Step2JobSchema {
  import opened Common
  import opened Calendar
  import opened SalaryUtils

  const Departments: seq<string> := ["Engineering", "Marketing", "Sales", "HR", "Finance"]
  const JobTypes: seq<string> := ["Full-time", "Part-time", "Contract"]

  /** The start date may lie at most this many days after today. */
  const MaxDaysAhead: int := 90

  const DepartmentMessage: string := "Invalid enum value"
  const DepartmentRequiredMessage: string := "Department is required"
  const JobTypeMessage: string := "Invalid enum value"
  const TitleMessage: string := "Position title must be at least 3 characters"
  const ManagerMessage: string := "Manager is required"
  const InvalidDateMessage: string := "Invalid date format"
  const PastMessage: string := "Start date cannot be in past"
  const TooFarMessage: string := "Start date cannot be more than 90 days in the future"
  const WeekendMessage: string := "Start date cannot be on weekend for HR/Finance"
  const SalaryMessage: string := "Invalid salary based on job type"

  /** The step's record; the start date is the parsed day number (`None` for an invalid date). */
  datatype JobInput = JobInput(
    department: string,
    positionTitle: string,
    startDate: Option<int>,
    jobType: string,
    salary: real,
    managerId: string)

  predicate EnumsValid(input: JobInput) {
    input.department in Departments && input.jobType in JobTypes
  }

  /** Issues of the object's own field rules, in field order. */
  function FieldIssues(input: JobInput): seq<Issue> {
    When(input.department !in Departments, Issue(["department"], DepartmentMessage))
    + When(input.department in Departments && input.department == "",
           Issue(["department"], DepartmentRequiredMessage))
    + When(|input.positionTitle| < 3, Issue(["positionTitle"], TitleMessage))
    + When(input.jobType !in JobTypes, Issue(["jobType"], JobTypeMessage))
    + When(|input.managerId| < 1, Issue(["managerId"], ManagerMessage))
  }

  /** The date part of the refinement: an invalid date, else three independent checks. */
  function StartDateIssues(startDate: Option<int>, department: string, today: int): seq<Issue> {
    match startDate
    case None => [Issue(["startDate"], InvalidDateMessage)]
    case Some(day) =>
      When(day < today, Issue(["startDate"], PastMessage))
      + When(today + MaxDaysAhead < day, Issue(["startDate"], TooFarMessage))
      + When((department == "HR" || department == "Finance") && IsWeekend(day),
             Issue(["startDate"], WeekendMessage))
  }

  /** The salary part of the refinement. */
  function SalaryIssues(jobType: string, salary: real): seq<Issue> {
    When(jobType == "Full-time" && (salary < 30000.0 || salary > 200000.0), Issue(["salary"], SalaryMessage))
    + When(jobType == "Contract" && (salary < 50.0 || salary > 150.0), Issue(["salary"], SalaryMessage))
  }

  /** All issues of the step: field issues, then the refinement's when the enumerations are valid. */
  function Step2Issues(input: JobInput, today: int): (issues: seq<Issue>)
    ensures Accepts(issues) <==>
      && EnumsValid(input)
      && |input.positionTitle| >= 3
      && input.managerId != ""
      && input.startDate.Some?
      && today <= input.startDate.value <= today + MaxDaysAhead
      && !((input.department == "HR" || input.department == "Finance") && IsWeekend(input.startDate.value))
      && IsSalaryValid(input.jobType, input.salary)
  {
    FieldIssues(input)
    + if EnumsValid(input) then
        StartDateIssues(input.startDate, input.department, today)
        + SalaryIssues(input.jobType, input.salary)
      else []
  }

  /** The "Department is required" refinement can never fire: every listed department is non-empty. */
  lemma DepartmentRequiredNeverRaised(input: JobInput, today: int)
    ensures Issue(["department"], DepartmentRequiredMessage) !in Step2Issues(input, today)
  {
  }

  /** An invalid start date yields the invalid-date issue and no other start-date issue. */
  lemma InvalidDateOnlyIssue(input: JobInput, today: int)
    requires EnumsValid(input) && input.startDate.None?
    ensures Issue(["startDate"], InvalidDateMessage) in Step2Issues(input, today)
    ensures forall i :: i in Step2Issues(input, today) && i.path == ["startDate"]
                        ==> i.message == InvalidDateMessage
  {
    var fields := FieldIssues(input);
    var salary := SalaryIssues(input.jobType, input.salary);
    assert Step2Issues(input, today) == fields + [Issue(["startDate"], InvalidDateMessage)] + salary;
    assert forall i :: i in fields ==> i.path != ["startDate"];
    assert forall i :: i in salary ==> i.path == ["salary"];
  }

  /** ... and it is reported once. */
  lemma InvalidDateReportedOnce(input: JobInput, today: int)
    requires EnumsValid(input) && input.startDate.None?
    ensures multiset(Step2Issues(input, today))[Issue(["startDate"], InvalidDateMessage)] == 1
  {
    var fields := FieldIssues(input);
    var salary := SalaryIssues(input.jobType, input.salary);
    var invalid := Issue(["startDate"], InvalidDateMessage);
    assert Step2Issues(input, today) == fields + [invalid] + salary;
    assert forall i :: i in fields ==> i.path != ["startDate"];
    assert forall i :: i in salary ==> i.path == ["salary"];
    OccursOnce(fields, invalid, salary);
  }

  /** The past check: raised exactly when the date is strictly before today. */
  lemma PastIff(input: JobInput, today: int)
    requires EnumsValid(input) && input.startDate.Some?
    ensures Issue(["startDate"], PastMessage) in Step2Issues(input, today)
            <==> input.startDate.value < today
  {
    DateIssueIn(input, today, Issue(["startDate"], PastMessage));
  }

  /** The look-ahead check: raised exactly when the date is after today + 90; today + 90 itself passes. */
  lemma TooFarIff(input: JobInput, today: int)
    requires EnumsValid(input) && input.startDate.Some?
    ensures Issue(["startDate"], TooFarMessage) in Step2Issues(input, today)
            <==> input.startDate.value > today + 90
  {
    DateIssueIn(input, today, Issue(["startDate"], TooFarMessage));
  }

  /** The weekend check: raised exactly for HR and Finance on a Saturday or Sunday. */
  lemma WeekendIff(input: JobInput, today: int)
    requires EnumsValid(input)
    ensures Issue(["startDate"], WeekendMessage) in Step2Issues(input, today)
            <==> && input.startDate.Some?
                 && (input.department == "HR" || input.department == "Finance")
                 && IsWeekend(input.startDate.value)
  {
    DateIssueIn(input, today, Issue(["startDate"], WeekendMessage));
  }

  /** A start-date issue other than the invalid-date one comes from the date checks alone. */
  lemma DateIssueIn(input: JobInput, today: int, issue: Issue)
    requires EnumsValid(input)
    requires issue.path == ["startDate"] && issue.message != InvalidDateMessage
    ensures issue in Step2Issues(input, today)
            <==> input.startDate.Some? && issue in StartDateIssues(input.startDate, input.department, today)
  {
    var fields := FieldIssues(input);
    var dates := StartDateIssues(input.startDate, input.department, today);
    var salary := SalaryIssues(input.jobType, input.salary);
    assert Step2Issues(input, today) == fields + (dates + salary);
    assert forall i :: i in fields ==> i.path != ["startDate"];
    assert forall i :: i in salary ==> i.path == ["salary"];
  }

  /**
   * The salary issue is raised exactly when `isSalaryValid` says the
   * salary is invalid (given valid enumerations, so that the refinement runs).
   */
  lemma {:induction false} SalaryIssueIffInvalid(input: JobInput, today: int)
    ensures Issue(["salary"], SalaryMessage) in Step2Issues(input, today)
            <==> EnumsValid(input) && !IsSalaryValid(input.jobType, input.salary)
  {
    var fields := FieldIssues(input);
    var dates := StartDateIssues(input.startDate, input.department, today);
    var salary := SalaryIssues(input.jobType, input.salary);
    assert forall i :: i in fields ==> i.path != ["salary"];
    assert forall i :: i in dates ==> i.path == ["startDate"];
    if EnumsValid(input) {
      assert Step2Issues(input, today) == fields + dates + salary;
    } else {
      assert Step2Issues(input, today) == fields;
    }
  }

  /** A part-time salary is never flagged. */
  lemma PartTimeNeverFlagged(input: JobInput, today: int)
    requires input.jobType == "Part-time"
    ensures Issue(["salary"], SalaryMessage) !in Step2Issues(input, today)
  {
    SalaryIssueIffInvalid(input, today);
  }

  /** An empty manager id is always reported. */
  lemma EmptyManagerRejected(input: JobInput, today: int)
    requires input.managerId == ""
    ensures Issue(["managerId"], ManagerMessage) in Step2Issues(input, today)
  {
  }

  /** The date checks are independent: an HR start date in the past on a Sunday collects both issues. */
  lemma PastAndWeekendTogether(input: JobInput, today: int)
    requires EnumsValid(input) && input.department == "HR"
    requires input.startDate == Some(3) && today == 10
    ensures Issue(["startDate"], PastMessage) in Step2Issues(input, today)
    ensures Issue(["startDate"], WeekendMessage) in Step2Issues(input, today)
  {
    assert IsWeekend(3);
    PastIff(input, today);
    WeekendIff(input, today);
  }

  /** Outside HR and Finance the weekend issue never appears. */
  lemma OtherDepartmentsNoWeekendIssue(input: JobInput, today: int)
    requires input.department != "HR" && input.department != "Finance"
    ensures Issue(["startDate"], WeekendMessage) !in Step2Issues(input, today)
  {
    if EnumsValid(input) {
      WeekendIff(input, today);
    }
  }

  /** Milliseconds in a day. */
  const MsPerDay: int := 24 * 60 * 60 * 1000

  /**
   * The past check as the clock sees it: the start date is the instant of
   * its UTC midnight, "today" is the current instant, `msOfDay` milliseconds
   * after the UTC midnight of day `today`.
   */
  predicate PastAtInstant(day: int, today: int, msOfDay: int)
    requires 0 <= msOfDay < MsPerDay
  {
    day * MsPerDay < today * MsPerDay + msOfDay
  }

  /** The 90-day check as the clock sees it: the current instant plus 90 days is before the start date. */
  predicate TooFarAtInstant(day: int, today: int, msOfDay: int)
    requires 0 <= msOfDay < MsPerDay
  {
    today * MsPerDay + msOfDay + MaxDaysAhead * MsPerDay < day * MsPerDay
  }

  /**
   * At instant granularity today's own date counts as past at every moment
   * after midnight; only earlier days agree with the day-level rule.
   */
  lemma PastAtInstantIff(day: int, today: int, msOfDay: int)
    requires 0 <= msOfDay < MsPerDay
    ensures PastAtInstant(day, today, msOfDay) <==> day < today || (day == today && msOfDay > 0)
  {
    if day < today {
      assert day * MsPerDay <= (today - 1) * MsPerDay;
    } else if day > today {
      assert day * MsPerDay >= (today + 1) * MsPerDay;
    }
  }

  /** Choosing today one millisecond after midnight is reported as a past date. */
  lemma TodayReportedPast(today: int)
    ensures PastAtInstant(today, today, 1)
  {
    PastAtInstantIff(today, today, 1);
  }

  /** The 90-day check is unaffected by the time of day: it agrees with the day-level rule. */
  lemma TooFarAtInstantAgrees(day: int, today: int, msOfDay: int)
    requires 0 <= msOfDay < MsPerDay
    ensures TooFarAtInstant(day, today, msOfDay) <==> today + MaxDaysAhead < day
  {
    if day > today + MaxDaysAhead {
      assert day * MsPerDay >= (today + MaxDaysAhead + 1) * MsPerDay;
    } else {
      assert day * MsPerDay <= (today + MaxDaysAhead) * MsPerDay;
    }
  }
}
