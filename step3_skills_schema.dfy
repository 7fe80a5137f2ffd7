/**
 * The skills step's schema: at least three primary skills, years of
 * experience per skill in [0, 50], a working-hours window whose start is
 * before its end (as strings), a remote percentage in [0, 100], an
 * optional manager approval and optional notes of at most 500 characters.
 */
module Step3SkillsSchema {
  import opened Common
  import opened Text
  import opened Phone

  const SkillsMessage: string := "Select at least 3 primary skills"
  const HoursMessage: string := "Start time must be before end time"
  const NotesMessage: string := "String must contain at most 500 character(s)"

  /** The validation library's default messages for numeric bounds. */
  const ExperienceMinMessage: string := "Number must be greater than or equal to 0"
  const ExperienceMaxMessage: string := "Number must be less than or equal to 50"
  const RemoteMinMessage: string := "Number must be greater than or equal to 0"
  const RemoteMaxMessage: string := "Number must be less than or equal to 100"

  const MinSkills: int := 3
  const MaxExperienceYears: real := 50.0
  const MaxRemotePercent: real := 100.0
  const MaxNotesLength: int := 500

  datatype WorkingHours = WorkingHours(start: string, end: string)

  /**
   * The step's record. `experience` lists the entries of the per-skill
   * record in key order, one entry per key.
   */
  datatype SkillsInput = SkillsInput(
    primarySkills: seq<string>,
    experience: seq<(string, real)>,
    workingHours: WorkingHours,
    remotePreference: real,
    managerApproved: Option<bool>,
    extraNotes: Option<string>)

  /** The per-skill bounds, entry by entry. */
  function ExperienceIssues(entries: seq<(string, real)>): (issues: seq<Issue>)
    ensures forall i :: i in issues ==> |i.path| == 2 && i.path[0] == "experience"
  {
    if |entries| == 0 then []
    else
      var (skill, years) := entries[0];
      When(years < 0.0, Issue(["experience", skill], ExperienceMinMessage))
      + When(years > MaxExperienceYears, Issue(["experience", skill], ExperienceMaxMessage))
      + ExperienceIssues(entries[1..])
  }

  predicate ExperienceInRange(entries: seq<(string, real)>) {
    forall k :: 0 <= k < |entries| ==> 0.0 <= entries[k].1 <= MaxExperienceYears
  }

  /** No experience issue exactly when every value lies in [0, 50]; keys are not constrained. */
  lemma {:induction false} ExperienceIssuesIff(entries: seq<(string, real)>)
    ensures ExperienceIssues(entries) == [] <==> ExperienceInRange(entries)
  {
    if |entries| != 0 {
      ExperienceIssuesIff(entries[1..]);
      assert forall k :: 1 <= k < |entries| ==> entries[k] == entries[1..][k - 1];
    }
  }

  /**
   * Each bound is reported on `experience.<skill>` exactly when some entry
   * for that skill breaks it: below 0 gives the minimum message, above 50
   * the maximum message.
   */
  lemma ExperienceIssueFor(entries: seq<(string, real)>, skill: string)
    ensures Issue(["experience", skill], ExperienceMinMessage) in ExperienceIssues(entries)
            <==> exists k :: 0 <= k < |entries| && entries[k].0 == skill && entries[k].1 < 0.0
    ensures Issue(["experience", skill], ExperienceMaxMessage) in ExperienceIssues(entries)
            <==> exists k :: 0 <= k < |entries| && entries[k].0 == skill && entries[k].1 > MaxExperienceYears
  {
    ExperienceMinIssueFor(entries, skill);
    ExperienceMaxIssueFor(entries, skill);
  }

  lemma {:induction false} ExperienceMinIssueFor(entries: seq<(string, real)>, skill: string)
    ensures Issue(["experience", skill], ExperienceMinMessage) in ExperienceIssues(entries)
            <==> exists k :: 0 <= k < |entries| && entries[k].0 == skill && entries[k].1 < 0.0
  {
    if |entries| != 0 {
      var (first, years) := entries[0];
      var rest := entries[1..];
      ExperienceMinIssueFor(rest, skill);
      assert ExperienceMinMessage[15] != ExperienceMaxMessage[15];
      assert ExperienceIssues(entries)
             == When(years < 0.0, Issue(["experience", first], ExperienceMinMessage))
                + When(years > MaxExperienceYears, Issue(["experience", first], ExperienceMaxMessage))
                + ExperienceIssues(rest);
      if exists k :: 0 <= k < |rest| && rest[k].0 == skill && rest[k].1 < 0.0 {
        var k :| 0 <= k < |rest| && rest[k].0 == skill && rest[k].1 < 0.0;
        assert entries[k + 1] == rest[k];
      }
      if exists k :: 0 <= k < |entries| && entries[k].0 == skill && entries[k].1 < 0.0 {
        var k :| 0 <= k < |entries| && entries[k].0 == skill && entries[k].1 < 0.0;
        if k > 0 {
          assert rest[k - 1] == entries[k];
        }
      }
    }
  }

  lemma {:induction false} ExperienceMaxIssueFor(entries: seq<(string, real)>, skill: string)
    ensures Issue(["experience", skill], ExperienceMaxMessage) in ExperienceIssues(entries)
            <==> exists k :: 0 <= k < |entries| && entries[k].0 == skill && entries[k].1 > MaxExperienceYears
  {
    if |entries| != 0 {
      var (first, years) := entries[0];
      var rest := entries[1..];
      ExperienceMaxIssueFor(rest, skill);
      assert ExperienceMinMessage[15] != ExperienceMaxMessage[15];
      assert ExperienceIssues(entries)
             == When(years < 0.0, Issue(["experience", first], ExperienceMinMessage))
                + When(years > MaxExperienceYears, Issue(["experience", first], ExperienceMaxMessage))
                + ExperienceIssues(rest);
      if exists k :: 0 <= k < |rest| && rest[k].0 == skill && rest[k].1 > MaxExperienceYears {
        var k :| 0 <= k < |rest| && rest[k].0 == skill && rest[k].1 > MaxExperienceYears;
        assert entries[k + 1] == rest[k];
      }
      if exists k :: 0 <= k < |entries| && entries[k].0 == skill && entries[k].1 > MaxExperienceYears {
        var k :| 0 <= k < |entries| && entries[k].0 == skill && entries[k].1 > MaxExperienceYears;
        if k > 0 {
          assert rest[k - 1] == entries[k];
        }
      }
    }
  }

  /** The working-hours refinement: `start < end` as JavaScript compares strings. */
  predicate HoursOrdered(hours: WorkingHours) {
    LexLess(hours.start, hours.end)
  }

  /** All issues of the step, in field order. */
  function Step3Issues(input: SkillsInput): (issues: seq<Issue>)
    ensures Accepts(issues) <==>
      && |input.primarySkills| >= MinSkills
      && ExperienceInRange(input.experience)
      && HoursOrdered(input.workingHours)
      && 0.0 <= input.remotePreference <= MaxRemotePercent
      && (input.extraNotes.Some? ==> |input.extraNotes.value| <= MaxNotesLength)
  {
    ExperienceIssuesIff(input.experience);
    When(|input.primarySkills| < MinSkills, Issue(["primarySkills"], SkillsMessage))
    + ExperienceIssues(input.experience)
    + When(!HoursOrdered(input.workingHours), Issue(["workingHours"], HoursMessage))
    + When(input.remotePreference < 0.0, Issue(["remotePreference"], RemoteMinMessage))
    + When(input.remotePreference > MaxRemotePercent, Issue(["remotePreference"], RemoteMaxMessage))
    + When(input.extraNotes.Some? && |input.extraNotes.value| > MaxNotesLength,
           Issue(["extraNotes"], NotesMessage))
  }

  /** The schema never looks at the manager approval, whatever the remote percentage. */
  lemma ApprovalIgnored(input: SkillsInput, approval: Option<bool>)
    ensures Step3Issues(input.(managerApproved := approval)) == Step3Issues(input)
  {
  }

  /** Fewer than three skills are always rejected. */
  lemma TooFewSkillsRejected(input: SkillsInput)
    requires |input.primarySkills| < 3
    ensures Issue(["primarySkills"], SkillsMessage) in Step3Issues(input)
  {
  }

  /** A zero-padded 24-hour "HH:mm" time. */
  predicate IsClockTime(s: string) {
    && |s| == 5 && IsDigit(s[0]) && IsDigit(s[1]) && s[2] == ':' && IsDigit(s[3]) && IsDigit(s[4])
    && DigitValue(s[0]) * 10 + DigitValue(s[1]) < 24
    && DigitValue(s[3]) * 10 + DigitValue(s[4]) < 60
  }

  function DigitValue(c: char): int
    requires IsDigit(c)
  {
    c as int - '0' as int
  }

  /** Minutes after midnight of an "HH:mm" time. */
  function MinuteOfDay(s: string): (m: int)
    requires IsClockTime(s)
    ensures 0 <= m < 24 * 60
  {
    (DigitValue(s[0]) * 10 + DigitValue(s[1])) * 60 + DigitValue(s[3]) * 10 + DigitValue(s[4])
  }

  /** Comparing two digits as characters orders them as numbers. */
  lemma DigitOrder(a: char, b: char)
    requires IsDigit(a) && IsDigit(b)
    ensures a < b <==> DigitValue(a) < DigitValue(b)
    ensures a == b <==> DigitValue(a) == DigitValue(b)
  {
  }

  /** For zero-padded "HH:mm" times, string order is time order. */
  lemma {:induction false} ClockStringOrder(a: string, b: string)
    requires IsClockTime(a) && IsClockTime(b)
    ensures HoursOrdered(WorkingHours(a, b)) <==> MinuteOfDay(a) < MinuteOfDay(b)
  {
    DigitOrder(a[0], b[0]);
    DigitOrder(a[1], b[1]);
    DigitOrder(a[3], b[3]);
    DigitOrder(a[4], b[4]);
    assert LexLess(a, b) <==>
      if a[0] != b[0] then a[0] < b[0] else LexLess(a[1..], b[1..]);
    assert LexLess(a[1..], b[1..]) <==>
      if a[1] != b[1] then a[1] < b[1] else LexLess(a[2..], b[2..]);
    assert LexLess(a[2..], b[2..]) <==> LexLess(a[3..], b[3..]);
    assert LexLess(a[3..], b[3..]) <==>
      if a[3] != b[3] then a[3] < b[3] else LexLess(a[4..], b[4..]);
    assert LexLess(a[4..], b[4..]) <==> a[4] < b[4] by {
      assert a[4..][1..] == [] && b[4..][1..] == [];
    }
  }

  /** The form's default hours, "09:00" to "17:00", satisfy the ordering rule. */
  lemma DefaultHoursOrdered()
    ensures HoursOrdered(WorkingHours("09:00", "17:00"))
  {
    assert IsClockTime("09:00") && IsClockTime("17:00");
    ClockStringOrder("09:00", "17:00");
  }

  /** Without zero padding the string rule disagrees with time order: "9:00" is not before "17:00". */
  lemma UnpaddedHoursMisordered()
    ensures !HoursOrdered(WorkingHours("9:00", "17:00"))
  {
    assert "9:00"[0] > "17:00"[0];
  }
}
