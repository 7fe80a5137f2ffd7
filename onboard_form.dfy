/**
 * The wizard that drives the five steps: the current step, the record
 * accumulated from the steps submitted so far, moving forward and back,
 * and what is derived from that state (the employee's age, the
 * unsaved-changes warning, which screen is shown and what it is given).
 */
module OnboardForm {
  import opened Common
  import opened Calendar
  import Step4Emergency

  const TotalSteps: int := 5

  /** `{ ...base, ...data }`: every key of both, the submitted data winning where both have it. */
  function Merge(base: map<string, Json>, data: map<string, Json>): (merged: map<string, Json>)
    ensures merged.Keys == base.Keys + data.Keys
    ensures forall k :: k in data ==> merged[k] == data[k]
    ensures forall k :: k in base && k !in data ==> merged[k] == base[k]
  {
    base + data
  }

  /** Submitting the same data twice changes nothing the second time. */
  lemma MergeIdempotent(base: map<string, Json>, data: map<string, Json>)
    ensures Merge(Merge(base, data), data) == Merge(base, data)
  {
  }

  /** Two submissions in a row amount to one submission of their merge. */
  lemma MergeSequential(base: map<string, Json>, first: map<string, Json>, second: map<string, Json>)
    ensures Merge(Merge(base, first), second) == Merge(base, Merge(first, second))
  {
  }

  /** The wizard's state. */
  class Wizard {
    var step: int
    var formData: map<string, Json>

    /** The wizard starts on step 1 with nothing collected. */
    constructor()
      ensures step == 1 && formData == map[]
    {
      step := 1;
      formData := map[];
    }

    /** A step's screen submits its data: it is merged into the record and the wizard moves one step on. */
    method NextStep(data: map<string, Json>)
      modifies this
      ensures formData == Merge(old(formData), data)
      ensures step == old(step) + 1
    {
      formData := Merge(formData, data);
      step := step + 1;
    }

    /** Back: one step back, the record untouched. */
    method PrevStep()
      modifies this
      ensures step == old(step) - 1
      ensures formData == old(formData)
    {
      step := step - 1;
    }
  }

  /**
   * `employeeAge`: 0 without a (truthy) date of birth, otherwise the whole
   * years from the parsed date to today. `parseDate` is the library's date
   * conversion; `None` is an invalid date, whose age is not a number
   * (here `None` too).
   */
  function EmployeeAge(formData: map<string, Json>, today: CivilDate,
                       parseDate: Json -> Option<CivilDate>): (age: Option<int>)
    ensures !TruthyAt(formData, "dateOfBirth") ==> age == Some(0)
    ensures age.None? ==> TruthyAt(formData, "dateOfBirth") && parseDate(formData["dateOfBirth"]).None?
    ensures TruthyAt(formData, "dateOfBirth") && parseDate(formData["dateOfBirth"]).Some? ==>
              age == Some(DifferenceInYears(today, parseDate(formData["dateOfBirth"]).value))
  {
    if !TruthyAt(formData, "dateOfBirth") then Some(0)
    else
      match parseDate(formData["dateOfBirth"])
      case None => None
      case Some(born) => Some(DifferenceInYears(today, born))
  }

  /** Without a date of birth the age is 0, so the emergency screen shows the guardian fields. */
  lemma GuardianShownWithoutBirthDate(formData: map<string, Json>, today: CivilDate,
                                      parseDate: Json -> Option<CivilDate>)
    requires !TruthyAt(formData, "dateOfBirth")
    ensures Step4Emergency.ShowGuardian(EmployeeAge(formData, today, parseDate))
  {
  }

  /** With a parsed date of birth the guardian fields are shown exactly until the 21st birthday. */
  lemma GuardianShownUntil21(formData: map<string, Json>, today: CivilDate,
                             parseDate: Json -> Option<CivilDate>, born: CivilDate)
    requires TruthyAt(formData, "dateOfBirth") && parseDate(formData["dateOfBirth"]) == Some(born)
    ensures Step4Emergency.ShowGuardian(EmployeeAge(formData, today, parseDate))
            <==> !OnOrBefore(AddYears(born, 21), today)
  {
    AtLeastYearsIff(today, born, 21);
  }

  /** The unsaved-changes warning is on before the last step. */
  predicate WarningEnabled(step: int) {
    step < TotalSteps
  }

  datatype Screen = PersonalScreen | JobScreen | SkillsScreen | EmergencyScreen | ReviewScreen

  const ScreenOrder: seq<Screen> := [PersonalScreen, JobScreen, SkillsScreen, EmergencyScreen, ReviewScreen]

  /** The screens rendered for a step: one conditional render per screen, in order. */
  function RenderedScreens(step: int): (screens: seq<Screen>)
    ensures 1 <= step <= TotalSteps ==> screens == [ScreenOrder[step - 1]]
    ensures !(1 <= step <= TotalSteps) ==> screens == []
  {
    (if step == 1 then [PersonalScreen] else [])
    + (if step == 2 then [JobScreen] else [])
    + (if step == 3 then [SkillsScreen] else [])
    + (if step == 4 then [EmergencyScreen] else [])
    + (if step == 5 then [ReviewScreen] else [])
  }

  /** On the wizard's steps the warning is on exactly when the review screen is not shown. */
  lemma WarningUntilReview(step: int)
    requires 1 <= step <= TotalSteps
    ensures WarningEnabled(step) <==> RenderedScreens(step) != [ReviewScreen]
  {
  }

  /** The department the skills screen is given: the record's `department`, undefined when absent. */
  function SkillsScreenDepartment(formData: map<string, Json>): (department: Option<string>)
    ensures department.Some? ==> "department" in formData && formData["department"] == JStr(department.value)
    ensures "department" !in formData ==> department.None?
  {
    StringAt(formData, "department")
  }

  /** A department submitted on the job screen reaches the skills screen, whatever was there before. */
  lemma SubmittedDepartmentReachesSkills(formData: map<string, Json>, data: map<string, Json>, department: string)
    requires "department" in data && data["department"] == JStr(department)
    ensures SkillsScreenDepartment(Merge(formData, data)) == Some(department)
  {
  }
}
