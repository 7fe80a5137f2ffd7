/**
 * The job-details screen: its default values, the salary field's label,
 * the start-date input's bounds, and the manager list that follows the
 * chosen department (resetting the chosen manager whenever the department
 * effect runs).
 */
module Step2Job {
  import opened Common
  import opened Managers
  import opened SalaryUtils
  import opened Step2JobSchema

  /** The fallback values, used only when the screen is given no default values at all. */
  const FallbackValues: map<string, Json> := map[
    "department" := JStr("Engineering"),
    "positionTitle" := JStr(""),
    "jobType" := JStr("Full-time"),
    "managerId" := JStr("")]

  /** `defaultValues || {…}`: any record, even an empty one, is truthy and wins over the fallback. */
  function InitialValues(defaults: Option<map<string, Json>>): (values: map<string, Json>)
    ensures defaults.None? ==> StringAt(values, "department") == Some("Engineering")
                               && StringAt(values, "jobType") == Some("Full-time")
                               && StringAt(values, "managerId") == Some("")
                               && "startDate" !in values && "salary" !in values
    ensures defaults.Some? ==> values == defaults.value
  {
    if defaults.Some? then defaults.value else FallbackValues
  }

  /** The salary input's label, computed on the screen from the watched job type. */
  function SalaryFieldLabel(jobType: Option<string>): (caption: string)
    ensures caption == HourlyRateLabel <==> jobType == Some("Contract")
  {
    if jobType == Some("Contract") then "Hourly Rate ($)" else "Annual Salary ($)"
  }

  /** The screen's label and the salary helper's label agree for every job type. */
  lemma SalaryFieldLabelAgrees(jobType: string)
    ensures SalaryFieldLabel(Some(jobType)) == GetSalaryLabel(jobType)
  {
  }

  /** The earliest and latest day the start-date input offers: today and today plus 90 days. */
  function DateInputBounds(today: int): (bounds: (int, int))
    ensures bounds.1 - bounds.0 == MaxDaysAhead
  {
    (today, today + 90)
  }

  /**
   * With valid enumerations and a parsed date, the schema raises neither
   * the past nor the 90-day issue exactly when the date lies within the
   * input's bounds (both inclusive).
   */
  lemma DateInputMatchesSchema(input: JobInput, today: int)
    requires EnumsValid(input) && input.startDate.Some?
    ensures var (lo, hi) := DateInputBounds(today);
            Issue(["startDate"], PastMessage) !in Step2Issues(input, today)
            && Issue(["startDate"], TooFarMessage) !in Step2Issues(input, today)
            <==> lo <= input.startDate.value <= hi
  {
    PastIff(input, today);
    TooFarIff(input, today);
  }

  datatype SelectOption = SelectOption(value: string, text: string)

  /** The manager select's options: one per listed manager, its id as value and its name as text. */
  function ManagerOptions(managers: seq<Manager>): (options: seq<SelectOption>)
    ensures |options| == |managers|
    ensures forall k :: 0 <= k < |managers| ==> options[k] == SelectOption(managers[k].id, managers[k].name)
  {
    seq(|managers|, k requires 0 <= k < |managers| => SelectOption(managers[k].id, managers[k].name))
  }

  /** The screen's state: the watched department and job type, the chosen manager and the manager list. */
  class JobForm {
    const directory: seq<Manager>
    var department: Option<string>
    var jobType: Option<string>
    var managerId: string
    var filteredManagers: seq<Manager>

    /** The manager list is the directory's managers of the watched department. */
    predicate Valid()
      reads this
    {
      filteredManagers == InDepartment(directory, department)
    }

    /**
     * The screen once mounted: fields from the initial values, then the
     * department effect has run once, so the manager id is empty even when
     * the initial values held one.
     */
    constructor(directory: seq<Manager>, defaults: Option<map<string, Json>>)
      ensures this.directory == directory
      ensures department == StringAt(InitialValues(defaults), "department")
      ensures jobType == StringAt(InitialValues(defaults), "jobType")
      ensures managerId == ""
      ensures Valid()
    {
      var values := InitialValues(defaults);
      this.directory := directory;
      department := StringAt(values, "department");
      jobType := StringAt(values, "jobType");
      filteredManagers := InDepartment(directory, StringAt(values, "department"));
      managerId := "";
    }

    /** Choosing a department: when it differs from the watched one, the effect refreshes the list and clears the manager. */
    method SelectDepartment(d: Option<string>)
      requires Valid()
      modifies this
      ensures department == d && jobType == old(jobType)
      ensures d != old(department) ==> managerId == ""
      ensures d == old(department) ==> managerId == old(managerId) && filteredManagers == old(filteredManagers)
      ensures Valid()
    {
      if d != department {
        filteredManagers := InDepartment(directory, d);
        managerId := "";
      }
      department := d;
    }

    /** Choosing a manager from the select. */
    method SelectManager(id: string)
      modifies this
      ensures managerId == id
      ensures department == old(department) && jobType == old(jobType)
      ensures filteredManagers == old(filteredManagers)
    {
      managerId := id;
    }

    /** Choosing a job type; only the label depends on it. */
    method SelectJobType(t: string)
      modifies this
      ensures jobType == Some(t) && SalaryFieldLabel(jobType) == GetSalaryLabel(t)
      ensures department == old(department) && managerId == old(managerId)
      ensures filteredManagers == old(filteredManagers)
    {
      jobType := Some(t);
    }

    /** Every option offered belongs to a manager of the watched department. */
    function Options(): (options: seq<SelectOption>)
      reads this
      ensures Valid() ==> forall o :: o in options ==>
                exists m :: m in directory && WorksIn(m, department) && o == SelectOption(m.id, m.name)
    {
      var r := ManagerOptions(filteredManagers);
      assert forall k :: 0 <= k < |r| ==> filteredManagers[k] in filteredManagers;
      r
    }
  }

  /** After a department change the chosen manager is empty, which the schema rejects until one is chosen again. */
  lemma ResetManagerRejected(input: JobInput, today: int)
    requires input.managerId == ""
    ensures !Accepts(Step2Issues(input, today))
  {
    EmptyManagerRejected(input, today);
  }
}
