/**
 * The managers directory that the job step and the manager picker read.
 * The directory itself is data outside this model and is passed in.
 */
module Managers {
  import opened Common

  datatype Manager = Manager(id: string, name: string, department: string)

  /** `m.department === department`; an undefined department matches no manager. */
  predicate WorksIn(m: Manager, department: Option<string>) {
    department == Some(m.department)
  }

  /**
   * `managers.filter((m) => m.department === department)`: the managers of
   * the department, in directory order, each as often as it appears there.
   */
  function InDepartment(managers: seq<Manager>, department: Option<string>): (r: seq<Manager>)
    ensures forall m :: m in r <==> m in managers && WorksIn(m, department)
    ensures IsSubsequence(r, managers)
    ensures forall m :: multiset(r)[m] == if WorksIn(m, department) then multiset(managers)[m] else 0
  {
    var keep := (m: Manager) => WorksIn(m, department);
    FilterIsSubsequence(managers, keep);
    forall m ensures multiset(Filter(managers, keep))[m]
                     == if WorksIn(m, department) then multiset(managers)[m] else 0 {
      FilterCounts(managers, keep, m);
    }
    Filter(managers, keep)
  }

  /** Without a department the list is empty. */
  lemma NoDepartmentNoManagers(managers: seq<Manager>)
    ensures InDepartment(managers, None) == []
  {
  }
}
