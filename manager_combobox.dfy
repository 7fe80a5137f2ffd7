/**
 * The manager picker: the managers of the chosen department, narrowed by
 * a case-insensitive search on the name, and the manager whose id is the
 * field's value.
 */
module ManagerCombobox {
  import opened Common
  import opened Text
  import opened Managers

  /** The search test: the lower-cased name contains the lower-cased query. */
  predicate NameMatches(m: Manager, query: string) {
    Includes(ToLower(m.name), ToLower(query))
  }

  /**
   * `filtered`: the department list itself for an empty query, otherwise
   * the managers of that list whose name matches, in list order.
   */
  function Filtered(list: seq<Manager>, query: string): (r: seq<Manager>)
    ensures query == "" ==> r == list
    ensures forall m :: m in r <==> m in list && NameMatches(m, query)
    ensures IsSubsequence(r, list)
    ensures forall m :: multiset(r)[m] == if NameMatches(m, query) then multiset(list)[m] else 0
  {
    if query == "" then
      assert ToLower(query) == "";
      forall m ensures NameMatches(m, query) {
        IncludesEmpty(ToLower(m.name));
      }
      SubsequenceReflexive(list);
      list
    else
      var keep := (m: Manager) => NameMatches(m, query);
      FilterIsSubsequence(list, keep);
      forall m ensures multiset(Filter(list, keep))[m] == if keep(m) then multiset(list)[m] else 0 {
        FilterCounts(list, keep, m);
      }
      Filter(list, keep)
  }

  /** Short-cutting the empty query changes nothing: filtering with it would keep every manager. */
  lemma EmptyQueryKeepsAll(list: seq<Manager>)
    ensures Filter(list, (m: Manager) => NameMatches(m, "")) == Filtered(list, "")
  {
    assert ToLower("") == "";
    forall m | m in list ensures NameMatches(m, "") {
      IncludesEmpty(ToLower(m.name));
    }
    FilterKeepsAll(list, (m: Manager) => NameMatches(m, ""));
  }

  /** The search ignores the case of the query. */
  lemma QueryCaseIgnored(list: seq<Manager>, query: string)
    ensures Filtered(list, ToLower(query)) == Filtered(list, query)
  {
    if query != "" {
      ToLowerIdempotent(query);
      FilterEquivalent(list, (m: Manager) => NameMatches(m, ToLower(query)),
                       (m: Manager) => NameMatches(m, query));
    }
  }

  /**
   * `selectedManager`: the first manager of the whole directory, not of
   * the filtered list, whose id is `value`.
   */
  function SelectedManager(directory: seq<Manager>, value: string): (r: Option<Manager>)
    ensures r.Some? ==> r.value.id == value
                        && exists k :: 0 <= k < |directory| && directory[k] == r.value
                                       && forall j :: 0 <= j < k ==> directory[j].id != value
    ensures r.None? <==> forall m :: m in directory ==> m.id != value
  {
    var pick := (m: Manager) => m.id == value;
    FindIsFirst(directory, pick);
    Find(directory, pick)
  }

  /** The text shown in the search box: the selected manager's name when it is non-empty, else the query. */
  function InputText(selected: Option<Manager>, query: string): (text: string)
    ensures selected.Some? && selected.value.name != "" ==> text == selected.value.name
    ensures selected.None? || selected.value.name == "" ==> text == query
  {
    if selected.Some? && selected.value.name != "" then selected.value.name else query
  }

  /** The picker's state: the search query and the department list the effect keeps up to date. */
  class Combobox {
    const directory: seq<Manager>
    var department: Option<string>
    var query: string
    var filteredManagers: seq<Manager>

    /** The department list is the directory's managers of the current department. */
    predicate Valid()
      reads this
    {
      filteredManagers == InDepartment(directory, department)
    }

    /** The picker once mounted: an empty query, and the department effect has run once. */
    constructor(directory: seq<Manager>, department: Option<string>)
      ensures this.directory == directory && this.department == department
      ensures query == ""
      ensures Valid()
    {
      this.directory := directory;
      this.department := department;
      query := "";
      filteredManagers := InDepartment(directory, department);
    }

    /** A new department: the effect recomputes the department list when the value changed. The query stays. */
    method SetDepartment(d: Option<string>)
      requires Valid()
      modifies this
      ensures department == d && query == old(query)
      ensures Valid()
    {
      if d != department {
        filteredManagers := InDepartment(directory, d);
      }
      department := d;
    }

    /** Typing in the search box. */
    method SetQuery(q: string)
      modifies this
      ensures query == q
      ensures department == old(department) && filteredManagers == old(filteredManagers)
    {
      query := q;
    }

    /** The managers listed: the department's managers that match the query. */
    function Shown(): (r: seq<Manager>)
      reads this
      ensures Valid() ==> forall m :: m in r <==> m in directory && WorksIn(m, department) && NameMatches(m, query)
      ensures Valid() ==> IsSubsequence(r, filteredManagers)
      ensures Valid() ==> forall m :: multiset(r)[m] ==
                                      if WorksIn(m, department) && NameMatches(m, query)
                                      then multiset(directory)[m] else 0
    {
      Filtered(filteredManagers, query)
    }

    /** The list is rendered only when something is shown. */
    predicate ListVisible()
      reads this
    {
      |Shown()| > 0
    }

    /** The list appears exactly when some manager of the department matches the query. */
    lemma ListVisibleIff()
      requires Valid()
      ensures ListVisible() <==> exists m :: m in directory && WorksIn(m, department) && NameMatches(m, query)
    {
      if ListVisible() {
        assert Shown()[0] in Shown();
      }
    }
  }
}
