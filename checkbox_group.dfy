/**
 * The checkbox group's change handler and its `checked` rule. The field
 * value is a list of selected options, or undefined (`None`) before the
 * first selection.
 */
module FormCheckboxGroup {
  import opened Common

  /** `field.value?.includes(option) || false`. */
  predicate Checked(current: Option<seq<string>>, option: string) {
    current.Some? && option in current.value
  }

  /**
   * `handleChange`: an option that is selected is removed, with every
   * duplicate of it; any other option is appended at the end of the list,
   * an undefined list counting as empty.
   */
  function Toggle(current: Option<seq<string>>, value: string): (next: seq<string>)
    ensures Checked(current, value) ==> value !in next
    ensures !Checked(current, value) ==> next == (if current.Some? then current.value else []) + [value]
    ensures forall v :: v != value ==> (v in next <==> Checked(current, v))
  {
    if Checked(current, value) then
      Filter(current.value, (v: string) => v != value)
    else
      (if current.Some? then current.value else []) + [value]
  }

  /** An undefined list becomes the one-element list. */
  lemma ToggleUndefined(value: string)
    ensures Toggle(None, value) == [value]
  {
  }

  /** Toggling flips the option's `checked` state and leaves every other option's as it was. */
  lemma ToggleFlipsChecked(current: Option<seq<string>>, value: string, other: string)
    requires other != value
    ensures Checked(Some(Toggle(current, value)), value) == !Checked(current, value)
    ensures Checked(Some(Toggle(current, value)), other) == Checked(current, other)
  {
  }

  /** Removal keeps the others in their order, each as often as before; appending keeps the list as a prefix. */
  lemma {:induction false} ToggleKeepsOthers(current: seq<string>, value: string)
    ensures IsSubsequence(Toggle(Some(current), value), current + [value])
    ensures forall v :: v != value ==> multiset(Toggle(Some(current), value))[v] == multiset(current)[v]
  {
    var keep := (v: string) => v != value;
    if value in current {
      FilterIsSubsequence(current, keep);
      SubsequenceExtend(Filter(current, keep), current, [value]);
      forall v | v != value ensures multiset(Toggle(Some(current), value))[v] == multiset(current)[v] {
        FilterCounts(current, keep, v);
      }
    } else {
      SubsequenceReflexive(current + [value]);
    }
  }

  /** Toggling an option that is not selected twice gives the original list back. */
  lemma {:induction false} ToggleTwiceRestores(current: seq<string>, value: string)
    requires value !in current
    ensures Toggle(Some(Toggle(Some(current), value)), value) == current
  {
    var keep := (v: string) => v != value;
    FilterConcat(current, [value], keep);
    FilterKeepsAll(current, keep);
    assert Filter([value], keep) == [];
  }
}
