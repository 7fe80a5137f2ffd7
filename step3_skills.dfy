/**
 * The skills screen: how the watched skill selection is normalised, which
 * skills a department offers, which inputs are rendered, the default
 * values, and the effect that keeps the manager approval in step with the
 * remote-work percentage.
 */
module Step3Skills {
  import opened Common
  import opened Step3SkillsSchema

  /** The watched `primarySkills` value: a list, a single string, or anything else (undefined, `false`). */
  datatype WatchedSkills = SkillList(items: seq<string>) | SkillText(text: string) | NoSkills

  /** A list stays as it is, a single string becomes a one-element list, anything else the empty list. */
  function NormalizeSkills(raw: WatchedSkills): (skills: seq<string>)
    ensures raw.SkillList? ==> skills == raw.items
    ensures raw.SkillText? ==> skills == [raw.text]
    ensures raw.NoSkills? ==> skills == []
  {
    match raw
    case SkillList(items) => items
    case SkillText(text) => [text]
    case NoSkills => []
  }

  /** Normalising is idempotent: a normalised selection is already a list. */
  lemma NormalizeIdempotent(raw: WatchedSkills)
    ensures NormalizeSkills(SkillList(NormalizeSkills(raw))) == NormalizeSkills(raw)
  {
  }

  /** A skill's checkbox is ticked exactly when the normalised selection holds it. */
  predicate SkillChecked(raw: WatchedSkills, skill: string) {
    skill in NormalizeSkills(raw)
  }

  /** A single selected string ticks exactly its own checkbox. */
  lemma SingleStringChecksItself(text: string, skill: string)
    ensures SkillChecked(SkillText(text), skill) <==> skill == text
  {
  }

  /** The property key a department is looked up under; an undefined department becomes the key "undefined". */
  function DepartmentKey(department: Option<string>): string {
    if department.Some? then department.value else "undefined"
  }

  /** `skillsByDepartment[department] || []`: the department's skills, or none for an unknown department. */
  function AvailableSkills(table: map<string, seq<string>>, department: Option<string>): (skills: seq<string>)
    ensures DepartmentKey(department) !in table ==> skills == []
    ensures DepartmentKey(department) in table ==> skills == table[DepartmentKey(department)]
  {
    if DepartmentKey(department) in table then table[DepartmentKey(department)] else []
  }

  /** An unknown department offers no skills, so the schema's three-skill rule cannot be met from the checkboxes. */
  lemma UnknownDepartmentNoSkills(table: map<string, seq<string>>, department: string)
    requires department !in table
    ensures AvailableSkills(table, Some(department)) == []
  {
  }

  /** The experience section is rendered only when at least one skill is selected. */
  predicate ExperienceSectionShown(skills: seq<string>) {
    |skills| > 0
  }

  /** The experience inputs: one per selected skill, registered under `experience.<skill>`. */
  function ExperienceFieldNames(skills: seq<string>): (names: seq<string>)
    ensures |names| == |skills|
    ensures forall k :: 0 <= k < |skills| ==> names[k] == "experience." + skills[k]
  {
    seq(|skills|, k requires 0 <= k < |skills| => "experience." + skills[k])
  }

  /** Two inputs share a field name exactly when the same skill is selected twice. */
  lemma FieldNamesDistinct(skills: seq<string>, i: int, j: int)
    requires 0 <= i < |skills| && 0 <= j < |skills|
    ensures ExperienceFieldNames(skills)[i] == ExperienceFieldNames(skills)[j] <==> skills[i] == skills[j]
  {
    var names := ExperienceFieldNames(skills);
    var prefix := "experience.";
    if names[i] == names[j] {
      assert skills[i] == names[i][|prefix|..];
      assert skills[j] == names[j][|prefix|..];
    }
  }

  /**
   * The experience section appears exactly when it holds at least one
   * input: a single selected string shows it, an empty or missing
   * selection hides it.
   */
  lemma ExperienceSectionShownIff(raw: WatchedSkills)
    ensures ExperienceSectionShown(NormalizeSkills(raw)) <==> ExperienceFieldNames(NormalizeSkills(raw)) != []
    ensures raw.SkillText? ==> ExperienceSectionShown(NormalizeSkills(raw))
    ensures raw.NoSkills? ==> !ExperienceSectionShown(NormalizeSkills(raw))
  {
  }

  /** A skill has an experience input exactly when its checkbox is ticked. */
  lemma ExperienceInputIffChecked(raw: WatchedSkills, skill: string)
    ensures "experience." + skill in ExperienceFieldNames(NormalizeSkills(raw)) <==> SkillChecked(raw, skill)
  {
    var skills := NormalizeSkills(raw);
    var names := ExperienceFieldNames(skills);
    var prefix := "experience.";
    if prefix + skill in names {
      var k :| 0 <= k < |names| && names[k] == prefix + skill;
      assert skills[k] == names[k][|prefix|..] == skill;
    }
    if SkillChecked(raw, skill) {
      var k :| 0 <= k < |skills| && skills[k] == skill;
      assert names[k] == prefix + skill;
    }
  }

  /** The fallback values, used only when the screen is given no default values at all. */
  const FallbackInput: SkillsInput :=
    SkillsInput([], [], WorkingHours("09:00", "17:00"), 0.0, Some(false), Some(""))

  /** Of the fallback values only the skill selection fails the schema. */
  lemma FallbackNeedsSkills()
    ensures Step3Issues(FallbackInput) == [Issue(["primarySkills"], SkillsMessage)]
  {
    DefaultHoursOrdered();
  }

  /** The watched remote percentage is above 50; `None` is a non-number, for which the comparison is false. */
  predicate RemoteAbove50(remote: Option<real>) {
    remote.Some? && remote.value > 50.0
  }

  /**
   * The approval the effect writes back: above 50 % a ticked approval is
   * kept and anything else becomes `false`; otherwise it is forced to `false`.
   */
  function ApprovalAfterEffect(remote: Option<real>, approved: Option<bool>): (r: bool)
    ensures !RemoteAbove50(remote) ==> !r
    ensures RemoteAbove50(remote) ==> (r <==> approved == Some(true))
  {
    if RemoteAbove50(remote) then approved == Some(true) else false
  }

  /** The screen's watched state that the effect reads and writes. */
  class SkillsForm {
    var primarySkills: WatchedSkills
    var remotePreference: Option<real>
    var managerApproved: Option<bool>

    /** After the effect has run, the approval is a boolean and is only ticked above 50 %. */
    predicate Valid()
      reads this
    {
      managerApproved.Some? && (managerApproved.value ==> RemoteAbove50(remotePreference))
    }

    /** The screen once mounted: the initial values, then the approval effect has run once. */
    constructor(skills: WatchedSkills, remote: Option<real>, approved: Option<bool>)
      ensures primarySkills == skills && remotePreference == remote
      ensures managerApproved == Some(ApprovalAfterEffect(remote, approved))
      ensures Valid()
    {
      primarySkills := skills;
      remotePreference := remote;
      managerApproved := Some(ApprovalAfterEffect(remote, approved));
    }

    /** The approval checkbox is rendered only above 50 %. */
    predicate ApprovalVisible()
      reads this
    {
      RemoteAbove50(remotePreference)
    }

    /** Entering a remote percentage: when the value changed, the effect runs again. */
    method SetRemotePreference(remote: Option<real>)
      requires Valid()
      modifies this
      ensures remotePreference == remote && primarySkills == old(primarySkills)
      ensures remote != old(remotePreference) ==>
                managerApproved == Some(ApprovalAfterEffect(remote, old(managerApproved)))
      ensures remote == old(remotePreference) ==> managerApproved == old(managerApproved)
      ensures Valid()
    {
      if remote != remotePreference {
        managerApproved := Some(ApprovalAfterEffect(remote, managerApproved));
      }
      remotePreference := remote;
    }

    /** Ticking or clearing the approval, which is only possible while its checkbox is shown. */
    method SetManagerApproved(approved: bool)
      requires Valid() && ApprovalVisible()
      modifies this
      ensures managerApproved == Some(approved)
      ensures remotePreference == old(remotePreference) && primarySkills == old(primarySkills)
      ensures Valid()
    {
      managerApproved := Some(approved);
    }

    /** Changing the skill selection. */
    method SetPrimarySkills(skills: WatchedSkills)
      modifies this
      ensures primarySkills == skills
      ensures remotePreference == old(remotePreference) && managerApproved == old(managerApproved)
    {
      primarySkills := skills;
    }
  }
}
