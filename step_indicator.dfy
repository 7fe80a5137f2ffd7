/**
 * The step indicator: five labelled badges, each numbered, active when it
 * is the current step and completed when it comes before it.
 */
module StepIndicator {

  const StepLabels: seq<string> :=
    ["Personal Info", "Job Details", "Skills", "Emergency Contact", "Review & Submit"]

  datatype Badge = Badge(caption: string, stepNum: int, isActive: bool, isCompleted: bool)

  /** What a badge shows: a check mark when completed, its number otherwise. */
  datatype Glyph = CheckMark | Number(n: int)

  /** The badges for the current step, in label order. */
  function Badges(currentStep: int): (badges: seq<Badge>)
    ensures |badges| == |StepLabels| == 5
    ensures forall k :: 0 <= k < 5 ==>
              && badges[k].caption == StepLabels[k]
              && badges[k].stepNum == k + 1
              && (badges[k].isActive <==> k + 1 == currentStep)
              && (badges[k].isCompleted <==> k + 1 < currentStep)
    ensures forall k :: 0 <= k < 5 ==> !(badges[k].isActive && badges[k].isCompleted)
  {
    seq(|StepLabels|, k requires 0 <= k < |StepLabels| =>
      Badge(StepLabels[k], k + 1, k + 1 == currentStep, k + 1 < currentStep))
  }

  function GlyphOf(badge: Badge): (g: Glyph)
    ensures g == CheckMark <==> badge.isCompleted
    ensures !badge.isCompleted ==> g == Number(badge.stepNum)
  {
    if badge.isCompleted then CheckMark else Number(badge.stepNum)
  }

  function ActiveCount(badges: seq<Badge>): nat {
    if |badges| == 0 then 0 else (if badges[0].isActive then 1 else 0) + ActiveCount(badges[1..])
  }

  function CompletedCount(badges: seq<Badge>): nat {
    if |badges| == 0 then 0 else (if badges[0].isCompleted then 1 else 0) + CompletedCount(badges[1..])
  }

  /** Badges numbered consecutively from `first`, flagged against `current` as the indicator flags them. */
  predicate NumberedFrom(badges: seq<Badge>, first: int, current: int) {
    forall k :: 0 <= k < |badges| ==>
      && badges[k].stepNum == first + k
      && (badges[k].isActive <==> badges[k].stepNum == current)
      && (badges[k].isCompleted <==> badges[k].stepNum < current)
  }

  function Clamp(x: int, lo: int, hi: int): int {
    if x < lo then lo else if x > hi then hi else x
  }

  /** Among consecutively numbered badges, one is active if the current step is in range, and the earlier ones are completed. */
  lemma {:induction false} CountsFrom(badges: seq<Badge>, first: int, current: int)
    requires NumberedFrom(badges, first, current)
    ensures ActiveCount(badges) == if first <= current < first + |badges| then 1 else 0
    ensures CompletedCount(badges) == Clamp(current - first, 0, |badges|)
  {
    if |badges| != 0 {
      assert NumberedFrom(badges[1..], first + 1, current) by {
        forall k | 0 <= k < |badges[1..]|
          ensures badges[1..][k].stepNum == first + 1 + k
        {
          assert badges[1..][k] == badges[k + 1];
        }
      }
      CountsFrom(badges[1..], first + 1, current);
    }
  }

  /** For any current step, as many badges are active and completed as the step's position allows. */
  lemma BadgeCounts(currentStep: int)
    ensures ActiveCount(Badges(currentStep)) == if 1 <= currentStep <= 5 then 1 else 0
    ensures CompletedCount(Badges(currentStep)) == Clamp(currentStep - 1, 0, 5)
  {
    CountsFrom(Badges(currentStep), 1, currentStep);
  }

  /** On a wizard step exactly one badge is active and the step's predecessors are completed. */
  lemma OneActiveOnWizardStep(currentStep: int)
    requires 1 <= currentStep <= 5
    ensures ActiveCount(Badges(currentStep)) == 1
    ensures CompletedCount(Badges(currentStep)) == currentStep - 1
  {
    BadgeCounts(currentStep);
  }
}
