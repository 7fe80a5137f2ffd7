/**
 * The review step's schema: `confirm` must be the boolean `true`.
 */
module Step5ReviewSchema {
  import opened Common

  const ConfirmMessage: string := "You must confirm that all information is correct"
  const RequiredMessage: string := "Required"

  /** The validation library's type name of a present value, as its type-mismatch message uses it. */
  function TypeName(v: Json): string {
    match v
    case JNull => "null"
    case JBool(_) => "boolean"
    case JNum(_) => "number"
    case JStr(_) => "string"
    case JArr(_) => "array"
    case JObj(_) => "object"
  }

  /**
   * The issues for the `confirm` field (`None` when it is undefined): a
   * non-boolean fails the type check, `false` fails the refinement.
   */
  function Step5Issues(confirm: Option<Json>): (issues: seq<Issue>)
    ensures Accepts(issues) <==> confirm == Some(JBool(true))
    ensures |issues| <= 1
    ensures confirm == Some(JBool(false)) ==> issues == [Issue(["confirm"], ConfirmMessage)]
  {
    match confirm
    case None => [Issue(["confirm"], RequiredMessage)]
    case Some(JBool(b)) => When(!b, Issue(["confirm"], ConfirmMessage))
    case Some(v) => [Issue(["confirm"], "Expected boolean, received " + TypeName(v))]
  }

  /** A non-boolean value is rejected by the type check, not by the refinement. */
  lemma NonBooleanRejected(v: Json)
    requires !v.JBool?
    ensures !Accepts(Step5Issues(Some(v)))
    ensures Issue(["confirm"], ConfirmMessage) !in Step5Issues(Some(v))
  {
    var m := "Expected boolean, received " + TypeName(v);
    assert |m| != |ConfirmMessage|;
  }
}

/** The review screen's form state. */
module Step5Review {
  import opened Common
  import Step5ReviewSchema

  /** The form starts with the box unticked. */
  const DefaultConfirm: Json := JBool(false)

  /** Submitting without ticking the box fails validation with the confirmation message. */
  lemma SubmitWithoutTickingFails()
    ensures Step5ReviewSchema.Step5Issues(Some(DefaultConfirm))
            == [Issue(["confirm"], Step5ReviewSchema.ConfirmMessage)]
  {
  }
}
