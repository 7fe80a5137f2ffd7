/**
 * The emergency-contact step's schema: contact name, relationship and
 * phone number are required; an optional guardian phone must match the
 * phone pattern whenever it is a string; guardian name and phone must be
 * both given or both left out.
 */
module Step4EmergencySchema {
  import opened Common
  import opened Phone

  const ContactNameMessage: string := "Contact name is required"
  const RelationshipMessage: string := "Relationship is required"
  const PhoneMessage: string := "Invalid phone number format (+1-123-456-7890)"
  const GuardianPhoneMessage: string := "Invalid phone number format"
  const PairingMessage: string := "Both Guardian Name and Phone must be provided if age < 21"

  /** The step's record; `None` is an undefined optional field. */
  datatype EmergencyInput = EmergencyInput(
    contactName: string,
    relationship: string,
    phoneNumber: string,
    guardianName: Option<string>,
    guardianPhone: Option<string>)

  /** Truthiness of an optional string: present and non-empty. */
  predicate Given(field: Option<string>) {
    field.Some? && field.value != ""
  }

  /** The object refinement: a guardian name without a phone, or a phone without a name, fails. */
  predicate GuardianPaired(name: Option<string>, phone: Option<string>) {
    if Given(name) && !Given(phone) then false
    else if !Given(name) && Given(phone) then false
    else true
  }

  /** All issues of the step, fields first, then the pairing refinement on `guardianName`. */
  function Step4Issues(input: EmergencyInput): (issues: seq<Issue>)
    ensures Accepts(issues) <==>
      && input.contactName != ""
      && input.relationship != ""
      && IsPhoneNumber(input.phoneNumber)
      && (input.guardianPhone.Some? ==> IsPhoneNumber(input.guardianPhone.value))
      && (Given(input.guardianName) <==> Given(input.guardianPhone))
  {
    When(|input.contactName| < 1, Issue(["contactName"], ContactNameMessage))
    + When(|input.relationship| < 1, Issue(["relationship"], RelationshipMessage))
    + When(!IsPhoneNumber(input.phoneNumber), Issue(["phoneNumber"], PhoneMessage))
    + When(input.guardianPhone.Some? && !IsPhoneNumber(input.guardianPhone.value),
           Issue(["guardianPhone"], GuardianPhoneMessage))
    + When(!GuardianPaired(input.guardianName, input.guardianPhone),
           Issue(["guardianName"], PairingMessage))
  }

  /** The pairing rule fails exactly when one of name and phone is given and the other is not. */
  lemma PairingIssueIff(input: EmergencyInput)
    ensures Issue(["guardianName"], PairingMessage) in Step4Issues(input)
            <==> Given(input.guardianName) != Given(input.guardianPhone)
  {
  }

  /** Both guardian fields left empty, or both undefined, pass the pairing rule. */
  lemma BothAbsentPaired()
    ensures GuardianPaired(None, None)
    ensures GuardianPaired(Some(""), Some(""))
    ensures GuardianPaired(None, Some(""))
  {
  }

  /** An empty guardian phone string is still checked against the pattern, and fails it. */
  lemma EmptyGuardianPhoneRejected(input: EmergencyInput)
    requires input.guardianPhone == Some("")
    ensures Issue(["guardianPhone"], GuardianPhoneMessage) in Step4Issues(input)
    ensures !Accepts(Step4Issues(input))
  {
  }

  /** The schema has no notion of age: accepting a record does not depend on it. */
  lemma NoAgeInSchema(input: EmergencyInput)
    requires input.guardianName.None? && input.guardianPhone.None?
    requires input.contactName != "" && input.relationship != "" && IsPhoneNumber(input.phoneNumber)
    ensures Accepts(Step4Issues(input))
  {
  }
}

/** The emergency-contact screen's display rule for the guardian fields. */
module Step4Emergency {
  import opened Common

  /**
   * The guardian inputs are shown when the employee's age is below 21.
   * `None` stands for an age that is not a number, for which the
   * comparison is false.
   */
  predicate ShowGuardian(employeeAge: Option<int>) {
    employeeAge.Some? && employeeAge.value < 21
  }
}
