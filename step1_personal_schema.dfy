/**
 * The personal-information step's schema: full name, email, phone number,
 * minimum age from the date of birth, and an optional profile picture.
 */
module Step1PersonalSchema {
  import opened Common
  import opened Text
  import opened Phone
  import opened Calendar

  const NameMessage: string := "Full Name must have at least 2 words"
  const EmailMessage: string := "Invalid email"
  const PhoneMessage: string := "Invalid phone number format (+1-123-456-7890)"
  const AgeMessage: string := "You must be at least 18 years old"
  const PictureMessage: string := "Profile picture must be JPG/PNG and max 2MB"

  const MinimumAge: int := 18
  const MaxPictureBytes: int := 2 * 1024 * 1024

  /**
   * The profile picture value: null or undefined, an object (with its
   * `type` and `size` properties when it has them), or any other value.
   */
  datatype Upload =
    | NoUpload
    | FileObject(fileType: Option<string>, size: Option<int>)
    | NonObject

  /**
   * The step's record. The date of birth is the result of parsing the
   * entered string (`None` for an invalid date).
   */
  datatype PersonalInput = PersonalInput(
    fullName: string,
    email: string,
    phoneNumber: string,
    dateOfBirth: Option<CivilDate>,
    profilePicture: Upload)

  /** The full-name refinement: the trimmed name split on " " has at least two pieces. */
  predicate HasTwoWords(name: string) {
    |Split(Trim(name), ' ')| >= 2
  }

  /** Two "words" means the trimmed name contains a space. */
  lemma {:induction false} HasTwoWordsIff(name: string)
    ensures HasTwoWords(name) <==> ' ' in Trim(name)
  {
    SplitCount(Trim(name), ' ');
    OccurrencesPositive(Trim(name), ' ');
  }

  /**
   * A name that passes the refinement is at least three characters long,
   * so the `min(2)` check never fails on its own.
   */
  lemma {:induction false} TwoWordsImpliesMinLength(name: string)
    ensures HasTwoWords(name) ==> |name| >= 3
  {
    HasTwoWordsIff(name);
    if HasTwoWords(name) {
      var t := Trim(name);
      var k :| 0 <= k < |t| && t[k] == ' ';
      assert IsWhitespace(' ');
      assert k != 0 && k != |t| - 1;
    }
  }

  /** A name without a space, once trimmed, is rejected: surrounding whitespace does not make a second word. */
  lemma {:induction false} SingleWordRejected(before: string, word: string, after: string)
    requires forall i :: 0 <= i < |before| ==> IsWhitespace(before[i])
    requires forall i :: 0 <= i < |after| ==> IsWhitespace(after[i])
    requires |word| > 0 && !IsWhitespace(word[0]) && !IsWhitespace(word[|word| - 1])
    requires ' ' !in word
    ensures !HasTwoWords(before + word + after)
  {
    TrimSurrounded(before, word, after);
    HasTwoWordsIff(before + word + after);
  }

  /** "John" is rejected. */
  lemma JohnRejected()
    ensures !HasTwoWords("John")
  {
    var john := "John";
    assert !IsWhitespace(john[0]) && !IsWhitespace(john[3]);
    assert forall k :: 0 <= k < 4 ==> john[k] != ' ';
    SingleWordRejected("", john, "");
    assert "" + john + "" == john;
  }

  /** The date of birth parses and the whole-year age today is at least 18. */
  predicate IsAdult(dateOfBirth: Option<CivilDate>, today: CivilDate) {
    dateOfBirth.Some? && DifferenceInYears(today, dateOfBirth.value) >= MinimumAge
  }

  /** The profile-picture refinement. */
  predicate PictureOk(picture: Upload) {
    match picture
    case NoUpload => true
    case FileObject(fileType, size) =>
      (fileType == Some("image/jpeg") || fileType == Some("image/png"))
      && size.Some? && size.value <= MaxPictureBytes
    case NonObject => false
  }

  function NameIssues(name: string): seq<Issue> {
    When(|name| < 2, Issue(["fullName"], NameMessage))
    + When(!HasTwoWords(name), Issue(["fullName"], NameMessage))
  }

  /**
   * The issues of the step, field by field in the schema's order. The email
   * check belongs to the validation library and is passed in as `isEmail`.
   */
  function Step1Issues(input: PersonalInput, today: CivilDate, isEmail: string -> bool): (issues: seq<Issue>)
    ensures Accepts(issues) <==>
      && HasTwoWords(input.fullName)
      && isEmail(input.email)
      && IsPhoneNumber(input.phoneNumber)
      && IsAdult(input.dateOfBirth, today)
      && PictureOk(input.profilePicture)
    ensures forall i :: i in issues ==>
      i.path in {["fullName"], ["email"], ["phoneNumber"], ["dateOfBirth"], ["profilePicture"]}
  {
    TwoWordsImpliesMinLength(input.fullName);
    var name := NameIssues(input.fullName);
    var email := When(!isEmail(input.email), Issue(["email"], EmailMessage));
    var phone := When(!IsPhoneNumber(input.phoneNumber), Issue(["phoneNumber"], PhoneMessage));
    var age := When(!IsAdult(input.dateOfBirth, today), Issue(["dateOfBirth"], AgeMessage));
    var picture := When(!PictureOk(input.profilePicture), Issue(["profilePicture"], PictureMessage));
    assert |name| == 0 <==> HasTwoWords(input.fullName);
    assert |name + email + phone + age + picture| == |name| + |email| + |phone| + |age| + |picture|;
    name + email + phone + age + picture
  }

  /** Each of the five issues is present exactly when its own rule fails. */
  lemma Step1IssueFields(input: PersonalInput, today: CivilDate, isEmail: string -> bool)
    ensures var issues := Step1Issues(input, today, isEmail);
      && (Issue(["fullName"], NameMessage) in issues <==> !HasTwoWords(input.fullName))
      && (Issue(["email"], EmailMessage) in issues <==> !isEmail(input.email))
      && (Issue(["phoneNumber"], PhoneMessage) in issues <==> !IsPhoneNumber(input.phoneNumber))
      && (Issue(["dateOfBirth"], AgeMessage) in issues <==> !IsAdult(input.dateOfBirth, today))
      && (Issue(["profilePicture"], PictureMessage) in issues <==> !PictureOk(input.profilePicture))
  {
    TwoWordsImpliesMinLength(input.fullName);
    FieldsOfParts(NameIssues(input.fullName), !HasTwoWords(input.fullName), !isEmail(input.email),
                  !IsPhoneNumber(input.phoneNumber), !IsAdult(input.dateOfBirth, today),
                  !PictureOk(input.profilePicture));
  }

  /** The list reasoning behind `Step1IssueFields`, over the five rule outcomes. */
  lemma FieldsOfParts(name: seq<Issue>, nameBad: bool, emailBad: bool, phoneBad: bool, ageBad: bool, pictureBad: bool)
    requires forall i :: i in name ==> i == Issue(["fullName"], NameMessage)
    requires Issue(["fullName"], NameMessage) in name <==> nameBad
    ensures var issues := name + When(emailBad, Issue(["email"], EmailMessage))
                          + When(phoneBad, Issue(["phoneNumber"], PhoneMessage))
                          + When(ageBad, Issue(["dateOfBirth"], AgeMessage))
                          + When(pictureBad, Issue(["profilePicture"], PictureMessage));
      && (Issue(["fullName"], NameMessage) in issues <==> nameBad)
      && (Issue(["email"], EmailMessage) in issues <==> emailBad)
      && (Issue(["phoneNumber"], PhoneMessage) in issues <==> phoneBad)
      && (Issue(["dateOfBirth"], AgeMessage) in issues <==> ageBad)
      && (Issue(["profilePicture"], PictureMessage) in issues <==> pictureBad)
  {
    assert "phoneNumber"[0] != "dateOfBirth"[0];
  }

  /** Every issue of the step is one of the five, each on its own field with its own message. */
  lemma Step1IssueShapes(input: PersonalInput, today: CivilDate, isEmail: string -> bool)
    ensures forall i :: i in Step1Issues(input, today, isEmail) ==>
      || i == Issue(["fullName"], NameMessage)
      || i == Issue(["email"], EmailMessage)
      || i == Issue(["phoneNumber"], PhoneMessage)
      || i == Issue(["dateOfBirth"], AgeMessage)
      || i == Issue(["profilePicture"], PictureMessage)
  {
    TwoWordsImpliesMinLength(input.fullName);
    var name := NameIssues(input.fullName);
    var email := When(!isEmail(input.email), Issue(["email"], EmailMessage));
    var phone := When(!IsPhoneNumber(input.phoneNumber), Issue(["phoneNumber"], PhoneMessage));
    var age := When(!IsAdult(input.dateOfBirth, today), Issue(["dateOfBirth"], AgeMessage));
    var picture := When(!PictureOk(input.profilePicture), Issue(["profilePicture"], PictureMessage));
    assert Step1Issues(input, today, isEmail) == name + email + phone + age + picture;
  }

  /**
   * A one-character name collects the message twice: once from `min(2)`,
   * once from the refinement (a lone space trims to the empty name).
   */
  lemma OneCharacterNameTwice(c: char)
    ensures NameIssues([c]) == [Issue(["fullName"], NameMessage), Issue(["fullName"], NameMessage)]
  {
    HasTwoWordsIff([c]);
  }

  /** The age rule holds exactly when the 18th birthday is on or before today. */
  lemma {:induction false} AdultIff(born: CivilDate, today: CivilDate)
    ensures IsAdult(Some(born), today) <==> OnOrBefore(AddYears(born, MinimumAge), today)
  {
    AtLeastYearsIff(today, born, MinimumAge);
  }

  /** On the 18th birthday itself the age rule passes; the day before it fails. */
  lemma EighteenthBirthday(born: CivilDate)
    requires 1 <= born.month <= 12 && 2 <= born.day <= 31
    ensures IsAdult(Some(born), AddYears(born, 18))
    ensures !IsAdult(Some(born), CivilDate(born.year + 18, born.month, born.day - 1))
  {
    AdultIff(born, AddYears(born, 18));
    AdultIff(born, CivilDate(born.year + 18, born.month, born.day - 1));
  }

  /** An invalid date of birth is always rejected. */
  lemma InvalidBirthDateRejected(today: CivilDate)
    ensures !IsAdult(None, today)
  {
  }

  /** No picture is accepted; a present one must be a JPEG or PNG of at most 2 MiB. */
  lemma PictureRule(fileType: string, size: int)
    ensures PictureOk(NoUpload)
    ensures PictureOk(FileObject(Some(fileType), Some(size)))
            <==> (fileType == "image/jpeg" || fileType == "image/png") && size <= 2097152
  {
  }
}
