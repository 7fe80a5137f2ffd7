# Employee onboarding wizard — a Dafny model

This project models the rule set of a five-step employee onboarding wizard
written in TypeScript and React. The five steps are personal information,
job details, skills, emergency contact, and review and submit. The model
covers:

- the validation schema of every step, as the list of (path, message)
  issues it reports, with "accepted" meaning "no issue";
- the salary helpers that tie the job type to a salary range and a field
  label;
- the wizard itself: the current step, the record accumulated from the
  submitted steps, moving forward and back, the derived employee age, the
  unsaved-changes warning and which screen is shown;
- the small state and list logic inside the screens:
  - the checkbox-group toggle;
  - the skills screen's normalisation of the selection and its
    manager-approval effect;
  - the job screen's manager list, which follows the department and clears
    the chosen manager;
  - the manager picker's search and lookup;
  - the step indicator;
  - the progress percentage.

Modules follow the source files: `SalaryUtils`, `Step1PersonalSchema` …
`Step5ReviewSchema`, `OnboardForm`, `Step2Job`, `Step3Skills`,
`Step4Emergency`, `Step5Review`, `FormCheckboxGroup`, `ManagerCombobox`,
`StepIndicator` and `Progress`. Five shared modules hold the pieces several
of them use:

- `Common`: Option, JSON-like values, issues, `filter` and `find`;
- `Text`: JavaScript's `trim`, `split`, `toLowerCase`, `includes` and string `<`;
- `Phone`: the phone pattern;
- `Calendar`: civil dates, date-fns' whole-year difference and weekdays;
- `Managers`: the manager record and the department filter that both the
  job screen and the manager picker apply.

Stateful parts are classes whose methods update fields:

- `OnboardForm.Wizard` (`step`, `formData`);
- `Step2Job.JobForm`;
- `Step3Skills.SkillsForm`;
- `ManagerCombobox.Combobox`.

A React effect is modelled as the part of a method that runs when the
watched value changes. A constructor stands for the component once mounted,
with its effects run once.

Conventions used throughout:

- Dates in the job step are day numbers (day 0 is 1970-01-01, a Thursday),
  and "today" is a parameter.
- Ages are computed on (year, month, day) dates.
- Numbers are exact reals or integers.
- The managers directory and the per-department skills table are data
  outside this model; they are passed in as parameters.
- The email check of the validation library is passed in as a predicate.

Two texts in the source suggest rules that its code does not enforce. The
model follows the code:

- The comment at components/OnboardForm/steps/Step3Skills.tsx:60 ties the
  manager approval to a remote share above 50 %. The skills schema never
  looks at the approval (`Step3SkillsSchema.ApprovalIgnored`). Only the
  screen's effect clears it at or below 50 %.
- The message at lib/validation/step4EmergencySchema.ts:17 speaks of
  guardians being required "if age < 21". The
  emergency schema has no notion of age (`Step4EmergencySchema.NoAgeInSchema`).
  It only demands that name and phone come together, and any guardian phone
  that is a string, even `""`, must match the phone pattern
  (`Step4EmergencySchema.EmptyGuardianPhoneRejected`). Age only decides
  whether the screen shows the guardian inputs.

## Model

| member | source | states |
|---|---|---|
| `SalaryUtils.IsSalaryValid` | lib/salaryUtils.ts:3-7 | A full-time salary is valid iff 30000 ≤ salary ≤ 200000 and a contract rate iff 50 ≤ rate ≤ 150, bounds inclusive. Every other job type is valid. |
| `SalaryUtils.GetSalaryLabel` | lib/salaryUtils.ts:9-10 | The label is "Hourly Rate ($)" exactly for Contract, and "Annual Salary ($)" exactly otherwise. |
| `SalaryUtils.PartTimeAlwaysValid` | lib/salaryUtils.ts:6 | A part-time salary is valid whatever its amount. |
| `SalaryUtils.RangesDisjoint` | lib/salaryUtils.ts:4-5 | No amount is both a valid annual salary and a valid hourly rate. |
| `Common.Filter` | components/FormFields/FormCheckboxGroup.tsx:28 | `filter` keeps exactly the list's elements that pass the test and is never longer than the list. |
| `Common.FilterCounts` | components/FormFields/FormCheckboxGroup.tsx:28 | Filtering keeps every occurrence of a passing value and drops every occurrence of a failing one. |
| `Common.FilterIsSubsequence` | components/OnboardForm/ManagerCombobox.tsx:34-36 | A filtered list is an order-preserving sublist of the original. |
| `Common.Find` | components/OnboardForm/ManagerCombobox.tsx:38 | `find` returns a list element that passes the test, and returns nothing exactly when no element passes. |
| `Common.FindIsFirst` | components/OnboardForm/ManagerCombobox.tsx:38 | The element `find` returns sits at an index before which no element passes. |
| `Text.Trim` | lib/validation/step1PersonalSchema.ts:8 | `trim` leaves no whitespace at either end, never lengthens the string and adds no character. |
| `Text.TrimSurrounded` | lib/validation/step1PersonalSchema.ts:8 | Whitespace around a word whose ends are not whitespace is exactly what `trim` removes. |
| `Text.Split` | lib/validation/step1PersonalSchema.ts:8 | `split` on one character gives at least one piece, and no piece contains the separator. |
| `Text.SplitCount` | lib/validation/step1PersonalSchema.ts:8 | `split` gives one piece more than there are separators. |
| `Text.SplitJoin` | lib/validation/step1PersonalSchema.ts:8 | Joining the pieces with the separator gives the original string back. |
| `Text.ToLower` | components/OnboardForm/ManagerCombobox.tsx:35 | Lower-casing keeps the length and maps each character on its own: A–Z go to the letter 32 code points higher (a–z), and every other character stays. |
| `Text.ToLowerIdempotent` | components/OnboardForm/ManagerCombobox.tsx:35 | Lower-casing twice is lower-casing once. |
| `Text.IncludesIff` | components/OnboardForm/ManagerCombobox.tsx:35 | `includes` holds exactly when the needle occurs at some index of the haystack. |
| `Text.IncludesEmpty` | components/OnboardForm/ManagerCombobox.tsx:35 | Every string includes the empty string. |
| `Text.LexLessIrreflexive` | lib/validation/step3SkillsSchema.ts:11 | No string is `<` itself, so a working-hours window with equal start and end is rejected. |
| `Text.LexLessTransitive` | lib/validation/step3SkillsSchema.ts:11 | String `<` is transitive. |
| `Phone.PhonePatternAgrees` | lib/validation/step1PersonalSchema.ts:12-14 | The pattern `^\+\d{1,3}-\d{3}-\d{3}-\d{4}$`, run by an independent backtracking matcher, accepts exactly the strings the character-position predicate accepts. |
| `Phone.IsPhoneNumber` | lib/validation/step1PersonalSchema.ts:12-14 | The phone rule by character position: '+', 1–3 digits, '-', 3 digits, '-', 3 digits, '-', 4 digits; tied to the pattern by `Phone.PhonePatternAgrees`. |
| `Phone.PhoneLength` | lib/validation/step1PersonalSchema.ts:12-14 | Every accepted phone number has 15 to 17 characters. |
| `Phone.PlaceholderAccepted` | components/OnboardForm/steps/Step4Emergency.tsx:90 | The placeholder "+1-123-456-7890" is accepted. |
| `Calendar.WholeYearsAreAnniversaries` | lib/validation/step1PersonalSchema.ts:19 | For a past birth date, the whole-year difference n is the count of anniversaries reached: the n-th is on or before today and the (n+1)-th is after it. |
| `Calendar.FutureGivesNoWholeYears` | lib/validation/step1PersonalSchema.ts:19 | A birth date in the future gives no positive age. |
| `Calendar.AtLeastYearsIff` | lib/validation/step1PersonalSchema.ts:19 | For n ≥ 1, the age is at least n exactly when the n-th anniversary is on or before today. |
| `Calendar.DayOfWeek` | lib/validation/step2JobSchema.ts:42 | The weekday of a day number is in 0..6. |
| `Calendar.DayOfWeekSteps` | lib/validation/step2JobSchema.ts:42 | Day 0 (1970-01-01) is a Thursday (4), and each next day is the next weekday modulo 7, so 6 is Saturday and 0 is Sunday. |
| `Calendar.DifferenceInYears` | lib/validation/step1PersonalSchema.ts:19 | date-fns `differenceInYears`; no contract of its own, characterised by the three lemmas above. |
| `Step1PersonalSchema.HasTwoWordsIff` | lib/validation/step1PersonalSchema.ts:8-10 | The two-word rule holds exactly when the trimmed name contains a space. |
| `Step1PersonalSchema.TwoWordsImpliesMinLength` | lib/validation/step1PersonalSchema.ts:7-10 | A name that passes the two-word rule has at least 3 characters, so `min(2)` never fails alone. |
| `Step1PersonalSchema.SingleWordRejected` | lib/validation/step1PersonalSchema.ts:8-10 | A name with no space once trimmed is rejected, whatever whitespace surrounds it. |
| `Step1PersonalSchema.JohnRejected` | lib/validation/step1PersonalSchema.ts:8-10 | "John" is rejected. |
| `Step1PersonalSchema.OneCharacterNameTwice` | lib/validation/step1PersonalSchema.ts:7-10 | Every one-character name, a lone space included, gets the name message twice: once from `min(2)`, once from the refinement. |
| `Step1PersonalSchema.Step1Issues` | lib/validation/step1PersonalSchema.ts:4-34 | The record is accepted iff all five hold: the name has two words, the email passes, the phone matches, the birth date parses with age ≥ 18, and the picture rule holds. Every issue is on one of the five fields. |
| `Step1PersonalSchema.Step1IssueFields` | lib/validation/step1PersonalSchema.ts:4-34 | Each field's issue, with that field's message, is present exactly when that field's rule fails: name, email, phone, age, picture. |
| `Step1PersonalSchema.Step1IssueShapes` | lib/validation/step1PersonalSchema.ts:4-34 | Every issue is one of the five (field, message) pairs; no rule reports on another field or with another message. |
| `Step1PersonalSchema.AdultIff` | lib/validation/step1PersonalSchema.ts:15-22 | The age rule holds exactly when the 18th birthday is on or before today. |
| `Step1PersonalSchema.EighteenthBirthday` | lib/validation/step1PersonalSchema.ts:15-22 | On the 18th birthday the rule passes; the day before, it fails. |
| `Step1PersonalSchema.InvalidBirthDateRejected` | lib/validation/step1PersonalSchema.ts:18-19 | An unparseable birth date fails the rule. |
| `Step1PersonalSchema.PictureRule` | lib/validation/step1PersonalSchema.ts:23-33 | No picture is accepted. A present one passes iff it is image/jpeg or image/png and at most 2097152 bytes. |
| `Step2JobSchema.Step2Issues` | lib/validation/step2JobSchema.ts:4-67 | The record is accepted iff all hold: both enums are valid, the title has ≥ 3 characters, and a manager is given. The date must parse and lie in [today, today+90], and must not be a weekend for HR or Finance. `isSalaryValid` must hold. |
| `Step2JobSchema.DepartmentRequiredNeverRaised` | lib/validation/step2JobSchema.ts:6-7 | The "Department is required" refinement never fires, since every listed department is non-empty. |
| `Step2JobSchema.InvalidDateOnlyIssue` | lib/validation/step2JobSchema.ts:19-25 | An unparseable date is reported as "Invalid date format", and no other start-date issue appears. |
| `Step2JobSchema.InvalidDateReportedOnce` | lib/validation/step2JobSchema.ts:19-25 | That issue appears exactly once. |
| `Step2JobSchema.PastIff` | lib/validation/step2JobSchema.ts:26-32 | The past issue is raised iff the date is before today. |
| `Step2JobSchema.TooFarIff` | lib/validation/step2JobSchema.ts:33-39 | The 90-day issue is raised iff the date is after today+90; today+90 itself passes. |
| `Step2JobSchema.WeekendIff` | lib/validation/step2JobSchema.ts:40-49 | The weekend issue is raised iff the department is HR or Finance and the date is a Saturday or Sunday. |
| `Step2JobSchema.OtherDepartmentsNoWeekendIssue` | lib/validation/step2JobSchema.ts:40-49 | Other departments never get the weekend issue. |
| `Step2JobSchema.PastAndWeekendTogether` | lib/validation/step2JobSchema.ts:26-49 | The date checks are independent: a past Sunday for HR collects both the past and the weekend issue. |
| `Step2JobSchema.SalaryIssueIffInvalid` | lib/validation/step2JobSchema.ts:53-66 | The salary issue is raised iff the enums are valid (so the refinement runs) and `isSalaryValid` is false. |
| `Step2JobSchema.PartTimeNeverFlagged` | lib/validation/step2JobSchema.ts:53-66 | A part-time salary is never flagged. |
| `Step2JobSchema.EmptyManagerRejected` | lib/validation/step2JobSchema.ts:12 | An empty manager id is always reported. |
| `Step2JobSchema.PastAtInstantIff` | lib/validation/step2JobSchema.ts:15-32 | Compared as instants (the date's UTC midnight against the current moment), the past check fires for earlier days, and for today at any moment after midnight. |
| `Step2JobSchema.TodayReportedPast` | lib/validation/step2JobSchema.ts:15-32 | Today's date, one millisecond after midnight, is reported as past. |
| `Step2JobSchema.TooFarAtInstantAgrees` | lib/validation/step2JobSchema.ts:15-39 | Compared as instants, the 90-day check agrees with the day-level rule at every time of day. |
| `Step3SkillsSchema.ExperienceIssues` | lib/validation/step3SkillsSchema.ts:7 | Every experience issue is reported on a path `experience.<skill>`. |
| `Step3SkillsSchema.ExperienceIssueFor` | lib/validation/step3SkillsSchema.ts:7 | For each skill, the minimum message on `experience.<skill>` is present iff some entry for that skill is below 0, and the maximum message iff some entry is above 50. |
| `Step3SkillsSchema.ExperienceIssuesIff` | lib/validation/step3SkillsSchema.ts:7 | There is no experience issue iff every value lies in [0, 50]; keys are unconstrained. |
| `Step3SkillsSchema.Step3Issues` | lib/validation/step3SkillsSchema.ts:3-17 | The record is accepted iff all hold: at least 3 skills, every experience value in [0, 50], hours start < end as strings, remote share in [0, 100], and notes, when present, at most 500 characters. |
| `Step3SkillsSchema.ApprovalIgnored` | lib/validation/step3SkillsSchema.ts:15 | The issues do not depend on the manager approval. |
| `Step3SkillsSchema.TooFewSkillsRejected` | lib/validation/step3SkillsSchema.ts:4-6 | Fewer than 3 skills are reported. |
| `Step3SkillsSchema.ClockStringOrder` | lib/validation/step3SkillsSchema.ts:11 | For zero-padded "HH:mm" times, string order is time-of-day order. |
| `Step3SkillsSchema.DefaultHoursOrdered` | components/OnboardForm/steps/Step3Skills.tsx:43 | The default "09:00"–"17:00" passes the ordering rule. |
| `Step3SkillsSchema.UnpaddedHoursMisordered` | lib/validation/step3SkillsSchema.ts:11 | Without padding the rule disagrees with time: "9:00" is not before "17:00". |
| `Step4EmergencySchema.Step4Issues` | lib/validation/step4EmergencySchema.ts:3-19 | The record is accepted iff all hold: contact name and relationship are non-empty, the phone matches, a present guardian phone matches, and the guardian name is given iff the guardian phone is. |
| `Step4EmergencySchema.PairingIssueIff` | lib/validation/step4EmergencySchema.ts:11-19 | The pairing issue, on path guardianName, is raised iff exactly one of name and phone is truthy. |
| `Step4EmergencySchema.BothAbsentPaired` | lib/validation/step4EmergencySchema.ts:11-15 | Both undefined or both empty pass the pairing rule. |
| `Step4EmergencySchema.EmptyGuardianPhoneRejected` | lib/validation/step4EmergencySchema.ts:10 | A guardian phone of "" is checked against the pattern and rejected. |
| `Step4EmergencySchema.NoAgeInSchema` | lib/validation/step4EmergencySchema.ts:3-19 | With the guardian fields undefined and the contact fields valid, the record is accepted; age plays no part. |
| `Step4Emergency.ShowGuardian` | components/OnboardForm/steps/Step4Emergency.tsx:52 | The guardian inputs are shown when the age is below 21; an age that is not a number hides them. |
| `Step5ReviewSchema.Step5Issues` | lib/validation/step5ReviewSchema.ts:3-6 | Accepted iff confirm is the boolean true. `false` gives exactly the confirmation message. There is at most one issue. |
| `Step5ReviewSchema.NonBooleanRejected` | lib/validation/step5ReviewSchema.ts:4 | A non-boolean confirm is rejected by the type check, not by the refinement. |
| `Step5Review.SubmitWithoutTickingFails` | components/OnboardForm/steps/Step5Review.tsx:31-33 | The default confirm = false fails with "You must confirm that all information is correct". |
| `OnboardForm.Merge` | components/OnboardForm/OnboardForm.tsx:22 | The merge has the keys of both records. Submitted keys take the submitted values, and every other key keeps its old value. |
| `OnboardForm.MergeIdempotent` | components/OnboardForm/OnboardForm.tsx:22 | Submitting the same data again changes nothing. |
| `OnboardForm.MergeSequential` | components/OnboardForm/OnboardForm.tsx:21-24 | Two submissions equal one submission of their merge. |
| `OnboardForm.Wizard.constructor` | components/OnboardForm/OnboardForm.tsx:17-18 | The wizard starts on step 1 with an empty record. |
| `OnboardForm.Wizard.NextStep` | components/OnboardForm/OnboardForm.tsx:21-24 | The record becomes the merge of old record and data, and the step grows by exactly 1. |
| `OnboardForm.Wizard.PrevStep` | components/OnboardForm/OnboardForm.tsx:26 | The step drops by exactly 1 and the record is untouched; so next-then-prev restores the step. |
| `OnboardForm.EmployeeAge` | components/OnboardForm/OnboardForm.tsx:33 | The age is 0 without a truthy date of birth. It is the whole-year difference from the parsed date to today when the date parses, and not a number exactly when it does not parse. |
| `OnboardForm.GuardianShownWithoutBirthDate` | components/OnboardForm/OnboardForm.tsx:33 | Without a date of birth the age is 0, so the emergency screen shows the guardian inputs. |
| `OnboardForm.GuardianShownUntil21` | components/OnboardForm/OnboardForm.tsx:33 | With a parsed birth date the guardian inputs are shown exactly until the 21st birthday. |
| `OnboardForm.RenderedScreens` | components/OnboardForm/OnboardForm.tsx:43-75 | For step 1..5 exactly the step's own screen is rendered, and none for any other step. |
| `OnboardForm.WarningEnabled` | components/OnboardForm/OnboardForm.tsx:36 | The unsaved-changes warning is on while the step is below 5. |
| `OnboardForm.WarningUntilReview` | components/OnboardForm/OnboardForm.tsx:36 | On steps 1..5 the unsaved-changes warning is on exactly when the review screen is not shown. |
| `OnboardForm.SkillsScreenDepartment` | components/OnboardForm/OnboardForm.tsx:56 | The skills screen gets the record's department string, and gets undefined when the record has none. |
| `OnboardForm.SubmittedDepartmentReachesSkills` | components/OnboardForm/OnboardForm.tsx:53-59 | A department submitted on the job screen is the one the skills screen receives. |
| `Managers.InDepartment` | components/OnboardForm/steps/Step2Job.tsx:48 | The manager list is exactly the directory's managers of the department. They stay in directory order, each as often as in the directory. |
| `Managers.NoDepartmentNoManagers` | components/OnboardForm/steps/Step2Job.tsx:48 | An undefined department lists no manager. |
| `Step2Job.InitialValues` | components/OnboardForm/steps/Step2Job.tsx:23-30 | Given values, even an empty record, win. Otherwise the fallback is Engineering, Full-time and an empty manager, with no start date or salary. |
| `Step2Job.SalaryFieldLabel` | components/OnboardForm/steps/Step2Job.tsx:114-116 | The salary input is labelled "Hourly Rate ($)" exactly when the job type is Contract. |
| `Step2Job.SalaryFieldLabelAgrees` | components/OnboardForm/steps/Step2Job.tsx:114-116 | The screen's label agrees with `getSalaryLabel` for every job type. |
| `Step2Job.DateInputBounds` | components/OnboardForm/steps/Step2Job.tsx:86-87 | The date input's window spans 90 days. |
| `Step2Job.DateInputMatchesSchema` | components/OnboardForm/steps/Step2Job.tsx:86-87 | A parsed date raises neither the past nor the 90-day issue exactly when it lies within the input's bounds. |
| `Step2Job.ManagerOptions` | components/OnboardForm/steps/Step2Job.tsx:125-128 | There is one option per listed manager, in order, with the id as value and the name as text. |
| `Step2Job.JobForm.constructor` | components/OnboardForm/steps/Step2Job.tsx:42-51 | After mounting, department and job type come from the initial values, and the list is the department's managers. The manager id is empty, even if the initial values held one. |
| `Step2Job.JobForm.SelectDepartment` | components/OnboardForm/steps/Step2Job.tsx:47-51 | A changed department refreshes the list and clears the manager id. Choosing the same department changes nothing. |
| `Step2Job.JobForm.SelectManager` | components/OnboardForm/steps/Step2Job.tsx:121-130 | Only the manager id changes. |
| `Step2Job.JobForm.SelectJobType` | components/OnboardForm/steps/Step2Job.tsx:92-116 | Only the job type changes, and the label then agrees with `getSalaryLabel`. |
| `Step2Job.JobForm.Options` | components/OnboardForm/steps/Step2Job.tsx:125-128 | Every option offered belongs to a directory manager of the watched department. |
| `Step2Job.ResetManagerRejected` | components/OnboardForm/steps/Step2Job.tsx:50 | After the reset, the empty manager id fails the schema until a manager is chosen again. |
| `Step3Skills.NormalizeSkills` | components/OnboardForm/steps/Step3Skills.tsx:50-55 | A list is kept as it is, a single string becomes a one-element list, and anything else becomes empty. |
| `Step3Skills.NormalizeIdempotent` | components/OnboardForm/steps/Step3Skills.tsx:50-55 | Normalising a normalised selection changes nothing. |
| `Step3Skills.SingleStringChecksItself` | components/OnboardForm/steps/Step3Skills.tsx:86-88 | A single selected string ticks exactly its own checkbox. |
| `Step3Skills.SkillChecked` | components/OnboardForm/steps/Step3Skills.tsx:86-88 | A skill's checkbox is ticked when the normalised selection includes it. |
| `Step3Skills.AvailableSkills` | components/OnboardForm/steps/Step3Skills.tsx:58 | A department missing from the table offers no skills. Otherwise its skills are offered. |
| `Step3Skills.UnknownDepartmentNoSkills` | components/OnboardForm/steps/Step3Skills.tsx:58 | An unknown department gives the empty list. |
| `Step3Skills.ExperienceFieldNames` | components/OnboardForm/steps/Step3Skills.tsx:104-116 | There is one experience input per selected skill, in selection order, registered as `experience.<skill>`. |
| `Step3Skills.FieldNamesDistinct` | components/OnboardForm/steps/Step3Skills.tsx:104-116 | Two inputs share a field name exactly when the same skill is selected twice. |
| `Step3Skills.ExperienceSectionShown` | components/OnboardForm/steps/Step3Skills.tsx:99 | The experience section is rendered when at least one skill is selected. |
| `Step3Skills.ExperienceSectionShownIff` | components/OnboardForm/steps/Step3Skills.tsx:99-116 | The section is shown exactly when it holds at least one input. A single selected string shows it, and a missing selection hides it. |
| `Step3Skills.ExperienceInputIffChecked` | components/OnboardForm/steps/Step3Skills.tsx:86-111 | A skill has an `experience.<skill>` input exactly when its checkbox is ticked. |
| `Step3Skills.FallbackNeedsSkills` | components/OnboardForm/steps/Step3Skills.tsx:40-47 | Of the fallback values only the skill count fails the schema. |
| `Step3Skills.ApprovalAfterEffect` | components/OnboardForm/steps/Step3Skills.tsx:61-67 | At or below 50 % (or for a non-number) the approval becomes false. Above 50 % it stays true only if it was true. |
| `Step3Skills.SkillsForm.constructor` | components/OnboardForm/steps/Step3Skills.tsx:38-67 | After mounting, the approval is the effect's value, so it is ticked only above 50 %. |
| `Step3Skills.SkillsForm.ApprovalVisible` | components/OnboardForm/steps/Step3Skills.tsx:146 | The approval checkbox is rendered only when the remote share is a number above 50. |
| `Step3Skills.SkillsForm.SetRemotePreference` | components/OnboardForm/steps/Step3Skills.tsx:61-67 | A changed percentage reruns the effect; an unchanged one does not. Approval stays ticked only above 50 %. |
| `Step3Skills.SkillsForm.SetManagerApproved` | components/OnboardForm/steps/Step3Skills.tsx:146-163 | The checkbox, shown only above 50 %, sets the approval and keeps the invariant. |
| `Step3Skills.SkillsForm.SetPrimarySkills` | components/OnboardForm/steps/Step3Skills.tsx:50 | Only the watched selection changes. |
| `FormCheckboxGroup.Toggle` | components/FormFields/FormCheckboxGroup.tsx:26-32 | A selected option is removed with all its duplicates. Any other option is appended at the end, an undefined list counting as empty. Every other option keeps its checked state. |
| `FormCheckboxGroup.Checked` | components/FormFields/FormCheckboxGroup.tsx:44 | An option is checked when the field's list includes it; an undefined list checks nothing. |
| `FormCheckboxGroup.ToggleUndefined` | components/FormFields/FormCheckboxGroup.tsx:30 | Toggling on an undefined list yields the one-element list. |
| `FormCheckboxGroup.ToggleFlipsChecked` | components/FormFields/FormCheckboxGroup.tsx:44 | A toggle flips the option's checked state and no other option's. |
| `FormCheckboxGroup.ToggleKeepsOthers` | components/FormFields/FormCheckboxGroup.tsx:28-30 | Both branches keep the other options in their order and multiplicity. |
| `FormCheckboxGroup.ToggleTwiceRestores` | components/FormFields/FormCheckboxGroup.tsx:26-32 | Toggling an unselected option twice gives the original list back. |
| `ManagerCombobox.Filtered` | components/OnboardForm/ManagerCombobox.tsx:31-36 | An empty query gives the whole list. Otherwise the result is exactly the managers whose lower-cased name includes the lower-cased query, each as often as in the list. It is always an order-preserving sublist. |
| `ManagerCombobox.EmptyQueryKeepsAll` | components/OnboardForm/ManagerCombobox.tsx:31-36 | Filtering with the empty query would also keep every manager, so the shortcut changes nothing. |
| `ManagerCombobox.QueryCaseIgnored` | components/OnboardForm/ManagerCombobox.tsx:35 | The search result does not depend on the query's case. |
| `ManagerCombobox.SelectedManager` | components/OnboardForm/ManagerCombobox.tsx:38 | The selection is the first manager of the whole directory (not the filtered list) with the id, or none exactly when no manager has it. |
| `ManagerCombobox.InputText` | components/OnboardForm/ManagerCombobox.tsx:44 | The search box shows the selected manager's name when it is non-empty, and the query otherwise. |
| `ManagerCombobox.Combobox.constructor` | components/OnboardForm/ManagerCombobox.tsx:23-29 | After mounting, the query is empty and the list holds the department's managers. |
| `ManagerCombobox.Combobox.SetDepartment` | components/OnboardForm/ManagerCombobox.tsx:26-29 | A new department refreshes the list, and the query stays. |
| `ManagerCombobox.Combobox.SetQuery` | components/OnboardForm/ManagerCombobox.tsx:45 | Typing changes only the query. |
| `ManagerCombobox.Combobox.Shown` | components/OnboardForm/ManagerCombobox.tsx:31-36 | The listed managers are exactly the directory's managers of the department that match the query. Each appears as often as in the directory, in the department list's order. |
| `ManagerCombobox.Combobox.ListVisible` | components/OnboardForm/ManagerCombobox.tsx:48 | The list is rendered when the filtered list is non-empty. |
| `ManagerCombobox.Combobox.ListVisibleIff` | components/OnboardForm/ManagerCombobox.tsx:48 | The list is rendered exactly when some directory manager of the department matches the query. |
| `StepIndicator.Badges` | components/OnboardForm/StepIndicator.tsx:3-21 | There are five badges with the fixed labels in order. Each is numbered index+1, active iff its number is the current step, completed iff it is smaller, and never both. |
| `StepIndicator.GlyphOf` | components/OnboardForm/StepIndicator.tsx:35 | A completed badge shows "✓"; any other shows its number. |
| `StepIndicator.CountsFrom` | components/OnboardForm/StepIndicator.tsx:18-21 | Among consecutively numbered badges, one is active when the current step is in range, and the completed ones are those numbered below it. |
| `StepIndicator.BadgeCounts` | components/OnboardForm/StepIndicator.tsx:18-21 | For any current step there is one active badge if the step is in 1..5 (none otherwise), and clamp(step − 1, 0, 5) completed badges. |
| `StepIndicator.OneActiveOnWizardStep` | components/OnboardForm/StepIndicator.tsx:18-21 | On steps 1..5 exactly one badge is active and step − 1 are completed. |
| `Progress.Percent` | components/OnboardForm/Progress.tsx:9 | The percentage is 100·step/total rounded to the nearest integer, halves upwards. There is none when total is 0. |
| `Progress.RoundsToUnique` | components/OnboardForm/Progress.tsx:9 | That rounding has exactly one result. |
| `Progress.LastStepIsFull` | components/OnboardForm/Progress.tsx:9 | step = total gives 100. |
| `Progress.PercentInRange` | components/OnboardForm/Progress.tsx:9 | For 0 ≤ step ≤ total the percentage lies in [0, 100]. |
| `Progress.PercentMonotone` | components/OnboardForm/Progress.tsx:9 | A later step never shows a smaller percentage. |
| `Progress.WizardPercentages` | components/OnboardForm/Progress.tsx:9 | The wizard's steps 1..5 of 5 show 20, 40, 60, 80 and 100. |

## Left out

- Step2JobSchema.Step2Issues: compares calendar days, not instants. The code compares the date's UTC midnight with the current moment. The model uses the evidently intended day-level rule, and the instant-level behaviour is stated separately (see Findings).
- Step2JobSchema.PastIff: states the same day-level rule: the past issue is raised for days before today, not for today after midnight.
- Weekdays are computed on day numbers in UTC. date-fns `isWeekend` reads the local weekday of the parsed UTC midnight, which differs west of UTC. Time zones are not modelled.
- Parsing of date strings (`new Date(string)`) is not modelled. A start date arrives as a day number or as invalid; a birth date arrives as a (year, month, day) or as invalid. `OnboardForm.EmployeeAge` takes the conversion as a parameter.
- The email check belongs to the validation library, whose pattern is not shown. `Step1PersonalSchema.Step1Issues` takes it as a parameter.
- Type failures of the validation library are only modelled for `confirm`. Examples are a non-string name or an undefined salary, each of which stops the object check. Elsewhere the model assumes each field has its declared type.
- Enumeration failures are reported as "Invalid enum value". The library's message also lists the expected and received values.
- Numbers are exact; NaN and Infinity are only modelled where a comparison with them decides a branch (remote share, employee age, a zero step count). The floating-point evaluation of `Math.round(step / totalSteps * 100)` is not modelled.
- Text.ToLower: lower-cases ASCII letters only. JavaScript's `toLowerCase` also maps other Unicode letters.
- The accumulated record is a map. Object key order, and keys present with the value `undefined`, are not represented.
- ManagerCombobox.Combobox.constructor: the first render, before the mount effect runs, lists the whole directory. The model starts after that effect.
- Step2Job.JobForm.constructor: the same holds here; the model starts after the mount effect.
- The managers directory and the skills-per-department table are data outside this model. They are passed as parameters.
- Left out as markup or browser plumbing with no rule to state:
  - React rendering and the form library's field registration, including how a native checkbox list builds the `primarySkills` array;
  - the review screen's `renderData` display;
  - `submitFinal`'s logging and alert;
  - the unsaved-changes hook, whose code is not part of this model;
  - file-upload previews and the unwrapping of a file list into its first file.
- The wizard does not bound `step`; neither does the code. Only screens 1–4 offer Next and screens 2–5 offer Back.

## Findings

| source | as written | input that shows it | evidently intended | confidence | as-written member | corrected member |
|---|---|---|---|---|---|---|
| lib/validation/step2JobSchema.ts:15-32 | The start date (its UTC midnight) is compared with the current moment, so today's date counts as past after midnight. | The start date is today; the check runs at 00:00:00.001 UTC or later, in a UTC time zone. The date picker offers that date as its minimum (components/OnboardForm/steps/Step2Job.tsx:86). | A start date of today is accepted, as the picker's minimum suggests. | medium; not executed | `Step2JobSchema.TodayReportedPast` | `Step2Job.DateInputMatchesSchema` |
