/**
 * Dates as the validation rules use them, at day granularity.
 *
 * A civil date is a (year, month, day) triple ordered lexicographically;
 * whole-year ages are computed on civil dates the way date-fns'
 * `differenceInYears` does. A day number counts days from 1970-01-01,
 * which was a Thursday; weekdays follow `Date.prototype.getDay`
 * (0 = Sunday, 6 = Saturday).
 */
module Calendar {

  datatype CivilDate = CivilDate(year: int, month: int, day: int)

  /** -1, 0 or 1 as (month, day) of `a` comes before, on or after that of `b`. */
  function CompareMonthDay(a: CivilDate, b: CivilDate): int {
    if a.month < b.month || (a.month == b.month && a.day < b.day) then -1
    else if a.month == b.month && a.day == b.day then 0
    else 1
  }

  /** `compareAsc` on civil dates: -1, 0 or 1. */
  function Compare(a: CivilDate, b: CivilDate): (r: int)
    ensures r == 0 <==> a == b
    ensures -1 <= r <= 1
  {
    if a.year < b.year then -1
    else if a.year > b.year then 1
    else CompareMonthDay(a, b)
  }

  predicate OnOrBefore(a: CivilDate, b: CivilDate) {
    Compare(a, b) <= 0
  }

  /** The same month and day, `n` years later. */
  function AddYears(d: CivilDate, n: int): CivilDate {
    CivilDate(d.year + n, d.month, d.day)
  }

  function Abs(x: int): nat {
    if x < 0 then -x else x
  }

  /**
   * `differenceInYears(later, earlier)`: the calendar-year difference, less
   * one when the last year is not full, with the sign of the comparison.
   */
  function DifferenceInYears(later: CivilDate, earlier: CivilDate): int {
    var sign := Compare(later, earlier);
    var difference := Abs(later.year - earlier.year);
    var lastYearNotFull := CompareMonthDay(later, earlier) == -sign;
    sign * (difference - if lastYearNotFull then 1 else 0)
  }

  /**
   * When `later` is on or after `earlier`, the result is the number of
   * anniversaries of `earlier` that have been reached: the n-th anniversary
   * is on or before `later` and the next one is after it.
   */
  lemma WholeYearsAreAnniversaries(later: CivilDate, earlier: CivilDate)
    requires OnOrBefore(earlier, later)
    ensures DifferenceInYears(later, earlier) >= 0
    ensures OnOrBefore(AddYears(earlier, DifferenceInYears(later, earlier)), later)
    ensures !OnOrBefore(AddYears(earlier, DifferenceInYears(later, earlier) + 1), later)
  {
  }

  /** A date in the future is less than a whole year away in the past. */
  lemma FutureGivesNoWholeYears(later: CivilDate, earlier: CivilDate)
    requires !OnOrBefore(earlier, later)
    ensures DifferenceInYears(later, earlier) <= 0
  {
  }

  /** Reaching `n` whole years means the n-th anniversary is on or before the date, for n >= 1. */
  lemma {:induction false} AtLeastYearsIff(today: CivilDate, born: CivilDate, n: int)
    requires n >= 1
    ensures DifferenceInYears(today, born) >= n <==> OnOrBefore(AddYears(born, n), today)
  {
    if OnOrBefore(born, today) {
      WholeYearsAreAnniversaries(today, born);
    } else {
      FutureGivesNoWholeYears(today, born);
    }
  }

  /** `Date.prototype.getDay` for a day number: 0 = Sunday ... 6 = Saturday. */
  function DayOfWeek(dayNumber: int): (r: int)
    ensures 0 <= r < 7
  {
    (dayNumber + 4) % 7
  }

  /** Day 0, 1970-01-01, is a Thursday, and each next day is the next weekday, Saturday wrapping to Sunday. */
  lemma DayOfWeekSteps(dayNumber: int)
    ensures DayOfWeek(0) == 4
    ensures DayOfWeek(dayNumber + 1) == (DayOfWeek(dayNumber) + 1) % 7
  {
  }

  /** date-fns `isWeekend`: Saturday or Sunday. */
  predicate IsWeekend(dayNumber: int) {
    var w := DayOfWeek(dayNumber);
    w == 0 || w == 6
  }
}
