/**
 * The progress bar's percentage: `Math.round(step / totalSteps * 100)`,
 * computed here in exact rational arithmetic.
 */
module Progress {
  import opened Common

  /**
   * `r` is `num / den` rounded to the nearest integer with halves rounded
   * upwards, as `Math.round` does: `r - 1/2 <= num / den < r + 1/2`, both
   * sides multiplied by `2 * den`.
   */
  predicate RoundsTo(r: int, num: int, den: int)
    requires den > 0
  {
    2 * den * r - den <= 2 * num < 2 * den * r + den
  }

  /**
   * The percentage, rounded. With no steps the division gives an infinity
   * or not-a-number, here `None`. A negative count divides like the
   * positive one with the step's sign flipped.
   */
  function Percent(step: int, totalSteps: int): (r: Option<int>)
    ensures r.None? <==> totalSteps == 0
    ensures totalSteps > 0 ==> r.Some? && RoundsTo(r.value, 100 * step, totalSteps)
    ensures totalSteps < 0 ==> r.Some? && RoundsTo(r.value, -100 * step, -totalSteps)
  {
    if totalSteps == 0 then None
    else
      var s := if totalSteps < 0 then -step else step;
      var t := if totalSteps < 0 then -totalSteps else totalSteps;
      DivBounds(200 * s + t, 2 * t);
      Some((200 * s + t) / (2 * t))
  }

  lemma DivBounds(n: int, d: int)
    requires d > 0
    ensures d * (n / d) <= n < d * (n / d) + d
  {
  }

  lemma MulMono(t: int, a: int, b: int)
    requires t >= 0 && a <= b
    ensures t * a <= t * b
  {
    assert t * b == t * a + t * (b - a);
  }

  /** There is one rounded value: two integers that both round `num / den` are equal. */
  lemma RoundsToUnique(r: int, r': int, num: int, den: int)
    requires den > 0 && RoundsTo(r, num, den) && RoundsTo(r', num, den)
    ensures r == r'
  {
    if r < r' {
      MulMono(2 * den, r + 1, r');
    } else if r' < r {
      MulMono(2 * den, r' + 1, r);
    }
  }

  /** The last step shows 100 %. */
  lemma LastStepIsFull(totalSteps: int)
    requires totalSteps != 0
    ensures Percent(totalSteps, totalSteps) == Some(100)
  {
    if totalSteps > 0 {
      RoundsToUnique(Percent(totalSteps, totalSteps).value, 100, 100 * totalSteps, totalSteps);
    } else {
      RoundsToUnique(Percent(totalSteps, totalSteps).value, 100, -100 * totalSteps, -totalSteps);
    }
  }

  /** From no step to the last one the percentage stays within 0 and 100. */
  lemma PercentInRange(step: int, totalSteps: int)
    requires 0 <= step <= totalSteps && totalSteps > 0
    ensures 0 <= Percent(step, totalSteps).value <= 100
  {
    var r := Percent(step, totalSteps).value;
    if r < 0 {
      MulMono(2 * totalSteps, r, -1);
    }
    if r > 100 {
      MulMono(2 * totalSteps, 101, r);
    }
  }

  /** A later step never shows a smaller percentage. */
  lemma PercentMonotone(step: int, later: int, totalSteps: int)
    requires step <= later && totalSteps > 0
    ensures Percent(step, totalSteps).value <= Percent(later, totalSteps).value
  {
    var r := Percent(step, totalSteps).value;
    var r' := Percent(later, totalSteps).value;
    if r > r' {
      MulMono(2 * totalSteps, r' + 1, r);
    }
  }

  /** The wizard's five steps show 20, 40, 60, 80 and 100 %. */
  lemma WizardPercentages()
    ensures Percent(1, 5) == Some(20) && Percent(2, 5) == Some(40) && Percent(3, 5) == Some(60)
    ensures Percent(4, 5) == Some(80) && Percent(5, 5) == Some(100)
  {
  }
}
