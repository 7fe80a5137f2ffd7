/**
 * The phone-number format shared by the personal and emergency-contact
 * steps: the pattern `^\+\d{1,3}-\d{3}-\d{3}-\d{4}$`, i.e. "+", one to
 * three digits, then "-ddd-ddd-dddd" and nothing else.
 */
module Phone {

  /** `\d` in a JavaScript regular expression without the `u` flag: ASCII digits only. */
  predicate IsDigit(c: char) {
    '0' <= c <= '9'
  }

  predicate AllDigits(s: string) {
    forall i :: 0 <= i < |s| ==> IsDigit(s[i])
  }

  /**
   * The pattern as a character-class predicate: with k = |s| - 14 country-code
   * digits, the characters sit at fixed positions.
   */
  predicate IsPhoneNumber(s: string) {
    var k := |s| - 14;
    && 1 <= k <= 3
    && s[0] == '+'
    && AllDigits(s[1..k + 1])
    && s[k + 1] == '-'
    && AllDigits(s[k + 2..k + 5])
    && s[k + 5] == '-'
    && AllDigits(s[k + 6..k + 9])
    && s[k + 9] == '-'
    && AllDigits(s[k + 10..])
  }

  /** Every accepted phone number is 15 to 17 characters long. */
  lemma PhoneLength(s: string)
    requires IsPhoneNumber(s)
    ensures 15 <= |s| <= 17
  {
  }

  /**
   * An independent reference: the pattern as a sequence of tokens, matched
   * by a small anchored backtracking matcher.
   */
  datatype Token = Lit(c: char) | Digits(min: nat, max: nat)

  const PhonePattern: seq<Token> :=
    [Lit('+'), Digits(1, 3), Lit('-'), Digits(3, 3), Lit('-'), Digits(3, 3), Lit('-'), Digits(4, 4)]

  /** The whole of `s` matches the token sequence `p`. */
  predicate Matches(p: seq<Token>, s: string)
    decreases |p|, 1, 0
  {
    if |p| == 0 then |s| == 0
    else match p[0]
      case Lit(c) => |s| > 0 && s[0] == c && Matches(p[1..], s[1..])
      case Digits(lo, hi) => lo <= hi && MatchRun(lo, hi, p[1..], s)
  }

  /** A run of between `lo` and `hi` digits followed by `rest`, trying the longest run first. */
  predicate MatchRun(lo: nat, hi: nat, rest: seq<Token>, s: string)
    requires lo <= hi
    decreases |rest| + 1, 0, hi
  {
    (hi <= |s| && AllDigits(s[..hi]) && Matches(rest, s[hi..]))
    || (lo < hi && MatchRun(lo, hi - 1, rest, s))
  }

  /** "-" followed by exactly `n` digits, as the final group. */
  lemma LastGroup(t: string)
    ensures Matches([Lit('-'), Digits(4, 4)], t) <==> |t| == 5 && t[0] == '-' && AllDigits(t[1..])
  {
    if |t| > 0 && t[0] == '-' {
      var u := t[1..];
      assert [Lit('-'), Digits(4, 4)][1..] == [Digits(4, 4)];
      assert Matches([Digits(4, 4)], u) <==> MatchRun(4, 4, [], u);
      assert MatchRun(4, 4, [], u) <==> 4 <= |u| && AllDigits(u[..4]) && Matches([], u[4..]);
    }
  }

  /** One "-ddd" group followed by a tail pattern. */
  lemma MiddleGroup(tail: seq<Token>, t: string)
    ensures Matches([Lit('-'), Digits(3, 3)] + tail, t)
            <==> |t| >= 4 && t[0] == '-' && AllDigits(t[1..4]) && Matches(tail, t[4..])
  {
    var p := [Lit('-'), Digits(3, 3)] + tail;
    assert p[0] == Lit('-') && p[1..] == [Digits(3, 3)] + tail;
    if |t| > 0 && t[0] == '-' {
      var u := t[1..];
      var q := [Digits(3, 3)] + tail;
      assert q[0] == Digits(3, 3) && q[1..] == tail;
      assert Matches(q, u) <==> MatchRun(3, 3, tail, u);
      assert MatchRun(3, 3, tail, u) <==> 3 <= |u| && AllDigits(u[..3]) && Matches(tail, u[3..]);
      if |u| >= 3 {
        assert u[..3] == t[1..4] && u[3..] == t[4..];
      }
    }
  }

  /** The fixed-width part "-ddd-ddd-dddd" after the country code. */
  lemma SubscriberPart(t: string)
    ensures Matches(PhonePattern[2..], t)
            <==> && |t| == 13 && t[0] == '-' && AllDigits(t[1..4]) && t[4] == '-'
                 && AllDigits(t[5..8]) && t[8] == '-' && AllDigits(t[9..])
  {
    var last := [Lit('-'), Digits(4, 4)];
    var mid := [Lit('-'), Digits(3, 3)] + last;
    assert PhonePattern[2..] == [Lit('-'), Digits(3, 3)] + mid;
    MiddleGroup(mid, t);
    if |t| >= 4 {
      MiddleGroup(last, t[4..]);
      if |t| >= 8 {
        LastGroup(t[8..]);
        assert t[4..][4..] == t[8..];
        if |t| == 13 {
          assert t[4..][1..4] == t[5..8];
          assert t[8..][1..] == t[9..];
        }
      }
    }
  }

  /** The character-class predicate and the matcher accept exactly the same strings. */
  lemma {:induction false} PhonePatternAgrees(s: string)
    ensures Matches(PhonePattern, s) <==> IsPhoneNumber(s)
  {
    PatternUnfold(s);
    if |s| > 0 && s[0] == '+' {
      var u := s[1..];
      RunUnfold(PhonePattern[2..], u);
      if |u| >= 3 { assert u[..3] == s[1..4] && u[3..] == s[4..]; RunRemainder(s, 3); }
      if |u| >= 2 { assert u[..2] == s[1..3] && u[2..] == s[3..]; RunRemainder(s, 2); }
      if |u| >= 1 { assert u[..1] == s[1..2] && u[1..] == s[2..]; RunRemainder(s, 1); }
    }
  }

  /** The pattern starts with "+" and a run of one to three digits. */
  lemma PatternUnfold(s: string)
    ensures Matches(PhonePattern, s) <==>
      |s| > 0 && s[0] == '+' && MatchRun(1, 3, PhonePattern[2..], s[1..])
  {
    assert PhonePattern[0] == Lit('+') && PhonePattern[1..][0] == Digits(1, 3);
    assert PhonePattern[1..][1..] == PhonePattern[2..];
  }

  /** The matcher tries a country code of three, two, then one digit. */
  lemma RunUnfold(rest: seq<Token>, u: string)
    ensures MatchRun(1, 3, rest, u) <==>
      || (3 <= |u| && AllDigits(u[..3]) && Matches(rest, u[3..]))
      || (2 <= |u| && AllDigits(u[..2]) && Matches(rest, u[2..]))
      || (1 <= |u| && AllDigits(u[..1]) && Matches(rest, u[1..]))
  {
    assert MatchRun(1, 3, rest, u) <==>
      (3 <= |u| && AllDigits(u[..3]) && Matches(rest, u[3..])) || MatchRun(1, 2, rest, u);
    assert MatchRun(1, 2, rest, u) <==>
      (2 <= |u| && AllDigits(u[..2]) && Matches(rest, u[2..])) || MatchRun(1, 1, rest, u);
  }

  /** With a country code of `k` digits, the rest must be the 13-character subscriber part. */
  lemma RunRemainder(s: string, k: int)
    requires 1 <= k <= 3 && k + 1 <= |s|
    ensures Matches(PhonePattern[2..], s[k + 1..]) <==> |s| == k + 14 && SubscriberShape(s, k)
  {
    var t := s[k + 1..];
    SubscriberPart(t);
    if |t| == 13 {
      assert t[1..4] == s[k + 2..k + 5];
      assert t[5..8] == s[k + 6..k + 9];
      assert t[9..] == s[k + 10..];
    }
  }

  /** The positions of "-ddd-ddd-dddd" once the country code has `k` digits. */
  predicate SubscriberShape(s: string, k: nat)
    requires |s| == k + 14
  {
    && s[k + 1] == '-' && AllDigits(s[k + 2..k + 5]) && s[k + 5] == '-'
    && AllDigits(s[k + 6..k + 9]) && s[k + 9] == '-' && AllDigits(s[k + 10..])
  }

  /** The example shown as the field's placeholder is accepted. */
  lemma PlaceholderAccepted()
    ensures IsPhoneNumber("+1-123-456-7890")
  {
    assert AllDigits("+1-123-456-7890"[1..2]);
  }
}
