/**
 * Values shared by the schemas and components of the onboarding wizard:
 * an Option type, the JSON-like values the wizard accumulates, validation
 * issues, and the list operations (`filter`, `find`) the components use.
 */
module Common {

  datatype Option<T> = None | Some(value: T)

  /**
   * A value as held in the wizard's accumulated record. Object key order
   * is not represented. JavaScript's `undefined` is a missing key.
   */
  datatype Json =
    | JNull
    | JBool(b: bool)
    | JNum(n: real)
    | JStr(s: string)
    | JArr(items: seq<Json>)
    | JObj(fields: map<string, Json>)

  /** JavaScript truthiness of a value that is present. */
  predicate Truthy(v: Json) {
    match v
    case JNull => false
    case JBool(b) => b
    case JNum(n) => n != 0.0
    case JStr(s) => s != ""
    case JArr(_) => true
    case JObj(_) => true
  }

  /** Truthiness of an optional property read (`obj?.key`): undefined is falsy. */
  predicate TruthyAt(m: map<string, Json>, key: string) {
    key in m && Truthy(m[key])
  }

  /** A string property read: its value when it holds a string, `None` (undefined) otherwise. */
  function StringAt(m: map<string, Json>, key: string): (r: Option<string>)
    ensures r.Some? <==> key in m && m[key].JStr?
    ensures r.Some? ==> m[key] == JStr(r.value)
  {
    if key in m && m[key].JStr? then Some(m[key].s) else None
  }

  /** One entry of a failed validation: the path of the field and the message. */
  datatype Issue = Issue(path: seq<string>, message: string)

  /** `if (cond) ctx.addIssue(issue)`, as a contribution to the issue list. */
  function When(cond: bool, issue: Issue): (r: seq<Issue>)
    ensures issue in r <==> cond
    ensures forall i :: i in r ==> i == issue
  {
    if cond then [issue] else []
  }

  /** A schema accepts its input exactly when it reports no issue. */
  predicate Accepts(issues: seq<Issue>) {
    |issues| == 0
  }

  /** An element absent from both sides occurs once when placed between them. */
  lemma OccursOnce<T>(before: seq<T>, x: T, after: seq<T>)
    requires x !in before && x !in after
    ensures multiset(before + [x] + after)[x] == 1
  {
    assert multiset(before + [x] + after) == multiset(before) + multiset{x} + multiset(after);
  }

  /** `xs` appears in `ys` in the same relative order: an order-preserving sublist. */
  predicate IsSubsequence<T(==)>(xs: seq<T>, ys: seq<T>)
    decreases |ys|
  {
    if |xs| == 0 then true
    else if |ys| == 0 then false
    else (xs[0] == ys[0] && IsSubsequence(xs[1..], ys[1..])) || IsSubsequence(xs, ys[1..])
  }

  /** Every list is a subsequence of itself. */
  lemma {:induction false} SubsequenceReflexive<T>(xs: seq<T>)
    ensures IsSubsequence(xs, xs)
  {
    if |xs| != 0 {
      SubsequenceReflexive(xs[1..]);
    }
  }

  /** A subsequence of `ys` is a subsequence of `ys` with more elements after it. */
  lemma {:induction false} SubsequenceExtend<T>(xs: seq<T>, ys: seq<T>, tail: seq<T>)
    requires IsSubsequence(xs, ys)
    ensures IsSubsequence(xs, ys + tail)
    decreases |ys|
  {
    if |xs| != 0 {
      assert (ys + tail)[1..] == ys[1..] + tail;
      if xs[0] == ys[0] && IsSubsequence(xs[1..], ys[1..]) {
        SubsequenceExtend(xs[1..], ys[1..], tail);
      } else {
        SubsequenceExtend(xs, ys[1..], tail);
      }
    }
  }

  /** `Array.prototype.filter`: the elements satisfying `keep`, in their original order. */
  function Filter<T(!new)>(xs: seq<T>, keep: T -> bool): (r: seq<T>)
    ensures |r| <= |xs|
    ensures forall x :: x in r <==> x in xs && keep(x)
  {
    if |xs| == 0 then []
    else
      var rest := Filter(xs[1..], keep);
      assert forall x :: x in xs <==> x == xs[0] || x in xs[1..];
      if keep(xs[0]) then [xs[0]] + rest else rest
  }

  /** Filtering keeps every occurrence of a kept value and none of a rejected one. */
  lemma {:induction false} FilterCounts<T(!new)>(xs: seq<T>, keep: T -> bool, x: T)
    ensures multiset(Filter(xs, keep))[x] == if keep(x) then multiset(xs)[x] else 0
  {
    if |xs| != 0 {
      FilterCounts(xs[1..], keep, x);
      assert xs == [xs[0]] + xs[1..];
      assert multiset(xs) == multiset{xs[0]} + multiset(xs[1..]);
    }
  }

  lemma {:induction false} FilterIsSubsequence<T(!new)>(xs: seq<T>, keep: T -> bool)
    ensures IsSubsequence(Filter(xs, keep), xs)
  {
    if |xs| != 0 {
      FilterIsSubsequence(xs[1..], keep);
      var r := Filter(xs, keep);
      if keep(xs[0]) {
        assert r[0] == xs[0] && r[1..] == Filter(xs[1..], keep);
      }
    }
  }

  /** Filtering a list that has no rejected element gives the list back. */
  lemma {:induction false} FilterKeepsAll<T(!new)>(xs: seq<T>, keep: T -> bool)
    requires forall x :: x in xs ==> keep(x)
    ensures Filter(xs, keep) == xs
  {
    if |xs| != 0 {
      FilterKeepsAll(xs[1..], keep);
    }
  }

  lemma {:induction false} FilterConcat<T(!new)>(xs: seq<T>, ys: seq<T>, keep: T -> bool)
    ensures Filter(xs + ys, keep) == Filter(xs, keep) + Filter(ys, keep)
  {
    if |xs| == 0 {
      assert xs + ys == ys;
    } else {
      var zs := xs + ys;
      assert zs[0] == xs[0] && zs[1..] == xs[1..] + ys;
      FilterConcat(xs[1..], ys, keep);
      assert Filter(zs, keep) == (if keep(xs[0]) then [xs[0]] else []) + Filter(zs[1..], keep);
      assert Filter(xs, keep) == (if keep(xs[0]) then [xs[0]] else []) + Filter(xs[1..], keep);
    }
  }

  /** Two tests that agree on every element of the list filter it alike. */
  lemma {:induction false} FilterEquivalent<T(!new)>(xs: seq<T>, keep: T -> bool, keep': T -> bool)
    requires forall x :: x in xs ==> keep(x) == keep'(x)
    ensures Filter(xs, keep) == Filter(xs, keep')
  {
    if |xs| != 0 {
      FilterEquivalent(xs[1..], keep, keep');
    }
  }

  /** `Array.prototype.find`: the first element satisfying `pick`, if any. */
  function Find<T>(xs: seq<T>, pick: T -> bool): (r: Option<T>)
    ensures r.Some? ==> r.value in xs && pick(r.value)
    ensures r.None? <==> forall x :: x in xs ==> !pick(x)
  {
    if |xs| == 0 then None
    else if pick(xs[0]) then Some(xs[0])
    else Find(xs[1..], pick)
  }

  /** `Find` returns the element at the first index where `pick` holds. */
  lemma {:induction false} FindIsFirst<T>(xs: seq<T>, pick: T -> bool)
    ensures Find(xs, pick).Some? ==>
              exists k :: 0 <= k < |xs| && xs[k] == Find(xs, pick).value
                          && forall j :: 0 <= j < k ==> !pick(xs[j])
  {
    if |xs| != 0 {
      if pick(xs[0]) {
        assert xs[0] == Find(xs, pick).value;
      } else if Find(xs, pick).Some? {
        FindIsFirst(xs[1..], pick);
        var k :| 0 <= k < |xs[1..]| && xs[1..][k] == Find(xs[1..], pick).value
                  && forall j :: 0 <= j < k ==> !pick(xs[1..][j]);
        assert xs[k + 1] == Find(xs, pick).value;
        assert forall j :: 1 <= j < k + 1 ==> xs[j] == xs[1..][j - 1];
      }
    }
  }
}
