/** `Array.prototype.filter` and the case-insensitive `includes` test the search boxes use. */
module Filtering {
  import opened Strings

  /** `xs.filter(keep)`: the kept elements, in their original order. */
  function Filter<T>(xs: seq<T>, keep: T -> bool): (ys: seq<T>)
    ensures |ys| <= |xs|
    ensures forall y :: y in ys ==> y in xs && keep(y)
    ensures forall x :: x in xs && keep(x) ==> x in ys
  {
    if |xs| == 0 then []
    else (if keep(xs[0]) then [xs[0]] else []) + Filter(xs[1..], keep)
  }

  /** A single element is kept exactly when it passes the test. */
  lemma FilterOne<T>(x: T, keep: T -> bool)
    ensures Filter([x], keep) == if keep(x) then [x] else []
  {
    assert [x][1..] == [];
  }

  /** Filtering a concatenation filters each part and keeps them in order. */
  lemma {:induction false} FilterConcat<T>(xs: seq<T>, ys: seq<T>, keep: T -> bool)
    ensures Filter(xs + ys, keep) == Filter(xs, keep) + Filter(ys, keep)
    decreases |xs|
  {
    if |xs| == 0 {
      assert xs + ys == ys;
    } else {
      FilterConcat(xs[1..], ys, keep);
      assert (xs + ys)[0] == xs[0];
      assert (xs + ys)[1..] == xs[1..] + ys;
    }
  }

  /** A filter that keeps every element returns the sequence unchanged. */
  lemma {:induction false} FilterKeepsAll<T>(xs: seq<T>, keep: T -> bool)
    requires forall x :: x in xs ==> keep(x)
    ensures Filter(xs, keep) == xs
  {
    if |xs| > 0 {
      FilterKeepsAll(xs[1..], keep);
      assert [xs[0]] + xs[1..] == xs;
    }
  }

  /** `value.toLowerCase().includes(search.toLowerCase())`. */
  predicate MatchesIgnoringCase(value: string, search: string)
    ensures MatchesIgnoringCase(value, search) <==> exists i :: OccursAt(ToLower(value), ToLower(search), i)
    ensures MatchesIgnoringCase(value, search) ==> |search| <= |value|
  {
    IncludesIff(ToLower(value), ToLower(search));
    Includes(ToLower(value), ToLower(search))
  }

  /** The empty search text matches every value. */
  lemma EmptySearchMatches(value: string)
    ensures MatchesIgnoringCase(value, "")
  {
    assert ToLower("") == "";
  }

  /** Matching ignores the case of the search text's letters. */
  lemma MatchIgnoresSearchCase(value: string, search: string)
    ensures MatchesIgnoringCase(value, search) == MatchesIgnoringCase(value, ToLower(search))
  {
    assert ToLower(ToLower(search)) == ToLower(search);
  }
}
