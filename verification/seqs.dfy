/** Generic sequence helpers: order-preserving filtering, duplicate-free
    sequences and sums. The views of the model (low stock, out of stock,
    valid entries) are all filters, so their shared facts are proved once here. */
module Seqs {

  /** `sub` is obtained from `s` by deleting elements, keeping the order. */
  predicate IsSubsequence<T(==)>(sub: seq<T>, s: seq<T>)
    decreases |s|
  {
    || |sub| == 0
    || (&& |s| > 0
        && ((sub[0] == s[0] && IsSubsequence(sub[1..], s[1..])) || IsSubsequence(sub, s[1..])))
  }

  /** The elements of `s` that satisfy `p`, in their original order. */
  function Filter<T(==,!new)>(s: seq<T>, p: T -> bool): (r: seq<T>)
    ensures |r| <= |s|
    ensures IsSubsequence(r, s)
    ensures forall x :: x in r <==> x in s && p(x)
    ensures forall x :: multiset(r)[x] == if p(x) then multiset(s)[x] else 0
  {
    if |s| == 0 then []
    else
      var rest := Filter(s[1..], p);
      assert s == [s[0]] + s[1..];
      if p(s[0]) then
        assert ([s[0]] + rest)[1..] == rest;
        [s[0]] + rest
      else rest
  }

  /** No element occurs twice. */
  predicate Distinct<T(==)>(s: seq<T>)
  {
    forall i, j :: 0 <= i < j < |s| ==> s[i] != s[j]
  }

  /** `s` with every element that already occurred earlier removed:
      each value once, at the position of its first occurrence. */
  function FirstOccurrences<T(==,!new)>(s: seq<T>): (r: seq<T>)
    ensures Distinct(r)
    ensures forall x :: x in r <==> x in s
  {
    var r := FirstOccurrencesAfter([], s);
    assert [] + r == r;
    r
  }

  function FirstOccurrencesAfter<T(==,!new)>(seen: seq<T>, s: seq<T>): (r: seq<T>)
    requires Distinct(seen)
    ensures Distinct(seen + r)
    ensures forall x :: x in seen + r <==> x in seen || x in s
    decreases |s|
  {
    if |s| == 0 then
      assert seen + [] == seen;
      []
    else if s[0] in seen then FirstOccurrencesAfter(seen, s[1..])
    else
      var rest := FirstOccurrencesAfter(seen + [s[0]], s[1..]);
      assert seen + ([s[0]] + rest) == (seen + [s[0]]) + rest;
      [s[0]] + rest
  }

  lemma {:induction false} FirstOccurrencesAfterAppend<T(!new)>(seen: seq<T>, s: seq<T>, x: T)
    requires Distinct(seen)
    ensures FirstOccurrencesAfter(seen, s + [x])
            == FirstOccurrencesAfter(seen, s) + (if x in seen || x in s then [] else [x])
    decreases |s|
  {
    if |s| == 0 {
      assert [] + [x] == [x];
      assert [x][1..] == [];
    } else {
      var t := s + [x];
      assert t[0] == s[0];
      assert t[1..] == s[1..] + [x];
      assert x in s <==> x == s[0] || x in s[1..];
      if s[0] in seen {
        FirstOccurrencesAfterAppend(seen, s[1..], x);
      } else {
        var seen' := seen + [s[0]];
        assert x in seen' <==> x in seen || x == s[0];
        FirstOccurrencesAfterAppend(seen', s[1..], x);
        var tail := if x in seen' || x in s[1..] then [] else [x];
        assert FirstOccurrencesAfter(seen, t) == [s[0]] + (FirstOccurrencesAfter(seen', s[1..]) + tail);
        assert FirstOccurrencesAfter(seen, s) == [s[0]] + FirstOccurrencesAfter(seen', s[1..]);
      }
    }
  }

  /** Extending a sequence extends its first occurrences by the new
      element exactly when it is new. */
  lemma FirstOccurrencesAppend<T(!new)>(s: seq<T>, x: T)
    ensures FirstOccurrences(s + [x]) == FirstOccurrences(s) + (if x in s then [] else [x])
  {
    FirstOccurrencesAfterAppend([], s, x);
  }

  /** Sum of a sequence of reals. */
  function SumReal(s: seq<real>): real
  {
    if |s| == 0 then 0.0 else s[0] + SumReal(s[1..])
  }

  /** A non-empty prefix splits off its first element. */
  lemma SplitHead<T>(a: seq<T>, b: seq<T>)
    requires |a| > 0
    ensures a + b == [a[0]] + (a[1..] + b)
  {
    assert a == [a[0]] + a[1..];
  }

  /** A non-empty sequence is its prefix followed by its last element. */
  lemma InitLast<T>(s: seq<T>)
    requires |s| > 0
    ensures s[..|s| - 1] + [s[|s| - 1]] == s
  {
  }
}
