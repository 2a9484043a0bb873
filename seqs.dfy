/** `Array.prototype.find` and `Array.prototype.filter` over immutable
    sequences, with the properties the console's views rely on. */
module Seqs {

  datatype Option<T> = None | Some(value: T)

  /** `s.find(pred)`: the first element satisfying `pred`, or None when
      there is none. */
  function Find<T(==)>(s: seq<T>, pred: T -> bool): (r: Option<T>)
    ensures r.None? <==> forall i :: 0 <= i < |s| ==> !pred(s[i])
    ensures r.Some? ==> exists i :: FirstMatch(s, pred, i) && s[i] == r.value
  {
    if s == [] then None
    else if pred(s[0]) then
      assert FirstMatch(s, pred, 0);
      Some(s[0])
    else
      var r := Find(s[1..], pred);
      assert forall i :: 0 <= i < |s| - 1 ==> s[1..][i] == s[i + 1];
      if r.Some? then
        var i :| FirstMatch(s[1..], pred, i) && s[1..][i] == r.value;
        assert FirstMatch(s, pred, i + 1);
        r
      else
        r
  }

  /** Index `i` holds the first element of `s` that satisfies `pred`. */
  predicate FirstMatch<T>(s: seq<T>, pred: T -> bool, i: int) {
    0 <= i < |s| && pred(s[i]) && forall j :: 0 <= j < i ==> !pred(s[j])
  }

  /** There is at most one first match. */
  lemma FirstMatchUnique<T>(s: seq<T>, pred: T -> bool, i: int, j: int)
    requires FirstMatch(s, pred, i) && FirstMatch(s, pred, j)
    ensures i == j
  {
  }

  /** Whatever Find returns is the element at the first matching index. */
  lemma FindIsFirst<T>(s: seq<T>, pred: T -> bool, i: int)
    requires FirstMatch(s, pred, i)
    ensures Find(s, pred) == Some(s[i])
  {
    var r := Find(s, pred);
    var k :| FirstMatch(s, pred, k) && s[k] == r.value;
    FirstMatchUnique(s, pred, i, k);
  }

  /** `xs` can be obtained from `ys` by deleting elements, keeping the order
      of the rest. */
  ghost predicate IsSubsequence<T>(xs: seq<T>, ys: seq<T>)
    decreases |ys|
  {
    if xs == [] then true
    else if ys == [] then false
    else (xs[0] == ys[0] && IsSubsequence(xs[1..], ys[1..])) || IsSubsequence(xs, ys[1..])
  }

  /** `s.filter(keep)`: the elements of `s` for which `keep` holds, in their
      original order. */
  function Filter<T>(s: seq<T>, keep: T -> bool): seq<T> {
    if s == [] then []
    else if keep(s[0]) then [s[0]] + Filter(s[1..], keep)
    else Filter(s[1..], keep)
  }

  /** A filter deletes elements and keeps the order of the rest. */
  lemma {:induction false} FilterSubsequence<T>(s: seq<T>, keep: T -> bool)
    ensures IsSubsequence(Filter(s, keep), s)
  {
    if s != [] {
      FilterSubsequence(s[1..], keep);
      var rest := Filter(s[1..], keep);
      if keep(s[0]) {
        assert ([s[0]] + rest)[1..] == rest;
      }
    }
  }

  /** A filter keeps each element satisfying `keep` as often as it occurs in
      `s`, and drops every other element. */
  lemma {:induction false} FilterCounts<T>(s: seq<T>, keep: T -> bool)
    ensures forall x :: multiset(Filter(s, keep))[x] == if keep(x) then multiset(s)[x] else 0
  {
    if s != [] {
      FilterCounts(s[1..], keep);
      assert s == [s[0]] + s[1..];
    }
  }

  /** The elements of a filter are the elements of `s` satisfying `keep`. */
  lemma FilterMembers<T>(s: seq<T>, keep: T -> bool)
    ensures forall x :: x in Filter(s, keep) <==> x in s && keep(x)
  {
    FilterCounts(s, keep);
    forall x ensures x in Filter(s, keep) <==> x in s && keep(x) {
      assert x in Filter(s, keep) <==> multiset(Filter(s, keep))[x] > 0;
      assert x in s <==> multiset(s)[x] > 0;
    }
  }

  /** Filtering the extension of `s` by one element. */
  lemma {:induction false} FilterSnoc<T>(s: seq<T>, x: T, keep: T -> bool)
    ensures Filter(s + [x], keep) == Filter(s, keep) + (if keep(x) then [x] else [])
  {
    if s == [] {
      assert [] + [x] == [x];
    } else {
      assert (s + [x])[0] == s[0];
      assert (s + [x])[1..] == s[1..] + [x];
      FilterSnoc(s[1..], x, keep);
    }
  }

  /** A filter that keeps every element of `s` returns `s` itself. */
  lemma {:induction false} FilterKeepsAll<T>(s: seq<T>, keep: T -> bool)
    requires forall i :: 0 <= i < |s| ==> keep(s[i])
    ensures Filter(s, keep) == s
  {
    if s != [] {
      FilterKeepsAll(s[1..], keep);
      assert s == [s[0]] + s[1..];
    }
  }

  /** Filters whose predicates agree on the elements of `s` give the same result. */
  lemma {:induction false} FilterCongruent<T>(s: seq<T>, keep1: T -> bool, keep2: T -> bool)
    requires forall i :: 0 <= i < |s| ==> keep1(s[i]) == keep2(s[i])
    ensures Filter(s, keep1) == Filter(s, keep2)
  {
    if s != [] {
      FilterCongruent(s[1..], keep1, keep2);
    }
  }

  /** The indices of `s` whose element satisfies `keep`. */
  ghost function MatchingIndices<T>(s: seq<T>, keep: T -> bool): set<int> {
    set i | 0 <= i < |s| && keep(s[i])
  }

  /** Extending `s` by one element adds at most its index to the matching ones. */
  lemma MatchingIndicesSnoc<T>(s: seq<T>, x: T, keep: T -> bool)
    ensures MatchingIndices(s + [x], keep) ==
      MatchingIndices(s, keep) + (if keep(x) then {|s|} else {})
    ensures |MatchingIndices(s + [x], keep)| ==
      |MatchingIndices(s, keep)| + (if keep(x) then 1 else 0)
  {
    var before, after := MatchingIndices(s, keep), MatchingIndices(s + [x], keep);
    var added: set<int> := if keep(x) then {|s|} else {};
    forall i ensures i in after <==> i in before + added {
      if 0 <= i < |s| {
        assert (s + [x])[i] == s[i];
      }
    }
    assert after == before + added;
    assert before * added == {};
  }

  /** The length of a filter is the number of matching positions. */
  lemma {:induction false} FilterLength<T>(s: seq<T>, keep: T -> bool)
    ensures |Filter(s, keep)| == |MatchingIndices(s, keep)|
    decreases |s|
  {
    if s != [] {
      var init, x := s[..|s| - 1], s[|s| - 1];
      assert s == init + [x];
      FilterLength(init, keep);
      FilterSnoc(init, x, keep);
      MatchingIndicesSnoc(init, x, keep);
    }
  }
}
