/** `Array.prototype.filter`: the elements that pass a test, in their original order. */
module Filters {

  function Filter<T(!new)>(s: seq<T>, keep: T -> bool): (r: seq<T>)
    ensures |r| <= |s|
    ensures forall x :: x in r <==> x in s && keep(x)
  {
    if s == [] then []
    else (if keep(s[0]) then [s[0]] else []) + Filter(s[1..], keep)
  }

  /** `idx` lists, in increasing order, exactly the positions of `s` whose element passes
      `keep`, and `r` holds the elements at those positions. This determines `r`: its order,
      and how many times each element occurs in it. */
  ghost predicate SelectsPositions<T(!new)>(s: seq<T>, keep: T -> bool, r: seq<T>, idx: seq<nat>) {
    && Picks(s, keep, r, idx)
    && Increasing(idx)
    && Covers(s, keep, idx)
  }

  /** `r` is the elements of `s` at the positions `idx`, and each of them passes. */
  ghost predicate Picks<T(!new)>(s: seq<T>, keep: T -> bool, r: seq<T>, idx: seq<nat>) {
    && |idx| == |r|
    && forall j :: 0 <= j < |idx| ==> idx[j] < |s| && r[j] == s[idx[j]] && keep(s[idx[j]])
  }

  ghost predicate Increasing(idx: seq<nat>) {
    forall a, b :: 0 <= a < b < |idx| ==> idx[a] < idx[b]
  }

  /** Every position of a passing element is listed. */
  ghost predicate Covers<T(!new)>(s: seq<T>, keep: T -> bool, idx: seq<nat>) {
    forall i :: 0 <= i < |s| && keep(s[i]) ==> i in idx
  }

  /** The filter keeps every passing element, once, at its place in the input order. */
  lemma {:induction false} FilterPositions<T(!new)>(s: seq<T>, keep: T -> bool)
    ensures exists idx :: SelectsPositions(s, keep, Filter(s, keep), idx)
  {
    if s == [] {
      assert SelectsPositions(s, keep, Filter(s, keep), []);
    } else {
      FilterPositions(s[1..], keep);
      var rest :| SelectsPositions(s[1..], keep, Filter(s[1..], keep), rest);
      var idx := PositionsCons(s, keep, rest);
    }
  }

  /** Every position one further on. */
  function Shift(idx: seq<nat>): (r: seq<nat>)
    ensures |r| == |idx| && forall j :: 0 <= j < |idx| ==> r[j] == idx[j] + 1
  {
    seq(|idx|, j requires 0 <= j < |idx| => idx[j] + 1)
  }

  /** The tail's positions moved one further on, preceded by 0 when the head passes. */
  lemma PositionsCons<T(!new)>(s: seq<T>, keep: T -> bool, rest: seq<nat>) returns (idx: seq<nat>)
    requires s != [] && SelectsPositions(s[1..], keep, Filter(s[1..], keep), rest)
    ensures SelectsPositions(s, keep, Filter(s, keep), idx)
  {
    idx := if keep(s[0]) then [0] + Shift(rest) else Shift(rest);
    var r := Filter(s[1..], keep);
    assert Filter(s, keep) == (if keep(s[0]) then [s[0]] else []) + r;
    PicksCons(s, keep, r, rest);
    IncreasingCons(keep(s[0]), rest);
    CoversCons(s, keep, rest);
  }

  lemma PicksCons<T(!new)>(s: seq<T>, keep: T -> bool, r: seq<T>, rest: seq<nat>)
    requires s != [] && Picks(s[1..], keep, r, rest)
    ensures Picks(s, keep, (if keep(s[0]) then [s[0]] else []) + r, if keep(s[0]) then [0] + Shift(rest) else Shift(rest))
  {
    var idx := if keep(s[0]) then [0] + Shift(rest) else Shift(rest);
    var r' := (if keep(s[0]) then [s[0]] else []) + r;
    var d := if keep(s[0]) then 1 else 0;
    forall j | 0 <= j < |idx| ensures idx[j] < |s| && r'[j] == s[idx[j]] && keep(s[idx[j]]) {
      if j >= d {
        assert idx[j] == rest[j - d] + 1 && r'[j] == r[j - d];
        assert s[1..][rest[j - d]] == s[rest[j - d] + 1];
      }
    }
  }

  lemma IncreasingCons(head: bool, rest: seq<nat>)
    requires Increasing(rest)
    ensures Increasing(if head then [0] + Shift(rest) else Shift(rest))
  {
  }

  lemma CoversCons<T(!new)>(s: seq<T>, keep: T -> bool, rest: seq<nat>)
    requires s != [] && Covers(s[1..], keep, rest)
    ensures Covers(s, keep, if keep(s[0]) then [0] + Shift(rest) else Shift(rest))
  {
    var idx := if keep(s[0]) then [0] + Shift(rest) else Shift(rest);
    var d := if keep(s[0]) then 1 else 0;
    forall i | 0 <= i < |s| && keep(s[i]) ensures i in idx {
      if i > 0 {
        assert s[1..][i - 1] == s[i];
        var k :| 0 <= k < |rest| && rest[k] == i - 1;
        assert idx[k + d] == i;
      }
    }
  }

  /** Filtering a concatenation filters each part: one more element adds at most itself at
      the end. */
  lemma {:induction false} FilterAppend<T(!new)>(s: seq<T>, t: seq<T>, keep: T -> bool)
    ensures Filter(s + t, keep) == Filter(s, keep) + Filter(t, keep)
  {
    if s != [] {
      FilterAppend(s[1..], t, keep);
      assert (s + t)[1..] == s[1..] + t;
    } else {
      assert s + t == t;
    }
  }
}
