/** `Array.prototype.sort` with a comparator of the form `(a, b) => key(b) - key(a)`, as the
    source uses it for error frequencies, metrics and alerts. Since ES2019 the sort is stable,
    so the result is the elements in non-increasing key order, equal keys in their original
    order. The model is an insertion sort that inserts each element ahead of the equal keys
    already placed behind it. */
module StableSort {

  /** Non-increasing by key. */
  ghost predicate SortedDesc<T>(s: seq<T>, key: T -> int) {
    forall i, j :: 0 <= i < j < |s| ==> key(s[i]) >= key(s[j])
  }

  /** The elements of `s` whose key is `c`, in their order in `s`. */
  function WithKey<T>(s: seq<T>, key: T -> int, c: int): seq<T> {
    if s == [] then []
    else (if key(s[0]) == c then [s[0]] else []) + WithKey(s[1..], key, c)
  }

  lemma SortedTail<T>(s: seq<T>, key: T -> int)
    requires s != [] && SortedDesc(s, key)
    ensures SortedDesc(s[1..], key)
  {
    forall i, j | 0 <= i < j < |s[1..]| ensures key(s[1..][i]) >= key(s[1..][j]) {
      assert s[1..][i] == s[i + 1] && s[1..][j] == s[j + 1];
    }
  }

  lemma SortedCons<T>(h: T, rest: seq<T>, key: T -> int)
    requires SortedDesc(rest, key)
    requires forall y :: y in rest ==> key(h) >= key(y)
    ensures SortedDesc([h] + rest, key)
  {
    var r := [h] + rest;
    forall i, j | 0 <= i < j < |r| ensures key(r[i]) >= key(r[j]) {
      assert r[j] == rest[j - 1];
      if i > 0 { assert r[i] == rest[i - 1]; } else { assert rest[j - 1] in rest; }
    }
  }

  /** Places `x` in front of the first element whose key is not greater than its own. */
  function Insert<T>(x: T, s: seq<T>, key: T -> int): seq<T> {
    if s == [] || key(s[0]) <= key(x) then [x] + s
    else [s[0]] + Insert(x, s[1..], key)
  }

  lemma {:induction false} InsertSorted<T>(x: T, s: seq<T>, key: T -> int)
    requires SortedDesc(s, key)
    ensures multiset(Insert(x, s, key)) == multiset(s) + multiset{x}
    ensures SortedDesc(Insert(x, s, key), key)
  {
    if s == [] || key(s[0]) <= key(x) {
      SortedCons(x, s, key);
    } else {
      SortedTail(s, key);
      InsertSorted(x, s[1..], key);
      var rest := Insert(x, s[1..], key);
      InsertBound(x, s, rest, key);
      SortedCons(s[0], rest, key);
      assert s == [s[0]] + s[1..];
    }
  }

  lemma InsertBound<T>(x: T, s: seq<T>, rest: seq<T>, key: T -> int)
    requires s != [] && SortedDesc(s, key) && key(s[0]) > key(x)
    requires multiset(rest) == multiset(s[1..]) + multiset{x}
    ensures forall y :: y in rest ==> key(s[0]) >= key(y)
  {
    forall y | y in rest ensures key(s[0]) >= key(y) {
      assert y in multiset(rest);
      if y != x {
        assert y in multiset(s[1..]);
        var k :| 0 <= k < |s[1..]| && s[1..][k] == y;
        assert s[k + 1] == y;
      }
    }
  }

  /** `xs.sort((a, b) => key(b) - key(a))`: a permutation of `xs`, sorted by non-increasing key. */
  function SortDesc<T(==)>(xs: seq<T>, key: T -> int): (r: seq<T>)
    ensures multiset(r) == multiset(xs)
    ensures |r| == |xs|
    ensures SortedDesc(r, key)
  {
    if xs == [] then []
    else
      var sorted := SortDesc(xs[1..], key);
      InsertSorted(xs[0], sorted, key);
      var r := Insert(xs[0], sorted, key);
      assert xs == [xs[0]] + xs[1..];
      assert multiset(xs) == multiset{xs[0]} + multiset(xs[1..]);
      assert |r| == |multiset(r)|;
      r
  }

  lemma WithKeyCons<T>(h: T, t: seq<T>, key: T -> int, c: int)
    ensures WithKey([h] + t, key, c) == (if key(h) == c then [h] else []) + WithKey(t, key, c)
  {
    assert ([h] + t)[0] == h && ([h] + t)[1..] == t;
  }

  lemma {:induction false} InsertWithKey<T>(x: T, s: seq<T>, key: T -> int, c: int)
    requires SortedDesc(s, key)
    ensures WithKey(Insert(x, s, key), key, c) == (if key(x) == c then [x] else []) + WithKey(s, key, c)
  {
    if s == [] || key(s[0]) <= key(x) {
      WithKeyCons(x, s, key, c);
    } else {
      SortedTail(s, key);
      InsertWithKey(x, s[1..], key, c);
      WithKeyCons(s[0], Insert(x, s[1..], key), key, c);
      assert s == [s[0]] + s[1..];
      WithKeyCons(s[0], s[1..], key, c);
    }
  }

  /** Stability: for every key value, the elements carrying it keep their relative order. */
  lemma {:induction false} SortDescStable<T>(xs: seq<T>, key: T -> int, c: int)
    ensures WithKey(SortDesc(xs, key), key, c) == WithKey(xs, key, c)
  {
    if xs != [] {
      SortDescStable(xs[1..], key, c);
      InsertWithKey(xs[0], SortDesc(xs[1..], key), key, c);
    }
  }

  /** Elements with equal keys appear in increasing `rank`. */
  ghost predicate TiesInOrder<T>(s: seq<T>, key: T -> int, rank: T -> int) {
    forall i, j :: 0 <= i < j < |s| && key(s[i]) == key(s[j]) ==> rank(s[i]) < rank(s[j])
  }

  lemma TiesTail<T>(s: seq<T>, key: T -> int, rank: T -> int)
    requires s != [] && TiesInOrder(s, key, rank)
    ensures TiesInOrder(s[1..], key, rank)
  {
    forall i, j | 0 <= i < j < |s[1..]| && key(s[1..][i]) == key(s[1..][j])
      ensures rank(s[1..][i]) < rank(s[1..][j])
    {
      assert s[1..][i] == s[i + 1] && s[1..][j] == s[j + 1];
    }
  }

  lemma TiesCons<T>(h: T, rest: seq<T>, key: T -> int, rank: T -> int)
    requires TiesInOrder(rest, key, rank)
    requires forall y :: y in rest && key(y) == key(h) ==> rank(h) < rank(y)
    ensures TiesInOrder([h] + rest, key, rank)
  {
    var r := [h] + rest;
    forall i, j | 0 <= i < j < |r| && key(r[i]) == key(r[j]) ensures rank(r[i]) < rank(r[j]) {
      assert r[j] == rest[j - 1];
      if i > 0 { assert r[i] == rest[i - 1]; } else { assert rest[j - 1] in rest; }
    }
  }

  /** An element kept ahead of `x` precedes, in `rank`, every equal-key element behind it. */
  lemma InsertHeadTies<T>(x: T, s: seq<T>, rest: seq<T>, key: T -> int, rank: T -> int)
    requires s != [] && key(s[0]) > key(x) && TiesInOrder(s, key, rank)
    requires multiset(rest) == multiset(s[1..]) + multiset{x}
    ensures forall y :: y in rest && key(y) == key(s[0]) ==> rank(s[0]) < rank(y)
  {
    forall y | y in rest && key(y) == key(s[0]) ensures rank(s[0]) < rank(y) {
      assert y in multiset(rest);
      assert y != x;
      assert y in multiset(s[1..]);
      var k :| 0 <= k < |s[1..]| && s[1..][k] == y;
      assert s[k + 1] == y;
    }
  }

  lemma {:induction false} InsertTies<T>(x: T, s: seq<T>, key: T -> int, rank: T -> int)
    requires SortedDesc(s, key) && TiesInOrder(s, key, rank)
    requires forall y :: y in s ==> rank(x) < rank(y)
    ensures TiesInOrder(Insert(x, s, key), key, rank)
  {
    if s == [] || key(s[0]) <= key(x) {
      TiesCons(x, s, key, rank);
    } else {
      SortedTail(s, key);
      TiesTail(s, key, rank);
      InsertTies(x, s[1..], key, rank);
      InsertSorted(x, s[1..], key);
      var rest := Insert(x, s[1..], key);
      InsertHeadTies(x, s, rest, key, rank);
      TiesCons(s[0], rest, key, rank);
    }
  }

  /** When the input is listed in increasing `rank`, equal keys come out in increasing `rank`:
      the stable sort breaks ties by original position. */
  lemma {:induction false} SortDescTies<T>(xs: seq<T>, key: T -> int, rank: T -> int)
    requires forall i, j :: 0 <= i < j < |xs| ==> rank(xs[i]) < rank(xs[j])
    ensures TiesInOrder(SortDesc(xs, key), key, rank)
  {
    if xs != [] {
      var rest := xs[1..];
      assert forall i, j :: 0 <= i < j < |rest| ==> rest[i] == xs[i + 1] && rest[j] == xs[j + 1];
      SortDescTies(rest, key, rank);
      var sorted := SortDesc(rest, key);
      forall y | y in sorted ensures rank(xs[0]) < rank(y) {
        assert y in multiset(rest);
        var k :| 0 <= k < |rest| && rest[k] == y;
        assert xs[k + 1] == y;
      }
      InsertTies(xs[0], sorted, key, rank);
    }
  }

  /** `slice(0, n)` for `n >= 0`: the first `n` elements, or all of them if there are fewer. */
  function Take<T>(s: seq<T>, n: nat): (r: seq<T>)
    ensures |r| == if n < |s| then n else |s|
    ensures r <= s
  {
    if n < |s| then s[..n] else s
  }

  /** An element of a sorted list that is cut off by `Take` has a key no greater than any kept one. */
  lemma TakeOmitted<T>(s: seq<T>, key: T -> int, n: nat, y: T)
    requires SortedDesc(s, key) && y in s && y !in Take(s, n)
    ensures forall e :: e in Take(s, n) ==> key(e) >= key(y)
  {
    var j :| 0 <= j < |s| && s[j] == y;
    forall e | e in Take(s, n) ensures key(e) >= key(y) {
      var i :| 0 <= i < |Take(s, n)| && Take(s, n)[i] == e;
      assert s[i] == e;
    }
  }

  lemma TakeKeepsOrder<T>(s: seq<T>, key: T -> int, rank: T -> int, n: nat)
    requires SortedDesc(s, key) && TiesInOrder(s, key, rank)
    ensures SortedDesc(Take(s, n), key) && TiesInOrder(Take(s, n), key, rank)
  {
    var t := Take(s, n);
    assert forall i :: 0 <= i < |t| ==> t[i] == s[i];
  }
}
