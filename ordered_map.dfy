/** A JavaScript `Map`: a finite map whose entries iterate in first-insertion order.
    `set` on a key already present replaces the value and keeps the key's position,
    `set` on a new key appends it, `delete` removes the key and keeps the order of the rest. */
module OrderedMaps {
  import opened Wrappers

  datatype OrderedMap<K, V> = OrderedMap(keys: seq<K>, vals: map<K, V>)

  /** The keys are listed once each, and exactly the keys of the map are listed. */
  ghost predicate Valid<K(!new), V(!new)>(m: OrderedMap<K, V>) {
    && Distinct(m.keys)
    && (forall k :: k in m.vals <==> k in m.keys)
  }

  function Empty<K(!new), V(!new)>(): (m: OrderedMap<K, V>)
    ensures Valid(m) && m.keys == [] && m.vals == map[]
  {
    OrderedMap([], map[])
  }

  /** `map.get(k)`. */
  function Get<K(!new), V(!new)>(m: OrderedMap<K, V>, k: K): (r: Option<V>)
    ensures r.Some? <==> k in m.vals
    ensures r.Some? ==> r.value == m.vals[k]
  {
    if k in m.vals then Some(m.vals[k]) else None
  }

  /** `map.set(k, v)`. */
  function Set<K(!new), V(!new)>(m: OrderedMap<K, V>, k: K, v: V): (r: OrderedMap<K, V>)
    requires Valid(m)
    ensures Valid(r)
  {
    if k in m.vals then OrderedMap(m.keys, m.vals[k := v])
    else OrderedMap(m.keys + [k], m.vals[k := v])
  }

  /** `set` stores the value under the key and leaves every other key alone; a key already
      present keeps its place in the iteration order, a new key goes last. */
  lemma SetMeaning<K(!new), V(!new)>(m: OrderedMap<K, V>, k: K, v: V)
    requires Valid(m)
    ensures Get(Set(m, k, v), k) == Some(v)
    ensures forall k' :: k' != k ==> Get(Set(m, k, v), k') == Get(m, k')
    ensures k in m.vals ==> Set(m, k, v).keys == m.keys
    ensures k !in m.vals ==> Set(m, k, v).keys == m.keys + [k]
  {
  }

  /** The list `s` with every element of `ks` taken out, order kept. */
  function Minus<K(!new)>(s: seq<K>, ks: set<K>): (r: seq<K>)
    ensures forall x :: x in r <==> x in s && x !in ks
    ensures |r| <= |s|
  {
    if s == [] then []
    else (if s[0] in ks then [] else [s[0]]) + Minus(s[1..], ks)
  }

  /** Every element is listed once. */
  ghost predicate Distinct<K(!new)>(s: seq<K>) {
    forall i, j :: 0 <= i < j < |s| ==> s[i] != s[j]
  }

  /** A list whose elements occur once each keeps that property under any permutation. */
  lemma {:induction false} PermutationDistinct<K(!new)>(a: seq<K>, b: seq<K>)
    requires Distinct(a) && multiset(a) == multiset(b)
    ensures Distinct(b)
  {
    forall i, j | 0 <= i < j < |b| ensures b[i] != b[j] {
      if b[i] == b[j] {
        assert b == b[..j] + b[j..];
        assert b[i] in b[..j] && b[j] in b[j..];
        assert multiset(b)[b[i]] == multiset(b[..j])[b[i]] + multiset(b[j..])[b[i]];
        DistinctOnce(a, b[i]);
      }
    }
  }

  /** In a list of distinct elements, each element occurs at most once. */
  lemma {:induction false} DistinctOnce<K(!new)>(a: seq<K>, x: K)
    requires Distinct(a)
    ensures multiset(a)[x] <= 1
  {
    if a != [] {
      assert a == [a[0]] + a[1..];
      assert Distinct(a[1..]) by {
        forall i, j | 0 <= i < j < |a[1..]| ensures a[1..][i] != a[1..][j] {
          assert a[1..][i] == a[i + 1] && a[1..][j] == a[j + 1];
        }
      }
      DistinctOnce(a[1..], x);
      if a[0] == x {
        assert x !in a[1..] by {
          forall i | 0 <= i < |a[1..]| ensures a[1..][i] != x { assert a[1..][i] == a[i + 1]; }
        }
      }
    }
  }

  lemma DistinctCons<K(!new)>(x: K, t: seq<K>)
    requires Distinct(t) && x !in t
    ensures Distinct([x] + t)
  {
    var s := [x] + t;
    forall i, j | 0 <= i < j < |s| ensures s[i] != s[j] {
      assert s[j] == t[j - 1];
      if i > 0 { assert s[i] == t[i - 1]; }
    }
  }

  lemma {:induction false} MinusDistinct<K(!new)>(s: seq<K>, ks: set<K>)
    requires Distinct(s)
    ensures Distinct(Minus(s, ks))
  {
    if s != [] {
      assert Distinct(s[1..]) by {
        forall i, j | 0 <= i < j < |s[1..]| ensures s[1..][i] != s[1..][j] {
          assert s[1..][i] == s[i + 1] && s[1..][j] == s[j + 1];
        }
      }
      MinusDistinct(s[1..], ks);
      var t := Minus(s[1..], ks);
      assert s[0] !in s[1..] by {
        forall i | 0 <= i < |s[1..]| ensures s[1..][i] != s[0] { assert s[1..][i] == s[i + 1]; }
      }
      if s[0] !in ks {
        DistinctCons(s[0], t);
      } else {
        assert Minus(s, ks) == t;
      }
    }
  }

  lemma {:induction false} MinusMinus<K(!new)>(s: seq<K>, a: set<K>, b: set<K>)
    ensures Minus(Minus(s, a), b) == Minus(s, a + b)
  {
    if s != [] {
      MinusMinus(s[1..], a, b);
      if s[0] in a {
        assert Minus(s, a) == Minus(s[1..], a);
      } else {
        var t := Minus(s[1..], a);
        assert Minus(s, a) == [s[0]] + t;
        assert ([s[0]] + t)[1..] == t;
      }
    }
  }

  lemma {:induction false} MinusNothing<K(!new)>(s: seq<K>, ks: set<K>)
    requires forall x :: x in s ==> x !in ks
    ensures Minus(s, ks) == s
  {
    if s != [] {
      MinusNothing(s[1..], ks);
      assert s == [s[0]] + s[1..];
    }
  }

  /** Removes every key of `ks` at once; `delete` is the one-key case. */
  function RemoveKeys<K(!new), V(!new)>(m: OrderedMap<K, V>, ks: set<K>): (r: OrderedMap<K, V>)
    requires Valid(m)
    ensures Valid(r)
    ensures forall k :: k in r.vals <==> k in m.vals && k !in ks
    ensures forall k :: k in r.vals ==> r.vals[k] == m.vals[k]
  {
    MinusDistinct(m.keys, ks);
    OrderedMap(Minus(m.keys, ks), m.vals - ks)
  }

  /** `map.delete(k)`: a silent no-op when `k` is absent. */
  function Delete<K(!new), V(!new)>(m: OrderedMap<K, V>, k: K): (r: OrderedMap<K, V>)
    requires Valid(m)
    ensures Valid(r)
    ensures Get(r, k) == None
    ensures forall k' :: k' != k ==> Get(r, k') == Get(m, k')
    ensures k !in m.vals ==> r == m
  {
    if k !in m.vals then MinusNothing(m.keys, {k}); assert m.vals - {k} == m.vals; RemoveKeys(m, {k})
    else RemoveKeys(m, {k})
  }

  lemma RemoveKeysTwice<K(!new), V(!new)>(m: OrderedMap<K, V>, a: set<K>, b: set<K>)
    requires Valid(m)
    ensures RemoveKeys(RemoveKeys(m, a), b) == RemoveKeys(m, a + b)
  {
    var once := RemoveKeys(m, a);
    assert once.keys == Minus(m.keys, a) && once.vals == m.vals - a;
    MinusMinus(m.keys, a, b);
    assert (m.vals - a) - b == m.vals - (a + b);
  }

  /** `Array.from(map.values())`. */
  function Values<K(!new), V(!new)>(m: OrderedMap<K, V>): (r: seq<V>)
    requires Valid(m)
    ensures |r| == |m.keys|
    ensures forall i :: 0 <= i < |r| ==> r[i] == m.vals[m.keys[i]]
    ensures forall v :: v in r <==> exists k :: k in m.vals && m.vals[k] == v
  {
    var r := seq(|m.keys|, i requires 0 <= i < |m.keys| => m.vals[m.keys[i]]);
    assert forall k :: k in m.vals ==> r[IndexOf(m.keys, k)] == m.vals[k];
    r
  }

  /** Position of a listed key. */
  function IndexOf<K(==, !new)>(s: seq<K>, k: K): (i: nat)
    requires k in s
    ensures i < |s| && s[i] == k
    ensures forall j :: 0 <= j < i ==> s[j] != k
  {
    if s[0] == k then 0 else 1 + IndexOf(s[1..], k)
  }

  /** Inserting a new key adds its value at the end of the iteration order. */
  lemma ValuesSetNew<K(!new), V(!new)>(m: OrderedMap<K, V>, k: K, v: V)
    requires Valid(m) && k !in m.vals
    ensures Values(Set(m, k, v)) == Values(m) + [v]
  {
  }

  /** Re-setting a present key changes its value in place. */
  lemma ValuesSetExisting<K(!new), V(!new)>(m: OrderedMap<K, V>, k: K, v: V)
    requires Valid(m) && k in m.vals
    ensures Values(Set(m, k, v)) == Values(m)[IndexOf(m.keys, k) := v]
  {
    var i := IndexOf(m.keys, k);
    forall j | 0 <= j < |m.keys| && j != i ensures m.keys[j] != k {
    }
  }
}
