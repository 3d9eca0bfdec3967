/** Stable sorting by a numeric key, the behaviour of JavaScript's
    `Array.prototype.sort` with a comparator `(a, b) => key(a) - key(b)`:
    ascending by key, and elements with equal keys keep their input order. */
module Sorting {
  import opened Seqs

  /** Keys never decrease along `s`. */
  ghost predicate SortedBy<T>(s: seq<T>, key: T -> real) {
    forall i, j :: 0 <= i < j < |s| ==> key(s[i]) <= key(s[j])
  }

  /** Keys strictly increase along `s`. */
  ghost predicate StrictlySortedBy<T>(s: seq<T>, key: T -> real) {
    forall i, j :: 0 <= i < j < |s| ==> key(s[i]) < key(s[j])
  }

  /** Puts `x` in front of the first element whose key is not smaller, so `x`
      stays ahead of every later element with the same key. */
  function Insert<T>(x: T, s: seq<T>, key: T -> real): (r: seq<T>)
    ensures |r| == |s| + 1
    ensures multiset(r) == multiset{x} + multiset(s)
  {
    if s == [] || key(x) <= key(s[0]) then [x] + s
    else
      assert s == [s[0]] + s[1..];
      [s[0]] + Insert(x, s[1..], key)
  }

  lemma {:induction false} InsertKeepsSorted<T>(x: T, s: seq<T>, key: T -> real)
    requires SortedBy(s, key)
    ensures SortedBy(Insert(x, s, key), key)
  {
    if s != [] && key(x) > key(s[0]) {
      var t := Insert(x, s[1..], key);
      InsertKeepsSorted(x, s[1..], key);
      forall j | 0 <= j < |t| ensures key(s[0]) <= key(t[j]) {
        assert t[j] in multiset(t);
        if t[j] != x {
          assert t[j] in multiset(s[1..]);
          var k :| 0 <= k < |s[1..]| && s[1..][k] == t[j];
          assert s[k + 1] == t[j];
        }
      }
      var r := [s[0]] + t;
      forall i, j | 0 <= i < j < |r| ensures key(r[i]) <= key(r[j]) {
        assert r[j] == t[j - 1];
        if i > 0 {
          assert r[i] == t[i - 1];
        }
      }
    }
  }

  /** Insertion sort: stable and ascending by `key`. */
  function SortBy<T>(s: seq<T>, key: T -> real): (r: seq<T>)
    ensures |r| == |s|
    ensures multiset(r) == multiset(s)
    ensures SortedBy(r, key)
  {
    if s == [] then []
    else
      var t := SortBy(s[1..], key);
      assert s == [s[0]] + s[1..];
      InsertKeepsSorted(s[0], t, key);
      Insert(s[0], t, key)
  }

  /** Sorting neither adds nor drops elements. */
  lemma SortByMembers<T>(s: seq<T>, key: T -> real)
    ensures forall i :: 0 <= i < |SortBy(s, key)| ==> SortBy(s, key)[i] in s
    ensures forall i :: 0 <= i < |s| ==> s[i] in SortBy(s, key)
  {
    var r := SortBy(s, key);
    forall i | 0 <= i < |r| ensures r[i] in s {
      assert r[i] in multiset(r);
    }
    forall i | 0 <= i < |s| ensures s[i] in r {
      assert s[i] in multiset(s);
    }
  }

  /** The elements of `s` whose key is exactly `k`, in order. */
  function KeyClass<T>(s: seq<T>, key: T -> real, k: real): seq<T> {
    if s == [] then []
    else (if key(s[0]) == k then [s[0]] else []) + KeyClass(s[1..], key, k)
  }

  lemma {:induction false} InsertKeyClass<T>(x: T, s: seq<T>, key: T -> real, k: real)
    ensures KeyClass(Insert(x, s, key), key, k)
         == (if key(x) == k then [x] else []) + KeyClass(s, key, k)
  {
    if s == [] || key(x) <= key(s[0]) {
      KeyClassCons(x, s, key, k);
    } else {
      InsertKeyClass(x, s[1..], key, k);
      assert Insert(x, s, key) == [s[0]] + Insert(x, s[1..], key);
      assert [s[0]] + s[1..] == s;
      KeyClassBehindHead(s[0], (if key(x) == k then [x] else []), Insert(x, s[1..], key), s[1..], key, k);
    }
  }

  /** Putting the same head in front of two sequences whose classes differ
      by a prefix `xs` of another key keeps that difference. */
  lemma KeyClassBehindHead<T>(y: T, xs: seq<T>, t: seq<T>, tail: seq<T>, key: T -> real, k: real)
    requires xs == [] || key(y) != k
    requires KeyClass(t, key, k) == xs + KeyClass(tail, key, k)
    ensures KeyClass([y] + t, key, k) == xs + KeyClass([y] + tail, key, k)
  {
    KeyClassCons(y, t, key, k);
    KeyClassCons(y, tail, key, k);
    var heads: seq<T> := if key(y) == k then [y] else [];
    var rest := KeyClass(tail, key, k);
    assert heads == [] || xs == [];
    assert heads + (xs + rest) == xs + (heads + rest);
  }

  /** The class of a sequence with a known first element. */
  lemma KeyClassCons<T>(y: T, t: seq<T>, key: T -> real, k: real)
    ensures KeyClass([y] + t, key, k) == (if key(y) == k then [y] else []) + KeyClass(t, key, k)
  {
    assert ([y] + t)[1..] == t;
  }

  /** The class of `k` holds exactly the elements of `s` whose key is `k`. */
  lemma {:induction false} KeyClassMembers<T>(s: seq<T>, key: T -> real, k: real)
    ensures forall x :: x in KeyClass(s, key, k) <==> x in s && key(x) == k
  {
    if s != [] {
      KeyClassMembers(s[1..], key, k);
      assert s == [s[0]] + s[1..];
    }
  }

  lemma KeyClassMember<T>(s: seq<T>, key: T -> real, k: real, x: T)
    requires x in KeyClass(s, key, k)
    ensures x in s && key(x) == k
  {
    KeyClassMembers(s, key, k);
  }

  /** A class keeps the order of the sequence it is drawn from. */
  lemma {:induction false} KeyClassRanked<T>(s: seq<T>, key: T -> real, rank: T -> int, k: real)
    requires StrictlyRanked(s, rank)
    ensures StrictlyRanked(KeyClass(s, key, k), rank)
  {
    if s != [] {
      var rest := KeyClass(s[1..], key, k);
      assert StrictlyRanked(s[1..], rank) by {
        forall i, j | 0 <= i < j < |s[1..]| ensures rank(s[1..][i]) < rank(s[1..][j]) {
          assert s[1..][i] == s[i + 1] && s[1..][j] == s[j + 1];
        }
      }
      KeyClassRanked(s[1..], key, rank, k);
      var c := KeyClass(s, key, k);
      if key(s[0]) == k {
        assert c == [s[0]] + rest;
        forall i, j | 0 <= i < j < |c| ensures rank(c[i]) < rank(c[j]) {
          assert c[j] == rest[j - 1];
          if i == 0 {
            assert rest[j - 1] in rest;
            var tail := s[1..];
            KeyClassMember(tail, key, k, rest[j - 1]);
            var n :| 0 <= n < |tail| && tail[n] == rest[j - 1];
            assert s[n + 1] == c[j];
          } else {
            assert c[i] == rest[i - 1];
          }
        }
      } else {
        assert c == rest;
      }
    }
  }

  /** Two elements of `t` sharing a key, the first one earlier: when that
      key's class is ranked, the earlier one has the smaller rank. */
  lemma {:induction false} KeyClassRankedPair<T>(t: seq<T>, key: T -> real, rank: T -> int, i: nat, j: nat)
    requires i < j < |t| && key(t[i]) == key(t[j])
    requires StrictlyRanked(KeyClass(t, key, key(t[i])), rank)
    ensures rank(t[i]) < rank(t[j])
    decreases i
  {
    var k := key(t[i]);
    var rest := KeyClass(t[1..], key, k);
    var c := KeyClass(t, key, k);
    assert t[1..][j - 1] == t[j];
    if i == 0 {
      KeyClassMembers(t[1..], key, k);
      assert t[j] in rest;
      var b :| 0 <= b < |rest| && rest[b] == t[j];
      assert c == [t[0]] + rest;
      assert c[0] == t[0] && c[b + 1] == t[j];
    } else {
      assert t[1..][i - 1] == t[i];
      assert c == (if key(t[0]) == k then [t[0]] else []) + rest;
      assert StrictlyRanked(rest, rank) by {
        var d := |c| - |rest|;
        forall a, b | 0 <= a < b < |rest| ensures rank(rest[a]) < rank(rest[b]) {
          assert c[a + d] == rest[a] && c[b + d] == rest[b];
        }
      }
      KeyClassRankedPair(t[1..], key, rank, i - 1, j - 1);
    }
  }

  /** Stability: among the elements sharing any one key value, the sorted
      sequence lists them in exactly their input order. */
  lemma {:induction false} SortIsStable<T>(s: seq<T>, key: T -> real, k: real)
    ensures KeyClass(SortBy(s, key), key, k) == KeyClass(s, key, k)
  {
    if s != [] {
      SortIsStable(s[1..], key, k);
      InsertKeyClass(s[0], SortBy(s[1..], key), key, k);
    }
  }

  /** Sorting depends on the key only through its values on the elements. */
  lemma {:induction false} SortByAgreeingKeys<T>(s: seq<T>, key1: T -> real, key2: T -> real)
    requires forall i :: 0 <= i < |s| ==> key1(s[i]) == key2(s[i])
    ensures SortBy(s, key1) == SortBy(s, key2)
  {
    if s != [] {
      SortByAgreeingKeys(s[1..], key1, key2);
      var t := SortBy(s[1..], key1);
      forall i | 0 <= i < |t| ensures key1(t[i]) == key2(t[i]) {
        assert t[i] in multiset(s[1..]);
        var j :| 0 <= j < |s[1..]| && s[1..][j] == t[i];
        assert s[j + 1] == t[i];
      }
      InsertAgreeingKeys(s[0], t, key1, key2);
    }
  }

  lemma {:induction false} InsertAgreeingKeys<T>(x: T, s: seq<T>, key1: T -> real, key2: T -> real)
    requires key1(x) == key2(x)
    requires forall i :: 0 <= i < |s| ==> key1(s[i]) == key2(s[i])
    ensures Insert(x, s, key1) == Insert(x, s, key2)
  {
    if s != [] && key1(x) > key1(s[0]) {
      InsertAgreeingKeys(x, s[1..], key1, key2);
    }
  }

  /** A sorted sequence whose keys are pairwise distinct is strictly sorted. */
  lemma SortedDistinctKeysIsStrict<T>(s: seq<T>, key: T -> real)
    requires SortedBy(s, key)
    requires forall i, j :: 0 <= i < j < |s| ==> key(s[i]) != key(s[j])
    ensures StrictlySortedBy(s, key)
  {
  }

  lemma HeadIsLeast<T>(s: seq<T>, key: T -> real, i: int)
    requires StrictlySortedBy(s, key)
    requires 0 <= i < |s|
    ensures key(s[0]) <= key(s[i])
    ensures i > 0 ==> key(s[0]) < key(s[i])
  {
  }

  /** A strictly sorted sequence is determined by its multiset of elements. */
  lemma {:induction false} StrictlySortedUnique<T>(a: seq<T>, b: seq<T>, key: T -> real)
    requires StrictlySortedBy(a, key) && StrictlySortedBy(b, key)
    requires multiset(a) == multiset(b)
    ensures a == b
  {
    if a != [] {
      assert |b| == |a| by {
        assert |multiset(a)| == |a| && |multiset(b)| == |b|;
      }
      assert a[0] in multiset(b);
      assert b[0] in multiset(a);
      var i :| 0 <= i < |b| && b[i] == a[0];
      var j :| 0 <= j < |a| && a[j] == b[0];
      HeadIsLeast(b, key, i);
      HeadIsLeast(a, key, j);
      assert i == 0;
      assert a[0] == b[0];
      MultisetTails(a, b);
      StrictlySortedUnique(a[1..], b[1..], key);
    }
  }

  /** Removing equal heads from two permutations leaves permutations. */
  lemma MultisetTails<T>(a: seq<T>, b: seq<T>)
    requires a != [] && b != [] && a[0] == b[0]
    requires multiset(a) == multiset(b)
    ensures multiset(a[1..]) == multiset(b[1..])
  {
    assert a == [a[0]] + a[1..] && b == [b[0]] + b[1..];
    assert multiset(a) == multiset{a[0]} + multiset(a[1..]);
    assert multiset(b) == multiset{b[0]} + multiset(b[1..]);
    forall x ensures multiset(a[1..])[x] == multiset(b[1..])[x] {
      assert multiset(a)[x] == multiset{a[0]}[x] + multiset(a[1..])[x];
      assert multiset(b)[x] == multiset{b[0]}[x] + multiset(b[1..])[x];
    }
  }
}
