/** Sequence helpers shared by the chart models: optional values,
    order-preserving filtering, duplicate-freedom and repetition. */
module Seqs {

  /** A value that may be absent: JavaScript `undefined`, a pandas `KeyError`,
      a chart that draws nothing. */
  datatype Option<+T> = None | Some(value: T)

  function Min(a: int, b: int): int { if a <= b then a else b }

  function Max(a: int, b: int): int { if a >= b then a else b }

  /** The elements of `s` that satisfy `p`, in their original order
      (`Array.prototype.filter`). */
  function Filter<T>(s: seq<T>, p: T -> bool): (r: seq<T>)
    ensures |r| <= |s|
    ensures forall i :: 0 <= i < |r| ==> p(r[i])
    ensures forall i :: 0 <= i < |r| ==> r[i] in s
    ensures forall i :: 0 <= i < |s| && p(s[i]) ==> s[i] in r
  {
    if s == [] then []
    else if p(s[0]) then [s[0]] + Filter(s[1..], p)
    else Filter(s[1..], p)
  }

  /** `idx` lists positions below `n` in strictly increasing order. */
  ghost predicate StrictlyIncreasing(idx: seq<int>, n: int) {
    && (forall k :: 0 <= k < |idx| ==> 0 <= idx[k] < n)
    && (forall k, l :: 0 <= k < l < |idx| ==> idx[k] < idx[l])
  }

  /** `Filter` keeps exactly the positions whose element satisfies `p`, and
      keeps them in input order: the k-th kept element is the one at `idx[k]`. */
  lemma {:induction false} FilterPositions<T>(s: seq<T>, p: T -> bool) returns (idx: seq<int>)
    ensures |idx| == |Filter(s, p)|
    ensures StrictlyIncreasing(idx, |s|)
    ensures forall k :: 0 <= k < |idx| ==> Filter(s, p)[k] == s[idx[k]]
    ensures forall j :: 0 <= j < |s| && p(s[j]) ==> j in idx
  {
    if s == [] {
      idx := [];
    } else {
      var rest := FilterPositions(s[1..], p);
      var tail := Filter(s[1..], p);
      var shifted := ShiftPositions(s, rest, tail);
      if p(s[0]) {
        idx := [0] + shifted;
        ConsPositions(s, p, tail, shifted);
      } else {
        idx := shifted;
        assert Filter(s, p) == tail;
      }
      forall j | 0 <= j < |s| && p(s[j]) ensures j in idx {
        if j > 0 {
          assert s[1..][j - 1] == s[j];
          assert j in shifted;
        }
      }
    }
  }

  /** When the head is kept, position 0 goes in front of the shifted tail positions. */
  lemma ConsPositions<T>(s: seq<T>, p: T -> bool, tail: seq<T>, shifted: seq<int>)
    requires s != [] && p(s[0])
    requires tail == Filter(s[1..], p)
    requires |shifted| == |tail|
    requires StrictlyIncreasing(shifted, |s|)
    requires forall k :: 0 <= k < |shifted| ==> 0 < shifted[k] && tail[k] == s[shifted[k]]
    ensures StrictlyIncreasing([0] + shifted, |s|)
    ensures forall k :: 0 <= k < |shifted| + 1 ==> Filter(s, p)[k] == s[([0] + shifted)[k]]
  {
    var idx := [0] + shifted;
    assert Filter(s, p) == [s[0]] + tail;
    forall k, l | 0 <= k < l < |idx| ensures idx[k] < idx[l] {
      assert idx[l] == shifted[l - 1];
      if k > 0 {
        assert idx[k] == shifted[k - 1];
      }
    }
    forall k | 0 <= k < |idx| ensures 0 <= idx[k] < |s| && Filter(s, p)[k] == s[idx[k]] {
      if k > 0 {
        assert idx[k] == shifted[k - 1];
        assert Filter(s, p)[k] == tail[k - 1];
      }
    }
  }

  /** The positions of a filtered tail `s[1..]`, re-based onto `s`. */
  lemma ShiftPositions<T>(s: seq<T>, rest: seq<int>, tail: seq<T>) returns (shifted: seq<int>)
    requires s != []
    requires |rest| == |tail|
    requires StrictlyIncreasing(rest, |s| - 1)
    requires forall k :: 0 <= k < |rest| ==> tail[k] == s[1..][rest[k]]
    ensures |shifted| == |tail|
    ensures StrictlyIncreasing(shifted, |s|)
    ensures forall k :: 0 <= k < |shifted| ==> 0 < shifted[k] && tail[k] == s[shifted[k]]
    ensures forall j :: 0 < j < |s| && j - 1 in rest ==> j in shifted
  {
    shifted := seq(|rest|, k requires 0 <= k < |rest| => rest[k] + 1);
    forall j | 0 < j < |s| && j - 1 in rest ensures j in shifted {
      var k :| 0 <= k < |rest| && rest[k] == j - 1;
      assert shifted[k] == j;
    }
  }

  /** Two filters that agree on every element of `s` select the same elements. */
  lemma {:induction false} FilterExtensional<T>(s: seq<T>, p: T -> bool, q: T -> bool)
    requires forall i :: 0 <= i < |s| ==> p(s[i]) == q(s[i])
    ensures Filter(s, p) == Filter(s, q)
  {
    if s != [] {
      FilterExtensional(s[1..], p, q);
    }
  }

  /** Filtering twice by the same test is filtering once. */
  lemma {:induction false} FilterIdempotent<T>(s: seq<T>, p: T -> bool)
    ensures Filter(Filter(s, p), p) == Filter(s, p)
  {
    if s != [] {
      FilterIdempotent(s[1..], p);
      if p(s[0]) {
        assert ([s[0]] + Filter(s[1..], p))[1..] == Filter(s[1..], p);
      }
    }
  }

  /** Filtering distributes over concatenation. */
  lemma {:induction false} FilterAppend<T>(a: seq<T>, b: seq<T>, p: T -> bool)
    ensures Filter(a + b, p) == Filter(a, p) + Filter(b, p)
  {
    if a != [] {
      assert (a + b)[0] == a[0];
      assert (a + b)[1..] == a[1..] + b;
      FilterAppend(a[1..], b, p);
    } else {
      assert a + b == b;
    }
  }

  /** A filter that every element passes changes nothing. */
  lemma {:induction false} FilterAll<T>(s: seq<T>, p: T -> bool)
    requires forall i :: 0 <= i < |s| ==> p(s[i])
    ensures Filter(s, p) == s
  {
    if s != [] {
      FilterAll(s[1..], p);
    }
  }

  /** `rank` strictly increases along `s`. */
  ghost predicate StrictlyRanked<T>(s: seq<T>, rank: T -> int) {
    forall i, j :: 0 <= i < j < |s| ==> rank(s[i]) < rank(s[j])
  }

  /** `Filter` keeps the order of what it keeps. */
  lemma FilterRanked<T>(s: seq<T>, p: T -> bool, rank: T -> int)
    requires StrictlyRanked(s, rank)
    ensures StrictlyRanked(Filter(s, p), rank)
  {
    var idx := FilterPositions(s, p);
  }

  /** No element occurs twice. */
  predicate NoDup<T(==)>(s: seq<T>) {
    forall i, j :: 0 <= i < j < |s| ==> s[i] != s[j]
  }

  /** Duplicate-freedom is a property of the multiset of elements. */
  lemma {:induction false} NoDupCounts<T>(s: seq<T>)
    ensures NoDup(s) <==> forall x :: multiset(s)[x] <= 1
  {
    if s != [] {
      NoDupCounts(s[1..]);
      assert s == [s[0]] + s[1..];
      assert multiset(s) == multiset{s[0]} + multiset(s[1..]);
      if NoDup(s) {
        assert NoDup(s[1..]) by {
          forall i, j | 0 <= i < j < |s[1..]| ensures s[1..][i] != s[1..][j] {
            assert s[1..][i] == s[i + 1] && s[1..][j] == s[j + 1];
          }
        }
        assert s[0] !in s[1..] by {
          forall k | 0 <= k < |s[1..]| ensures s[1..][k] != s[0] {
            assert s[1..][k] == s[k + 1];
          }
        }
      }
      if forall x :: multiset(s)[x] <= 1 {
        assert forall x :: multiset(s[1..])[x] <= 1 by {
          forall x ensures multiset(s[1..])[x] <= 1 {
            assert multiset(s)[x] == multiset{s[0]}[x] + multiset(s[1..])[x];
          }
        }
        assert multiset(s)[s[0]] == 1 + multiset(s[1..])[s[0]];
        assert s[0] !in s[1..];
        forall i, j | 0 <= i < j < |s| ensures s[i] != s[j] {
          assert s[j] == s[1..][j - 1];
          if i > 0 {
            assert s[i] == s[1..][i - 1];
          }
        }
      }
    }
  }

  /** Reordering keeps a sequence duplicate-free. */
  lemma NoDupPermutation<T>(a: seq<T>, b: seq<T>)
    requires multiset(a) == multiset(b)
    requires NoDup(a)
    ensures NoDup(b)
  {
    NoDupCounts(a);
    NoDupCounts(b);
  }

  /** A filtered duplicate-free sequence is duplicate-free. */
  lemma FilterNoDup<T>(s: seq<T>, p: T -> bool)
    requires NoDup(s)
    ensures NoDup(Filter(s, p))
  {
    var idx := FilterPositions(s, p);
    var r := Filter(s, p);
    forall i, j | 0 <= i < j < |r| ensures r[i] != r[j] {
      assert r[i] == s[idx[i]] && r[j] == s[idx[j]];
    }
  }

  /** Two duplicate-free sequences with the same elements are permutations of
      each other. */
  lemma SameElementsSameMultiset<T>(a: seq<T>, b: seq<T>)
    requires NoDup(a) && NoDup(b)
    requires forall x :: x in a <==> x in b
    ensures multiset(a) == multiset(b)
  {
    NoDupCounts(a);
    NoDupCounts(b);
    forall x ensures multiset(a)[x] == multiset(b)[x] {
      if x in a {
        assert x in b;
      } else {
        assert x !in b;
      }
    }
  }

  /** `n` copies of `x`. */
  function Repeat<T>(x: T, n: nat): (r: seq<T>)
    ensures |r| == n
    ensures forall i :: 0 <= i < n ==> r[i] == x
  {
    seq(n, _ => x)
  }

  /** At most the first `n` elements of `s`. */
  function Take<T>(s: seq<T>, n: nat): (r: seq<T>)
    ensures |r| == Min(|s|, n)
    ensures forall i :: 0 <= i < |r| ==> r[i] == s[i]
  {
    if |s| <= n then s else s[..n]
  }
}
