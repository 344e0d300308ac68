/**
 * Finite-collection helpers shared by the aggregators: counting, filtering,
 * first-appearance de-duplication, sums, set unions and two sorts
 * (descending by an integer key for `ORDER BY -z`, and the strictly
 * increasing de-duplication that `sorted(set(...))` performs).
 */
module Seqs {

  /** Number of elements of `s` satisfying `p` (SQL `COUNT(*)` over a filter). */
  function Count<T>(s: seq<T>, p: T -> bool): (n: nat)
    ensures n <= |s|
    ensures n == 0 <==> forall i :: 0 <= i < |s| ==> !p(s[i])
  {
    if s == [] then 0 else (if p(s[0]) then 1 else 0) + Count(s[1..], p)
  }

  /** The elements of `s` satisfying `p`, in their original order. */
  function Filter<T(!new)>(s: seq<T>, p: T -> bool): (r: seq<T>)
    ensures |r| == Count(s, p)
    ensures forall x :: x in r <==> x in s && p(x)
  {
    if s == [] then []
    else if p(s[0]) then [s[0]] + Filter(s[1..], p)
    else Filter(s[1..], p)
  }

  /** Taking one more element of a sequence appends that element. */
  lemma TakeSnoc<T>(s: seq<T>, i: nat)
    requires i < |s|
    ensures s[..i + 1] == s[..i] + [s[i]]
  {
  }

  lemma {:induction false} FilterAppend<T(!new)>(s: seq<T>, x: T, p: T -> bool)
    ensures Filter(s + [x], p) == Filter(s, p) + (if p(x) then [x] else [])
  {
    if s == [] {
      assert s + [x] == [x];
    } else {
      assert (s + [x])[1..] == s[1..] + [x];
      FilterAppend(s[1..], x, p);
    }
  }

  /** No element occurs twice. */
  predicate NoDup<T(==)>(s: seq<T>) {
    forall i, j :: 0 <= i < j < |s| ==> s[i] != s[j]
  }

  /** Filtering a duplicate-free sequence keeps it duplicate-free. */
  lemma {:induction false} FilterKeepsNoDup<T(!new)>(s: seq<T>, p: T -> bool)
    requires NoDup(s)
    ensures NoDup(Filter(s, p))
  {
    if s != [] {
      var t := s[1..];
      assert NoDup(t) by {
        forall i, j | 0 <= i < j < |t| ensures t[i] != t[j] {
          assert t[i] == s[i + 1] && t[j] == s[j + 1];
        }
      }
      FilterKeepsNoDup(t, p);
      if p(s[0]) {
        var r := Filter(t, p);
        assert s[0] !in t by {
          forall k | 0 <= k < |t| ensures t[k] != s[0] {
            assert t[k] == s[k + 1];
          }
        }
        var f := [s[0]] + r;
        forall i, j | 0 <= i < j < |f| ensures f[i] != f[j] {
          assert f[j] == r[j - 1] && r[j - 1] in r;
          if i > 0 {
            assert f[i] == r[i - 1];
          }
        }
      }
    }
  }

  /** The distinct elements of `s` in order of first appearance. */
  function Distinct<T(==,!new)>(s: seq<T>): (r: seq<T>)
    ensures NoDup(r)
    ensures forall x :: x in r <==> x in s
    ensures |r| <= |s|
  {
    if s == [] then []
    else
      var r := Distinct(s[..|s| - 1]);
      assert forall x :: x in s <==> x in s[..|s| - 1] || x == s[|s| - 1] by {
        assert s == s[..|s| - 1] + [s[|s| - 1]];
      }
      if s[|s| - 1] in r then r else r + [s[|s| - 1]]
  }

  /** The distinct values of `key` over `xs`, in order of first appearance (`values(key)` of a `GROUP BY`). */
  function DistinctValues<T, K(==,!new)>(xs: seq<T>, key: T -> K): (ks: seq<K>)
    ensures NoDup(ks)
    ensures forall k :: k in ks <==> exists i :: 0 <= i < |xs| && key(xs[i]) == k
  {
    var keys := seq(|xs|, i requires 0 <= i < |xs| => key(xs[i]));
    assert forall k :: k in keys <==> exists i :: 0 <= i < |xs| && key(xs[i]) == k by {
      forall k ensures k in keys <==> exists i :: 0 <= i < |xs| && key(xs[i]) == k {
        if exists i :: 0 <= i < |xs| && key(xs[i]) == k {
          var i :| 0 <= i < |xs| && key(xs[i]) == k;
          assert keys[i] == k;
        }
      }
    }
    Distinct(keys)
  }

  /** The set of values `f` takes on `s`: what `COUNT(DISTINCT …)` counts. */
  function Image<T, U>(s: seq<T>, f: T -> U): (r: set<U>)
    ensures |r| <= |s|
    ensures forall i :: 0 <= i < |s| ==> f(s[i]) in r
    ensures forall y :: y in r ==> exists i :: 0 <= i < |s| && f(s[i]) == y
  {
    if s == [] then {}
    else
      var rest := Image(s[1..], f);
      assert forall i :: 1 <= i < |s| ==> s[i] == s[1..][i - 1];
      assert |{f(s[0])} + rest| <= 1 + |rest| by { UnionSizeBound({f(s[0])}, rest); }
      {f(s[0])} + rest
  }

  /** Sum of `v` over the elements of `s` (SQL `SUM`). */
  function Sum<T>(s: seq<T>, v: T -> int): int {
    if s == [] then 0 else v(s[0]) + Sum(s[1..], v)
  }

  /** Sums of two functions that agree on every element are equal. */
  lemma {:induction false} SumPointwise<T>(s: seq<T>, v: T -> int, w: T -> int)
    requires forall i :: 0 <= i < |s| ==> v(s[i]) == w(s[i])
    ensures Sum(s, v) == Sum(s, w)
  {
    if s != [] {
      assert forall i :: 0 <= i < |s[1..]| ==> s[1..][i] == s[i + 1];
      SumPointwise(s[1..], v, w);
    }
  }

  /** The size of each part, for summing. */
  function SizeOf<T, U>(f: T -> set<U>): T -> int {
    (x: T) => |f(x)|
  }

  /** Union of the sets `f(x)` over the elements of `s`. */
  function UnionOver<T, U>(s: seq<T>, f: T -> set<U>): (u: set<U>)
    ensures forall i :: 0 <= i < |s| ==> f(s[i]) <= u
    ensures forall y :: y in u ==> exists i :: 0 <= i < |s| && y in f(s[i])
  {
    if s == [] then {}
    else
      var rest := UnionOver(s[1..], f);
      assert forall i :: 1 <= i < |s| ==> s[i] == s[1..][i - 1];
      f(s[0]) + rest
  }

  /** The size of a union never exceeds the sum of the sizes of its parts. */
  lemma {:induction false} UnionSizeAtMostSum<T, U>(s: seq<T>, f: T -> set<U>)
    ensures |UnionOver(s, f)| <= Sum(s, SizeOf(f))
  {
    if s != [] {
      UnionSizeAtMostSum(s[1..], f);
      var a, b := f(s[0]), UnionOver(s[1..], f);
      assert |a + b| <= |a| + |b| by { UnionSizeBound(a, b); }
    }
  }

  lemma {:induction false} UnionOverAppend<T, U>(s: seq<T>, x: T, f: T -> set<U>)
    ensures UnionOver(s + [x], f) == UnionOver(s, f) + f(x)
  {
    if s == [] {
      assert [x][1..] == [];
    } else {
      assert (s + [x])[1..] == s[1..] + [x];
      UnionOverAppend(s[1..], x, f);
    }
  }

  lemma UnionSizeBound<U>(a: set<U>, b: set<U>)
    ensures |a + b| <= |a| + |b|
  {
    assert |a + b| == |a| + |b - a|;
    assert b - a <= b;
  }

  /**
   * Equality in the union bound holds when the parts are pairwise disjoint;
   * a shared member makes the union strictly smaller than the sum.
   */
  lemma {:induction false} SharedMemberShrinksUnion<T, U>(s: seq<T>, f: T -> set<U>, i: nat, j: nat, y: U)
    requires i < j < |s| && y in f(s[i]) && y in f(s[j])
    ensures |UnionOver(s, f)| < Sum(s, SizeOf(f))
  {
    var a, b := f(s[0]), UnionOver(s[1..], f);
    if i == 0 {
      UnionSizeAtMostSum(s[1..], f);
      assert s[1..][j - 1] == s[j];
      assert y in a * b;
      assert |a + b| == |a| + |b| - |a * b| by {
        assert a + b == a + (b - a * b);
        assert (b - a * b) + a * b == b;
      }
      assert |a * b| >= 1;
    } else {
      assert s[1..][i - 1] == s[i] && s[1..][j - 1] == s[j];
      SharedMemberShrinksUnion(s[1..], f, i - 1, j - 1, y);
      UnionSizeBound(a, b);
    }
  }

  // ---------------------------------------------------------------------
  // ORDER BY -key: insertion sort, non-increasing in an integer key

  predicate SortedDesc<T>(s: seq<T>, key: T -> int) {
    forall i, j :: 0 <= i < j < |s| ==> key(s[i]) >= key(s[j])
  }

  /** Places `x` after every element whose key is greater than `key(x)` and before the rest. */
  function InsertDesc<T(!new)>(x: T, s: seq<T>, key: T -> int): (r: seq<T>)
    requires SortedDesc(s, key)
    ensures multiset(r) == multiset(s) + multiset{x}
    ensures |r| == |s| + 1
    ensures r[0] == x || (s != [] && r[0] == s[0])
    ensures SortedDesc(r, key)
  {
    if s == [] then [x]
    else if key(s[0]) > key(x) then
      var rest := InsertDesc(x, s[1..], key);
      InsertDescBehind(x, s, rest, key);
      [s[0]] + rest
    else
      ConsSortedDesc(x, s, key);
      assert multiset([x] + s) == multiset{x} + multiset(s);
      [x] + s
  }

  /** Keeping the head in front of the insertion into the tail keeps the order and the elements. */
  lemma InsertDescBehind<T>(x: T, s: seq<T>, rest: seq<T>, key: T -> int)
    requires SortedDesc(s, key) && s != [] && key(s[0]) >= key(x)
    requires multiset(rest) == multiset(s[1..]) + multiset{x} && |rest| == |s|
    requires rest[0] == x || (s[1..] != [] && rest[0] == s[1..][0])
    requires SortedDesc(rest, key)
    ensures multiset([s[0]] + rest) == multiset(s) + multiset{x}
    ensures SortedDesc([s[0]] + rest, key)
  {
    assert s == [s[0]] + s[1..];
    assert multiset([s[0]] + rest) == multiset{s[0]} + multiset(rest);
    assert key(s[0]) >= key(rest[0]) by {
      if rest[0] != x { assert rest[0] == s[1]; }
    }
    ConsSortedDesc(s[0], rest, key);
  }

  lemma ConsSortedDesc<T>(x: T, s: seq<T>, key: T -> int)
    requires SortedDesc(s, key) && (s != [] ==> key(x) >= key(s[0]))
    ensures SortedDesc([x] + s, key)
  {
    var r := [x] + s;
    forall i, j | 0 <= i < j < |r| ensures key(r[i]) >= key(r[j]) {
      if i == 0 {
        assert r[j] == s[j - 1];
        if j > 1 { assert key(s[0]) >= key(s[j - 1]); }
      } else {
        assert r[i] == s[i - 1] && r[j] == s[j - 1];
      }
    }
  }

  /** The elements of `s` rearranged into non-increasing `key` order. */
  function SortDesc<T(!new)>(s: seq<T>, key: T -> int): (r: seq<T>)
    ensures multiset(r) == multiset(s)
    ensures |r| == |s|
    ensures SortedDesc(r, key)
  {
    if s == [] then []
    else
      assert s == [s[0]] + s[1..];
      InsertDesc(s[0], SortDesc(s[1..], key), key)
  }

  /** An element with a key at least the head's goes in front. */
  lemma InsertDescFront<T(!new)>(x: T, s: seq<T>, key: T -> int)
    requires SortedDesc(s, key) && (s != [] ==> key(s[0]) <= key(x))
    ensures InsertDesc(x, s, key) == [x] + s
  {
  }

  /**
   * The sort is stable: a sequence already in order comes back unchanged, so
   * elements with equal keys keep their relative order.
   */
  lemma {:induction false} SortDescSorted<T(!new)>(s: seq<T>, key: T -> int)
    requires SortedDesc(s, key)
    ensures SortDesc(s, key) == s
  {
    if s != [] {
      var t := s[1..];
      assert SortedDesc(t, key) by {
        forall i, j | 0 <= i < j < |t| ensures key(t[i]) >= key(t[j]) {
          assert t[i] == s[i + 1] && t[j] == s[j + 1];
        }
      }
      SortDescSorted(t, key);
      if t != [] { assert t[0] == s[1]; }
      InsertDescFront(s[0], t, key);
      assert s == [s[0]] + t;
    }
  }

  lemma PermutationKeepsMembers<T>(a: seq<T>, b: seq<T>)
    requires multiset(a) == multiset(b)
    ensures forall x :: x in a <==> x in b
  {
    forall x ensures x in a <==> x in b {
      assert x in a <==> x in multiset(a);
      assert x in b <==> x in multiset(b);
    }
  }

  lemma PermutationKeepsNoDup<T>(a: seq<T>, b: seq<T>)
    requires multiset(a) == multiset(b) && NoDup(a)
    ensures NoDup(b)
  {
    forall i, j | 0 <= i < j < |b| ensures b[i] != b[j] {
      if b[i] == b[j] {
        assert multiset(b)[b[i]] >= 2 by {
          var m := multiset(b[..i]) + multiset{b[i]} + multiset(b[i+1..j]) + multiset{b[j]} + multiset(b[j+1..]);
          assert b == b[..i] + [b[i]] + b[i+1..j] + [b[j]] + b[j+1..];
          assert multiset(b) == m;
        }
        NoDupCountOne(a, b[i]);
        assert false;
      }
    }
  }

  lemma {:induction false} NoDupCountOne<T>(a: seq<T>, x: T)
    requires NoDup(a)
    ensures multiset(a)[x] <= 1
  {
    if a != [] {
      assert a == [a[0]] + a[1..];
      assert NoDup(a[1..]) by {
        forall i, j | 0 <= i < j < |a[1..]| ensures a[1..][i] != a[1..][j] {
          assert a[1..][i] == a[i + 1] && a[1..][j] == a[j + 1];
        }
      }
      NoDupCountOne(a[1..], x);
      if a[0] == x {
        assert x !in a[1..] by {
          forall k | 0 <= k < |a[1..]| ensures a[1..][k] != x {
            assert a[1..][k] == a[k + 1];
          }
        }
      }
    }
  }

  // ---------------------------------------------------------------------
  // sorted(set(xs)) on integers: strictly increasing, same members

  predicate StrictlyIncreasing(s: seq<int>) {
    forall i, j :: 0 <= i < j < |s| ==> s[i] < s[j]
  }

  function InsertUnique(x: int, s: seq<int>): (r: seq<int>)
    requires StrictlyIncreasing(s)
    ensures StrictlyIncreasing(r)
    ensures |r| > 0 && (r[0] == x || (s != [] && r[0] == s[0]))
    ensures forall y :: y in r <==> y in s || y == x
  {
    if s == [] then [x]
    else if x == s[0] then s
    else if x < s[0] then [x] + s
    else
      var rest := InsertUnique(x, s[1..]);
      assert forall y :: y in s <==> y == s[0] || y in s[1..] by { assert s == [s[0]] + s[1..]; }
      assert s[0] < rest[0];
      [s[0]] + rest
  }

  /** `sorted(set(s))`: the members of `s`, each once, in increasing order. */
  function SortedUnique(s: seq<int>): (r: seq<int>)
    ensures StrictlyIncreasing(r)
    ensures forall y :: y in r <==> y in s
  {
    if s == [] then []
    else
      assert forall y :: y in s <==> y == s[0] || y in s[1..] by { assert s == [s[0]] + s[1..]; }
      InsertUnique(s[0], SortedUnique(s[1..]))
  }
}
