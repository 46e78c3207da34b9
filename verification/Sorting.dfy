/** Sorting by a total order: what Python's `sorted` and `list.sort` deliver. */
module Sorting {

  ghost predicate TotalOrder<T(!new)>(le: (T, T) -> bool) {
    && (forall x, y :: le(x, y) || le(y, x))
    && (forall x, y :: le(x, y) && le(y, x) ==> x == y)
    && (forall x, y, z :: le(x, y) && le(y, z) ==> le(x, z))
  }

  ghost predicate Sorted<T>(s: seq<T>, le: (T, T) -> bool) {
    forall i, j :: 0 <= i < j < |s| ==> le(s[i], s[j])
  }

  function Insert<T(!new)>(x: T, s: seq<T>, le: (T, T) -> bool): (r: seq<T>)
    requires TotalOrder(le) && Sorted(s, le)
    ensures Sorted(r, le) && multiset(r) == multiset(s) + multiset{x}
  {
    if s == [] || le(x, s[0]) then [x] + s
    else
      var rest := Insert(x, s[1..], le);
      HeadStays(x, s, rest, le);
      [s[0]] + rest
  }

  /** The head of a sorted sequence, put before the rest with `x` in it. */
  lemma HeadStays<T(!new)>(x: T, s: seq<T>, rest: seq<T>, le: (T, T) -> bool)
    requires s != [] && Sorted(s, le) && le(s[0], x)
    requires Sorted(rest, le) && multiset(rest) == multiset(s[1..]) + multiset{x}
    ensures Sorted([s[0]] + rest, le) && multiset([s[0]] + rest) == multiset(s) + multiset{x}
  {
    assert s == [s[0]] + s[1..];
    forall i | 0 <= i < |rest| ensures le(s[0], rest[i]) {
      var y := rest[i];
      assert y in multiset(rest);
      assert y == x || y in s[1..];
    }
  }

  function Sort<T(!new)>(s: seq<T>, le: (T, T) -> bool): (r: seq<T>)
    requires TotalOrder(le)
    ensures Sorted(r, le) && multiset(r) == multiset(s) && |r| == |s|
  {
    if s == [] then []
    else
      assert s == [s[0]] + s[1..];
      var r := Insert(s[0], Sort(s[1..], le), le);
      assert |r| == |multiset(r)|;
      r
  }

  /** Two sorted arrangements of the same elements are the same sequence. */
  lemma {:induction false} SortedIsUnique<T(!new)>(s: seq<T>, t: seq<T>, le: (T, T) -> bool)
    requires TotalOrder(le) && Sorted(s, le) && Sorted(t, le)
    requires multiset(s) == multiset(t)
    ensures s == t
  {
    assert |s| == |multiset(s)| && |t| == |multiset(t)|;
    if s != [] {
      SameFirst(s, t, le);
      assert multiset(s[1..]) == multiset(s) - multiset{s[0]} by {
        assert s == [s[0]] + s[1..];
      }
      assert multiset(t[1..]) == multiset(t) - multiset{t[0]} by {
        assert t == [t[0]] + t[1..];
      }
      SortedIsUnique(s[1..], t[1..], le);
      assert s == [s[0]] + s[1..] && t == [t[0]] + t[1..];
    }
  }

  lemma SameFirst<T(!new)>(s: seq<T>, t: seq<T>, le: (T, T) -> bool)
    requires TotalOrder(le) && Sorted(s, le) && Sorted(t, le)
    requires multiset(s) == multiset(t) && s != [] && t != []
    ensures s[0] == t[0]
  {
    assert s[0] in multiset(t) && t[0] in multiset(s);
    assert s[0] in t && t[0] in s;
  }

  function Map<T, U>(f: T -> U, s: seq<T>): (r: seq<U>)
    ensures |r| == |s| && forall i :: 0 <= i < |s| ==> r[i] == f(s[i])
  {
    seq(|s|, i requires 0 <= i < |s| => f(s[i]))
  }

  lemma MultisetRemoveAt<T>(s: seq<T>, m: nat)
    requires m < |s|
    ensures multiset(s[..m] + s[m + 1..]) == multiset(s) - multiset{s[m]}
  {
    assert s == s[..m] + [s[m]] + s[m + 1..];
  }

  lemma MapRemoveAt<T, U>(f: T -> U, s: seq<T>, m: nat)
    requires m < |s|
    ensures multiset(Map(f, s)) == multiset(Map(f, s[..m] + s[m + 1..])) + multiset{f(s[m])}
  {
    var fs := Map(f, s);
    assert Map(f, s[..m] + s[m + 1..]) == fs[..m] + fs[m + 1..];
    assert fs == fs[..m] + [fs[m]] + fs[m + 1..];
  }

  lemma {:induction false} MapMultiset<T, U>(f: T -> U, s: seq<T>, t: seq<T>)
    requires multiset(s) == multiset(t)
    ensures multiset(Map(f, s)) == multiset(Map(f, t))
  {
    assert |s| == |multiset(s)| && |t| == |multiset(t)|;
    if s != [] {
      var m := IndexOfFirst(s, t);
      MapMultiset(f, s[..0] + s[0 + 1..], t[..m] + t[m + 1..]);
      MapRemoveAt(f, s, 0);
      MapRemoveAt(f, t, m);
    }
  }

  lemma IndexOfFirst<T>(s: seq<T>, t: seq<T>) returns (m: nat)
    requires s != [] && multiset(s) == multiset(t)
    ensures m < |t| && t[m] == s[0]
    ensures multiset(s[..0] + s[0 + 1..]) == multiset(t[..m] + t[m + 1..])
  {
    assert s[0] in multiset(t);
    m :| 0 <= m < |t| && t[m] == s[0];
    MultisetRemoveAt(s, 0);
    MultisetRemoveAt(t, m);
  }

  predicate Increasing(s: seq<int>) {
    forall i, j :: 0 <= i < j < |s| ==> s[i] < s[j]
  }

  /** `s` from its last element to its first. */
  function Reversed<T>(s: seq<T>): (r: seq<T>)
    ensures |r| == |s| && forall k :: 0 <= k < |r| ==> r[k] == s[|s| - 1 - k]
  {
    if s == [] then [] else Reversed(s[1..]) + [s[0]]
  }

  ghost predicate Distinct<T>(s: seq<T>) {
    forall i, j :: 0 <= i < j < |s| ==> s[i] != s[j]
  }

  lemma {:induction false} DistinctMultiplicity<T>(s: seq<T>)
    requires Distinct(s)
    ensures forall x :: multiset(s)[x] == if x in s then 1 else 0
  {
    if s != [] {
      DistinctMultiplicity(s[1..]);
      assert s == [s[0]] + s[1..];
    }
  }

  ghost predicate Permutation(t: seq<int>) {
    Distinct(t) && forall i :: 0 <= i < |t| ==> 0 <= t[i] < |t|
  }

  function Range(n: nat): (r: seq<int>)
    ensures |r| == n && forall i :: 0 <= i < n ==> r[i] == i
  {
    seq(n, i => i)
  }

  ghost function RangeSet(n: nat): (r: set<int>)
    ensures |r| == n && forall x :: x in r <==> 0 <= x < n
  {
    if n == 0 then {} else RangeSet(n - 1) + {n - 1}
  }

  lemma {:induction false} DistinctSetSize<T>(s: seq<T>)
    requires Distinct(s)
    ensures |(set x | x in s)| == |s|
  {
    if s != [] {
      DistinctSetSize(s[1..]);
      assert (set x | x in s) == {s[0]} + (set x | x in s[1..]);
    }
  }

  /** Only n different numbers fit below n. */
  lemma Pigeonhole(s: seq<int>, n: nat)
    requires Distinct(s) && forall i :: 0 <= i < |s| ==> 0 <= s[i] < n
    ensures |s| <= n
    ensures |s| == n ==> forall x :: 0 <= x < n ==> x in s
  {
    DistinctSetSize(s);
    var hit, range := (set x | x in s), RangeSet(n);
    assert hit <= range;
    assert |range| == |hit| + |range - hit|;
    if |s| == n {
      assert range - hit == {};
      forall x | 0 <= x < n ensures x in s {
        assert x in range;
      }
    }
  }

  /** An injection of 0..n into itself reaches every number: it is a permutation of the range. */
  lemma PermutationOfRange(t: seq<int>)
    requires Permutation(t)
    ensures forall x :: 0 <= x < |t| ==> x in t
    ensures multiset(t) == multiset(Range(|t|))
  {
    Pigeonhole(t, |t|);
    DistinctMultiplicity(t);
    DistinctMultiplicity(Range(|t|));
    forall x ensures x in t <==> x in Range(|t|) {
      if 0 <= x < |t| {
        assert Range(|t|)[x] == x;
      }
    }
  }
}
