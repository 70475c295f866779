/**
 * The pieces of Python's runtime that the graph engine relies on, stated over
 * Dafny sequences: ASCII `str.lower`, the insertion order of a `dict` filled
 * from a list, the stable `sorted(..., key=k, reverse=True)`, and nested lists.
 */
module Seqs {
  import opened Wrappers

  /** `str.lower` restricted to ASCII letters. */
  function LowerChar(c: char): (r: char)
    ensures !('A' <= r <= 'Z')
    ensures 'A' <= c <= 'Z' || r == c
  {
    if 'A' <= c <= 'Z' then (c as int - 'A' as int + 'a' as int) as char else c
  }

  function Lower(s: string): (r: string)
    ensures |r| == |s|
    ensures forall i :: 0 <= i < |s| ==> r[i] == LowerChar(s[i])
  {
    if s == [] then [] else [LowerChar(s[0])] + Lower(s[1..])
  }

  /** Lower-casing a name twice gives the same key as lower-casing it once. */
  lemma LowerIdempotent(s: string)
    ensures Lower(Lower(s)) == Lower(s)
  {
    assert forall i :: 0 <= i < |s| ==> LowerChar(LowerChar(s[i])) == LowerChar(s[i]);
  }

  predicate Distinct<T(==)>(s: seq<T>) {
    forall i, j :: 0 <= i < j < |s| ==> s[i] != s[j]
  }

  /**
   * The keys of a dict filled from `s` in order: every element once, where it
   * first occurs.
   */
  function Dedup<T(==,!new)>(s: seq<T>): (r: seq<T>)
    ensures Distinct(r)
    ensures forall x :: x in r <==> x in s
    ensures |r| <= |s|
  {
    if s == [] then []
    else
      var p := s[..|s| - 1];
      assert s == p + [s[|s| - 1]];
      if s[|s| - 1] in p then Dedup(p) else Dedup(p) + [s[|s| - 1]]
  }

  /** Position of the first occurrence of `x` in `s`. */
  function IndexOf<T(==)>(s: seq<T>, x: T): (i: nat)
    requires x in s
    ensures i < |s| && s[i] == x && x !in s[..i]
  {
    if s[0] == x then 0 else 1 + IndexOf(s[1..], x)
  }

  lemma IndexOfExtend<T>(p: seq<T>, x: T, y: T)
    requires y in p
    ensures IndexOf(p + [x], y) == IndexOf(p, y)
  {
    if p[0] != y {
      assert (p + [x])[1..] == p[1..] + [x];
      IndexOfExtend(p[1..], x, y);
    }
  }

  /** A distinct sequence is its own dict-key order. */
  lemma {:induction false} DedupOfDistinct<T(!new)>(s: seq<T>)
    requires Distinct(s)
    ensures Dedup(s) == s
  {
    if s != [] {
      var p := s[..|s| - 1];
      assert s == p + [s[|s| - 1]];
      assert s[|s| - 1] !in p;
      DedupOfDistinct(p);
    }
  }

  /** Dict keys come out in the order of their first occurrence in `s`. */
  lemma {:induction false} DedupFirstOccurrenceOrder<T(!new)>(s: seq<T>, i: nat, j: nat)
    requires i < j < |Dedup(s)|
    ensures IndexOf(s, Dedup(s)[i]) < IndexOf(s, Dedup(s)[j])
  {
    var p := s[..|s| - 1];
    var x := s[|s| - 1];
    assert s == p + [x];
    var d := Dedup(p);
    if x in p {
      DedupFirstOccurrenceOrder(p, i, j);
      IndexOfExtend(p, x, d[i]);
      IndexOfExtend(p, x, d[j]);
    } else if j < |d| {
      DedupFirstOccurrenceOrder(p, i, j);
      IndexOfExtend(p, x, d[i]);
      IndexOfExtend(p, x, d[j]);
    } else {
      IndexOfExtend(p, x, d[i]);
      assert IndexOf(s, x) == |p| by {
        assert s[|p|] == x;
        assert x !in s[..|p|];
      }
    }
  }

  // ---------------------------------------------------------------------------
  // sorted(s, key=key, reverse=True)
  // ---------------------------------------------------------------------------

  predicate NonIncreasing<T>(s: seq<T>, key: T -> int) {
    forall i, j :: 0 <= i < j < |s| ==> key(s[i]) >= key(s[j])
  }

  /**
   * Inserts `x` in front of the first element whose key is not larger, so
   * that `x` stays ahead of later elements with an equal key.
   */
  function InsertDesc<T>(x: T, s: seq<T>, key: T -> int): (r: seq<T>)
    ensures |r| == |s| + 1
    ensures multiset(r) == multiset{x} + multiset(s)
    ensures r[0] == x || (s != [] && r[0] == s[0])
    ensures NonIncreasing(s, key) ==> NonIncreasing(r, key)
  {
    if s == [] || key(s[0]) <= key(x) then
      InsertAtHead(x, s, key);
      [x] + s
    else
      var rest := InsertDesc(x, s[1..], key);
      assert s == [s[0]] + s[1..];
      InsertBehindHead(x, s, rest, key);
      [s[0]] + rest
  }

  /** Putting `x` in front keeps a list sorted when its key is at least the first key. */
  lemma InsertAtHead<T>(x: T, s: seq<T>, key: T -> int)
    requires s == [] || key(s[0]) <= key(x)
    ensures NonIncreasing(s, key) ==> NonIncreasing([x] + s, key)
  {
    if NonIncreasing(s, key) && s != [] {
      forall i, j | 0 <= i < j < |s| + 1 ensures key(([x] + s)[i]) >= key(([x] + s)[j]) {
        if i > 0 {
          assert ([x] + s)[i] == s[i - 1];
        }
      }
    }
  }

  /** Keeping the first element in front of `rest`, the sorted insertion into the tail, keeps the list sorted. */
  lemma InsertBehindHead<T>(x: T, s: seq<T>, rest: seq<T>, key: T -> int)
    requires s != [] && key(s[0]) > key(x)
    requires multiset(rest) == multiset{x} + multiset(s[1..])
    requires NonIncreasing(s[1..], key) ==> NonIncreasing(rest, key)
    ensures NonIncreasing(s, key) ==> NonIncreasing([s[0]] + rest, key)
  {
    if NonIncreasing(s, key) {
      assert NonIncreasing(s[1..], key) by {
        forall i, j | 0 <= i < j < |s[1..]| ensures key(s[1..][i]) >= key(s[1..][j]) {
          assert s[1..][i] == s[i + 1] && s[1..][j] == s[j + 1];
        }
      }
      forall i, j | 0 <= i < j < |rest| + 1
        ensures key(([s[0]] + rest)[i]) >= key(([s[0]] + rest)[j])
      {
        if i == 0 {
          var y := rest[j - 1];
          assert y in multiset(rest);
          assert y == x || y in multiset(s[1..]);
          if y != x {
            var k :| 0 <= k < |s[1..]| && s[1..][k] == y;
            assert s[k + 1] == y;
          }
        } else {
          assert ([s[0]] + rest)[i] == rest[i - 1] && ([s[0]] + rest)[j] == rest[j - 1];
        }
      }
    }
  }

  /** Python's stable `sorted(s, key=key, reverse=True)`. */
  function SortDesc<T>(s: seq<T>, key: T -> int): (r: seq<T>)
    ensures |r| == |s|
    ensures multiset(r) == multiset(s)
    ensures NonIncreasing(r, key)
  {
    if s == [] then []
    else
      assert s == [s[0]] + s[1..];
      InsertDesc(s[0], SortDesc(s[1..], key), key)
  }

  /** The elements of `s` whose key is `k`, in order. */
  function WithKey<T>(s: seq<T>, key: T -> int, k: int): seq<T> {
    if s == [] then [] else (if key(s[0]) == k then [s[0]] else []) + WithKey(s[1..], key, k)
  }

  lemma {:induction false} InsertDescWithKey<T>(x: T, s: seq<T>, key: T -> int, k: int)
    ensures WithKey(InsertDesc(x, s, key), key, k)
         == (if key(x) == k then [x] else []) + WithKey(s, key, k)
  {
    if s == [] || key(s[0]) <= key(x) {
      assert InsertDesc(x, s, key) == [x] + s;
      WithKeyCons(x, s, key, k);
    } else {
      var rest := InsertDesc(x, s[1..], key);
      assert InsertDesc(x, s, key) == [s[0]] + rest;
      InsertDescWithKey(x, s[1..], key, k);
      WithKeyCons(s[0], rest, key, k);
      assert [s[0]] + s[1..] == s;
      WithKeyCons(s[0], s[1..], key, k);
      SwapKeyed(x, s[0], key, k, WithKey(s[1..], key, k));
    }
  }

  /** An element with a larger key never shares `x`'s key, so their places among the keyed elements commute. */
  lemma SwapKeyed<T>(x: T, y: T, key: T -> int, k: int, tail: seq<T>)
    requires key(y) > key(x)
    ensures (if key(y) == k then [y] else []) + ((if key(x) == k then [x] else []) + tail)
         == (if key(x) == k then [x] else []) + ((if key(y) == k then [y] else []) + tail)
  {
  }

  lemma WithKeyCons<T>(y: T, t: seq<T>, key: T -> int, k: int)
    ensures WithKey([y] + t, key, k) == (if key(y) == k then [y] else []) + WithKey(t, key, k)
  {
    assert ([y] + t)[1..] == t;
  }

  /** Stability: among equal keys the sorted order is the input order. */
  lemma {:induction false} SortDescStable<T>(s: seq<T>, key: T -> int, k: int)
    ensures WithKey(SortDesc(s, key), key, k) == WithKey(s, key, k)
  {
    if s != [] {
      SortDescStable(s[1..], key, k);
      InsertDescWithKey(s[0], SortDesc(s[1..], key), key, k);
    }
  }

  /** Sorting a list that is already in order changes nothing. */
  lemma {:induction false} SortDescOfSorted<T>(s: seq<T>, key: T -> int)
    requires NonIncreasing(s, key)
    ensures SortDesc(s, key) == s
  {
    if s != [] {
      assert NonIncreasing(s[1..], key) by {
        forall i, j | 0 <= i < j < |s[1..]| ensures key(s[1..][i]) >= key(s[1..][j]) {
          assert s[1..][i] == s[i + 1] && s[1..][j] == s[j + 1];
        }
      }
      SortDescOfSorted(s[1..], key);
      assert s == [s[0]] + s[1..];
    }
  }

  lemma {:induction false} InsertDescCongruent<T>(x: T, s: seq<T>, k1: T -> int, k2: T -> int)
    requires k1(x) == k2(x)
    requires forall y :: y in s ==> k1(y) == k2(y)
    ensures InsertDesc(x, s, k1) == InsertDesc(x, s, k2)
  {
    if s != [] && k1(s[0]) > k1(x) {
      InsertDescCongruent(x, s[1..], k1, k2);
    }
  }

  /** Only the keys of the elements present matter to the sort. */
  lemma {:induction false} SortDescCongruent<T>(s: seq<T>, k1: T -> int, k2: T -> int)
    requires forall y :: y in s ==> k1(y) == k2(y)
    ensures SortDesc(s, k1) == SortDesc(s, k2)
  {
    if s != [] {
      SortDescCongruent(s[1..], k1, k2);
      var t := SortDesc(s[1..], k1);
      forall y | y in t ensures k1(y) == k2(y) {
        assert y in multiset(t);
        assert y in multiset(s[1..]);
      }
      InsertDescCongruent(s[0], t, k1, k2);
    }
  }

  /** Elements whose images under `f` are pairwise different. */
  predicate DistinctBy<T, U(==)>(s: seq<T>, f: T -> U) {
    forall i, j :: 0 <= i < j < |s| ==> f(s[i]) != f(s[j])
  }

  lemma {:induction false} InsertDescDistinctBy<T, U>(x: T, s: seq<T>, key: T -> int, f: T -> U)
    requires DistinctBy(s, f)
    requires forall y :: y in s ==> f(y) != f(x)
    ensures DistinctBy(InsertDesc(x, s, key), f)
  {
    if s != [] && key(s[0]) > key(x) {
      var rest := InsertDesc(x, s[1..], key);
      assert DistinctBy(s[1..], f) by {
        forall i, j | 0 <= i < j < |s[1..]| ensures f(s[1..][i]) != f(s[1..][j]) {
          assert s[1..][i] == s[i + 1] && s[1..][j] == s[j + 1];
        }
      }
      InsertDescDistinctBy(x, s[1..], key, f);
      forall j | 0 <= j < |rest| ensures f(rest[j]) != f(s[0]) {
        var y := rest[j];
        assert y in multiset(rest);
        if y != x {
          assert y in multiset(s[1..]);
          var k :| 0 <= k < |s[1..]| && s[1..][k] == y;
          assert s[k + 1] == y;
        }
      }
      var r := [s[0]] + rest;
      forall i, j | 0 <= i < j < |r| ensures f(r[i]) != f(r[j]) {
        if i > 0 {
          assert r[i] == rest[i - 1] && r[j] == rest[j - 1];
        }
      }
    } else {
      var r := [x] + s;
      forall i, j | 0 <= i < j < |r| ensures f(r[i]) != f(r[j]) {
        assert r[j] == s[j - 1];
        if i > 0 {
          assert r[i] == s[i - 1];
        }
      }
    }
  }

  /** Sorting never brings together two elements that were apart. */
  lemma {:induction false} SortDescDistinctBy<T, U>(s: seq<T>, key: T -> int, f: T -> U)
    requires DistinctBy(s, f)
    ensures DistinctBy(SortDesc(s, key), f)
  {
    if s != [] {
      assert DistinctBy(s[1..], f) by {
        forall i, j | 0 <= i < j < |s[1..]| ensures f(s[1..][i]) != f(s[1..][j]) {
          assert s[1..][i] == s[i + 1] && s[1..][j] == s[j + 1];
        }
      }
      SortDescDistinctBy(s[1..], key, f);
      var t := SortDesc(s[1..], key);
      forall y | y in t ensures f(y) != f(s[0]) {
        assert y in multiset(t);
        assert y in multiset(s[1..]);
        var k :| 0 <= k < |s[1..]| && s[1..][k] == y;
        assert s[k + 1] == y;
      }
      InsertDescDistinctBy(s[0], t, key, f);
    }
  }

  // ---------------------------------------------------------------------------
  // Slices and indexing
  // ---------------------------------------------------------------------------

  /** A non-empty list is its front followed by its last element. */
  lemma FrontLast<T>(xs: seq<T>)
    requires xs != []
    ensures xs == xs[..|xs| - 1] + [xs[|xs| - 1]]
  {
  }

  /** How Python turns a slice bound into a position of a list of length `n`. */
  function SliceBound(i: int, n: nat): (r: nat)
    ensures r <= n
    ensures 0 <= i <= n ==> r == i
    ensures i < 0 && -i <= n ==> r == n + i
  {
    if i < 0 then (if n + i < 0 then 0 else n + i) else if i > n then n else i
  }

  /** `s[start:end]`, where a missing bound is None. */
  function PySlice<T>(s: seq<T>, start: Option<int>, end: Option<int>): (r: seq<T>)
    ensures |r| <= |s|
  {
    var a := if start.Some? then SliceBound(start.value, |s|) else 0;
    var b := if end.Some? then SliceBound(end.value, |s|) else |s|;
    if a <= b then s[a..b] else []
  }

  /** `s[:n]` is the first `n` elements. */
  lemma SliceTop<T>(s: seq<T>, n: int)
    requires 0 <= n <= |s|
    ensures PySlice(s, None, Some(n)) == s[..n]
  {
  }

  /** `s[-0:]` is the whole list, since -0 is 0. */
  lemma SliceBottomAll<T>(s: seq<T>)
    ensures PySlice(s, Some(-0), None) == s
  {
  }

  /** `s[-n:]` is the last `n` elements. */
  lemma SliceBottom<T>(s: seq<T>, n: int)
    requires 0 < n <= |s|
    ensures PySlice(s, Some(-n), None) == s[|s| - n..]
  {
  }

  /** `s[a:b]` with both bounds inside the list and in order is the plain subsequence. */
  lemma SliceInside<T>(s: seq<T>, a: int, b: int)
    requires 0 <= a <= b <= |s|
    ensures PySlice(s, Some(a), Some(b)) == s[a..b]
  {
  }

  /** A start past the end, or at or after the end bound, yields the empty list. */
  lemma SliceEmpty<T>(s: seq<T>, a: int, b: int)
    requires 0 <= b <= a
    ensures PySlice(s, Some(a), Some(b)) == []
  {
  }

  /** `s[i]`, with negative positions counted from the end. */
  function PyIndex<T>(s: seq<T>, i: int): (r: Result<T>)
    ensures r.Ok? <==> -|s| <= i < |s|
    ensures 0 <= i < |s| ==> r == Ok(s[i])
    ensures -|s| <= i < 0 ==> r == Ok(s[|s| + i])
  {
    if 0 <= i < |s| then Ok(s[i])
    else if -|s| <= i < 0 then Ok(s[|s| + i])
    else Err(IndexError)
  }

  // ---------------------------------------------------------------------------
  // Nested lists
  // ---------------------------------------------------------------------------

  /** A value or a (possibly nested) list of values. */
  datatype Nested<T> = Leaf(value: T) | Group(items: seq<Nested<T>>)

  /** The values of a nested list, depth first, left to right. */
  function Leaves<T>(items: seq<Nested<T>>): seq<T>
    decreases items, 1
  {
    if items == [] then [] else LeavesOf(items[0]) + Leaves(items[1..])
  }

  function LeavesOf<T>(n: Nested<T>): seq<T>
    decreases n, 0
  {
    match n
    case Leaf(v) => [v]
    case Group(xs) => Leaves(xs)
  }

  lemma {:induction false} LeavesAppend<T>(a: seq<Nested<T>>, b: seq<Nested<T>>)
    ensures Leaves(a + b) == Leaves(a) + Leaves(b)
  {
    if a != [] {
      assert (a + b)[0] == a[0];
      assert (a + b)[1..] == a[1..] + b;
      LeavesAppend(a[1..], b);
      assert Leaves(a + b) == LeavesOf(a[0]) + Leaves(a[1..] + b);
      assert Leaves(a) == LeavesOf(a[0]) + Leaves(a[1..]);
    } else {
      assert a + b == b;
    }
  }

  function Flat<T>(s: seq<T>): (r: seq<Nested<T>>)
    ensures |r| == |s| && forall i :: 0 <= i < |s| ==> r[i] == Leaf(s[i])
  {
    if s == [] then [] else [Leaf(s[0])] + Flat(s[1..])
  }

  /** A list without nesting flattens to itself. */
  lemma {:induction false} LeavesOfFlat<T>(s: seq<T>)
    ensures Leaves(Flat(s)) == s
  {
    if s != [] {
      assert Flat(s)[1..] == Flat(s[1..]);
      LeavesOfFlat(s[1..]);
    }
  }
}
