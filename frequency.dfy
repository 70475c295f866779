/**
 * The list helpers of the legacy graph (pylog.py:269-291): `_flatten`
 * collects the values of nested lists, and `sortByFrequency` keeps each
 * distinct value once, most frequent first, ties in order of first
 * occurrence. `flatten` is the two in sequence.
 */
module Frequency {
  import opened Seqs

  /** The count `sortByFrequency` keeps for each value of `s`. */
  function Occurrences<T(==)>(s: seq<T>): T -> int {
    x => multiset(s)[x]
  }

  /** sortByFrequency (pylog.py:285-291): the dict's keys, sorted by their counts, highest first. */
  function ByFrequency<T(==,!new)>(s: seq<T>): seq<T> {
    SortDesc(Dedup(s), Occurrences(s))
  }

  /** flatten (pylog.py:271-272). */
  function Flatten<T(==,!new)>(lst: seq<Nested<T>>): (r: seq<T>)
    ensures Distinct(r)
    ensures forall x :: x in r <==> x in Leaves(lst)
  {
    ByFrequencyElements(Leaves(lst));
    ByFrequency(Leaves(lst))
  }

  // ---------------------------------------------------------------------------
  // What sortByFrequency returns
  // ---------------------------------------------------------------------------

  /** Every value of `s` once, and nothing else, in order of non-increasing count. */
  lemma ByFrequencyElements<T(!new)>(s: seq<T>)
    ensures Distinct(ByFrequency(s))
    ensures forall x :: x in ByFrequency(s) <==> x in s
    ensures NonIncreasing(ByFrequency(s), Occurrences(s))
  {
    var d := Dedup(s);
    var r := ByFrequency(s);
    var id := (x: T) => x;
    assert DistinctBy(d, id);
    SortDescDistinctBy(d, Occurrences(s), id);
    assert Distinct(r) by {
      forall i, j | 0 <= i < j < |r| ensures r[i] != r[j] {
        assert id(r[i]) != id(r[j]);
      }
    }
    forall x ensures x in r <==> x in s {
      assert x in r <==> x in multiset(r);
      assert x in d <==> x in multiset(d);
    }
  }

  /** `x` occurs before `y` in `t`. */
  ghost predicate Before<T>(t: seq<T>, x: T, y: T) {
    exists i, j :: 0 <= i < j < |t| && t[i] == x && t[j] == y
  }

  lemma {:induction false} WithKeyHas<T>(t: seq<T>, key: T -> int, k: int, x: T)
    requires x in t && key(x) == k
    ensures x in WithKey(t, key, k)
  {
    if t[0] != x {
      assert x in t[1..];
      WithKeyHas(t[1..], key, k, x);
    }
  }

  lemma {:induction false} WithKeyElements<T>(t: seq<T>, key: T -> int, k: int, x: T)
    requires x in WithKey(t, key, k)
    ensures x in t
  {
    if t[0] != x || key(t[0]) != k {
      WithKeyElements(t[1..], key, k, x);
    }
  }

  /** WithKey keeps the order of the elements it keeps. */
  lemma {:induction false} WithKeyOrder<T>(t: seq<T>, key: T -> int, k: int, i: nat, j: nat)
    requires i < j < |t| && key(t[i]) == k && key(t[j]) == k
    ensures Before(WithKey(t, key, k), t[i], t[j])
  {
    var w := WithKey(t, key, k);
    var rest := WithKey(t[1..], key, k);
    if i == 0 {
      assert w == [t[0]] + rest;
      assert t[j] in t[1..] by { assert t[1..][j - 1] == t[j]; }
      WithKeyHas(t[1..], key, k, t[j]);
      var q :| 0 <= q < |rest| && rest[q] == t[j];
      assert w[0] == t[0] && w[q + 1] == t[j];
    } else {
      assert t[1..][i - 1] == t[i] && t[1..][j - 1] == t[j];
      WithKeyOrder(t[1..], key, k, i - 1, j - 1);
      var p, q :| 0 <= p < q < |rest| && rest[p] == t[i] && rest[q] == t[j];
      var h := if key(t[0]) == k then [t[0]] else [];
      assert w == h + rest;
      assert w[p + |h|] == t[i] && w[q + |h|] == t[j];
    }
  }

  /** Elements in order in WithKey were in that order in the input. */
  lemma {:induction false} WithKeyOrderBack<T>(t: seq<T>, key: T -> int, k: int, x: T, y: T)
    requires Before(WithKey(t, key, k), x, y)
    ensures Before(t, x, y)
  {
    var w := WithKey(t, key, k);
    var rest := WithKey(t[1..], key, k);
    var h := if key(t[0]) == k then [t[0]] else [];
    assert w == h + rest;
    var p, q :| 0 <= p < q < |w| && w[p] == x && w[q] == y;
    if h != [] && p == 0 {
      assert rest[q - 1] == y;
      WithKeyElements(t[1..], key, k, y);
      var j :| 0 <= j < |t[1..]| && t[1..][j] == y;
      assert t[0] == x && t[j + 1] == y;
    } else {
      assert rest[p - |h|] == x && rest[q - |h|] == y;
      WithKeyOrderBack(t[1..], key, k, x, y);
      var i, j :| 0 <= i < j < |t[1..]| && t[1..][i] == x && t[1..][j] == y;
      assert t[i + 1] == x && t[j + 1] == y;
    }
  }

  /** Values with equal counts come out in the order of their first occurrence in `s`. */
  lemma ByFrequencyTieOrder<T(!new)>(s: seq<T>, i: nat, j: nat)
    requires i < j < |ByFrequency(s)|
    requires multiset(s)[ByFrequency(s)[i]] == multiset(s)[ByFrequency(s)[j]]
    ensures ByFrequency(s)[i] in s && ByFrequency(s)[j] in s
    ensures IndexOf(s, ByFrequency(s)[i]) < IndexOf(s, ByFrequency(s)[j])
  {
    var d := Dedup(s);
    var key := Occurrences(s);
    var r := ByFrequency(s);
    var k := key(r[i]);
    ByFrequencyElements(s);
    WithKeyOrder(r, key, k, i, j);
    SortDescStable(d, key, k);
    WithKeyOrderBack(d, key, k, r[i], r[j]);
    var i', j' :| 0 <= i' < j' < |d| && d[i'] == r[i] && d[j'] == r[j];
    DedupFirstOccurrenceOrder(s, i', j');
  }

  // ---------------------------------------------------------------------------
  // The loops
  // ---------------------------------------------------------------------------

  /** sortByFrequency (pylog.py:285-291): counts in a dict filled in order, then the stable sort. */
  method SortByFrequency<T(==,!new)>(lst: seq<T>) returns (r: seq<T>)
    ensures r == ByFrequency(lst)
  {
    var keys: seq<T> := [];
    var counts: map<T, int> := map[];
    for i := 0 to |lst|
      invariant keys == Dedup(lst[..i])
      invariant forall x :: x in counts <==> x in keys
      invariant forall x :: x in counts ==> counts[x] == multiset(lst[..i])[x]
    {
      var x := lst[i];
      assert lst[..i + 1] == lst[..i] + [x];
      if x !in counts {
        keys := keys + [x];
        counts := counts[x := 0];
      }
      counts := counts[x := counts[x] + 1];
    }
    assert lst[..|lst|] == lst;
    var count := (x: T) => if x in counts then counts[x] else 0;
    SortDescCongruent(keys, count, Occurrences(lst));
    r := SortDesc(keys, count);
  }

  /** _flatten (pylog.py:275-283): appends the values of `lst` to `out`, depth first. */
  method FlattenInto<T>(lst: seq<Nested<T>>, out: seq<T>) returns (r: seq<T>)
    ensures r == out + Leaves(lst)
    decreases lst
  {
    r := out;
    for i := 0 to |lst|
      invariant r == out + Leaves(lst[..i])
    {
      assert lst[..i + 1] == lst[..i] + [lst[i]];
      LeavesAppend(lst[..i], [lst[i]]);
      assert Leaves([lst[i]]) == LeavesOf(lst[i]) + Leaves([]);
      match lst[i]
      case Leaf(v) =>
        r := r + [v];
      case Group(xs) =>
        r := FlattenInto(xs, r);
    }
    assert lst[..|lst|] == lst;
  }

  /** flatten (pylog.py:271-272). */
  method FlattenList<T(==,!new)>(lst: seq<Nested<T>>) returns (r: seq<T>)
    ensures r == Flatten(lst)
  {
    var flat := FlattenInto(lst, []);
    assert flat == Leaves(lst);
    r := SortByFrequency(flat);
  }

  /** Two lists flatten to the values of both, in order. */
  lemma LeavesOfTwo<T>(a: seq<T>, b: seq<T>)
    ensures Leaves([Group(Flat(a)), Group(Flat(b))]) == a + b
  {
    var ga, gb := Group(Flat(a)), Group(Flat(b));
    LeavesOfFlat(a);
    LeavesOfFlat(b);
    assert [ga, gb][1..] == [gb];
    assert Leaves([gb]) == LeavesOf(gb) + Leaves([]) == b;
    assert Leaves([ga, gb]) == LeavesOf(ga) + Leaves([gb]);
  }
}
