/**
 * What NodeList.rel (nodes.py:137-165) gathers: for every entry (n, w) of the
 * sorted receiver and every matching relation key R of n, the stored list
 * registry[n][R] scaled by w. The lists are merged into the output one after
 * the other and the output is then sorted.
 */
module Traversal {
  import opened Wrappers
  import opened Seqs
  import opened Nodes
  import opened Adjacency

  function SlotsOf(adj: Adj, n: NodeId): Slots {
    if n in adj then adj[n] else NoSlots()
  }

  /**
   * The keys expanded at a node: with no relation name every key, in the
   * dictionary's order (`_connects` included); otherwise the named relation
   * nodes, of which only those the node has contribute.
   */
  function Keys(s: Slots, relation: Option<seq<NodeId>>): seq<NodeId> {
    if relation.None? then s.order else relation.value
  }

  /** The scaled lists one receiver entry of weight `w` contributes. */
  function Hop(s: Slots, keys: seq<NodeId>, w: int): seq<seq<NodeTuple>> {
    if keys == [] then []
    else
      var k := keys[|keys| - 1];
      Hop(s, keys[..|keys| - 1], w) + (if k in s.lists then [Product(s.lists[k], w)] else [])
  }

  /** Every list appended to the output, in the order of the nested loops. */
  function Reached(entries: seq<NodeTuple>, adj: Adj, relation: Option<seq<NodeId>>): seq<seq<NodeTuple>> {
    if entries == [] then []
    else
      var t := entries[|entries| - 1];
      Reached(entries[..|entries| - 1], adj, relation) + Hop(SlotsOf(adj, t.node), Keys(SlotsOf(adj, t.node), relation), t.weight)
  }

  function Concat(ps: seq<seq<NodeTuple>>): seq<NodeTuple> {
    if ps == [] then [] else Concat(ps[..|ps| - 1]) + ps[|ps| - 1]
  }

  lemma {:induction false} ConcatAppend(a: seq<seq<NodeTuple>>, b: seq<seq<NodeTuple>>)
    ensures Concat(a + b) == Concat(a) + Concat(b)
  {
    if b == [] {
      assert a + b == a;
    } else {
      assert (a + b)[..|a + b| - 1] == a + b[..|b| - 1];
      assert (a + b)[|a + b| - 1] == b[|b| - 1];
      ConcatAppend(a, b[..|b| - 1]);
    }
  }

  /** The output list after each gathered list is appended to it in turn. */
  function Collect(out: seq<NodeTuple>, ps: seq<seq<NodeTuple>>, accumulate: bool): seq<NodeTuple> {
    if ps == [] then out else Absorb(Collect(out, ps[..|ps| - 1], accumulate), ps[|ps| - 1], accumulate)
  }

  /** With accumulation on, the output is every gathered list, concatenated. */
  lemma {:induction false} CollectAccumulates(out: seq<NodeTuple>, ps: seq<seq<NodeTuple>>)
    ensures Collect(out, ps, true) == out + Concat(ps)
  {
    if ps != [] {
      CollectAccumulates(out, ps[..|ps| - 1]);
    }
  }

  // ---------------------------------------------------------------------------
  // The reference weight of a traversal
  // ---------------------------------------------------------------------------

  /** The summed weight of `c` over the lists stored under `keys`. */
  function HopWeight(s: Slots, keys: seq<NodeId>, c: NodeId): int {
    if keys == [] then 0
    else
      var k := keys[|keys| - 1];
      HopWeight(s, keys[..|keys| - 1], c) + (if k in s.lists then SumOf(s.lists[k], c) else 0)
  }

  /** Sum over receiver entries (n, w) of w times the weight of `c` in n's matching lists. */
  function PathWeight(entries: seq<NodeTuple>, adj: Adj, relation: Option<seq<NodeId>>, c: NodeId): int {
    if entries == [] then 0
    else
      var t := entries[|entries| - 1];
      var s := SlotsOf(adj, t.node);
      PathWeight(entries[..|entries| - 1], adj, relation, c) + t.weight * HopWeight(s, Keys(s, relation), c)
  }

  lemma MulDistributes(w: int, a: int, b: int)
    ensures w * (a + b) == w * a + w * b
  {
  }

  /** The list one key contributes, scaled by `w`, weighs `w` times the key's stored weight of `c`. */
  lemma HopLast(s: Slots, k: NodeId, w: int, c: NodeId)
    ensures SumOf(Concat(if k in s.lists then [Product(s.lists[k], w)] else []), c)
         == w * (if k in s.lists then SumOf(s.lists[k], c) else 0)
  {
    if k in s.lists {
      var tail := [Product(s.lists[k], w)];
      assert Concat(tail) == Product(s.lists[k], w) by {
        assert tail[..0] == [];
      }
      ProductSpec(s.lists[k], w);
    }
  }

  lemma {:induction false} HopSum(s: Slots, keys: seq<NodeId>, w: int, c: NodeId)
    ensures SumOf(Concat(Hop(s, keys, w)), c) == w * HopWeight(s, keys, c)
  {
    if keys != [] {
      var p := keys[..|keys| - 1];
      var k := keys[|keys| - 1];
      var tail := if k in s.lists then [Product(s.lists[k], w)] else [];
      var a := HopWeight(s, p, c);
      var b := if k in s.lists then SumOf(s.lists[k], c) else 0;
      assert Hop(s, keys, w) == Hop(s, p, w) + tail;
      assert HopWeight(s, keys, c) == a + b;
      HopSum(s, p, w, c);
      ConcatAppend(Hop(s, p, w), tail);
      SumOfAppend(Concat(Hop(s, p, w)), Concat(tail), c);
      HopLast(s, k, w, c);
      MulDistributes(w, a, b);
    }
  }

  /** The weight of `c` gathered by rel is the reference path weight. */
  lemma {:induction false} ReachedSum(entries: seq<NodeTuple>, adj: Adj, relation: Option<seq<NodeId>>, c: NodeId)
    ensures SumOf(Concat(Reached(entries, adj, relation)), c) == PathWeight(entries, adj, relation, c)
  {
    if entries != [] {
      var p := entries[..|entries| - 1];
      var t := entries[|entries| - 1];
      var s := SlotsOf(adj, t.node);
      ReachedSum(p, adj, relation, c);
      ConcatAppend(Reached(p, adj, relation), Hop(s, Keys(s, relation), t.weight));
      SumOfAppend(Concat(Reached(p, adj, relation)), Concat(Hop(s, Keys(s, relation), t.weight)), c);
      HopSum(s, Keys(s, relation), t.weight, c);
    }
  }

  /**
   * With accumulation on, the sorted result of rel holds `c` at most once and
   * with the path weight: the sum, over receiver entries (n, w) and matching
   * relation keys R, of w times the weight of `c` in registry[n][R].
   */
  lemma RelWeight(entries: seq<NodeTuple>, adj: Adj, relation: Option<seq<NodeId>>, c: NodeId)
    ensures SumOf(Consolidate(Collect([], Reached(entries, adj, relation), true)), c) == PathWeight(entries, adj, relation, c)
    ensures var r := Consolidate(Collect([], Reached(entries, adj, relation), true));
      forall i :: (0 <= i < |r| && r[i].node == c) ==> r[i].weight == PathWeight(entries, adj, relation, c)
  {
    var g := Collect([], Reached(entries, adj, relation), true);
    CollectAccumulates([], Reached(entries, adj, relation));
    assert g == Concat(Reached(entries, adj, relation));
    ReachedSum(entries, adj, relation, c);
    ConsolidateSumOf(g, c);
    ConsolidateSpec(g);
  }

  /** Without a relation name, every key of a node is expanded, `_connects` included. */
  lemma {:induction false} HopExpandsAll(s: Slots, keys: seq<NodeId>, w: int, k: NodeId)
    requires k in keys && k in s.lists
    ensures Product(s.lists[k], w) in Hop(s, keys, w)
  {
    if keys[|keys| - 1] != k {
      var p := keys[..|keys| - 1];
      assert k in p by {
        var i :| 0 <= i < |keys| && keys[i] == k;
        assert p[i] == k;
      }
      HopExpandsAll(s, p, w, k);
    }
  }

  lemma ExpandAll(s: Slots, w: int, k: NodeId)
    requires WellFormed(s) && k in s.lists
    ensures Product(s.lists[k], w) in Hop(s, Keys(s, None), w)
  {
    HopExpandsAll(s, s.order, w, k);
  }

  /** A named relation that the node does not have contributes nothing. */
  lemma {:induction false} HopMissing(s: Slots, keys: seq<NodeId>, w: int)
    requires forall k :: k in keys ==> k !in s.lists
    ensures Hop(s, keys, w) == []
  {
    if keys != [] {
      HopMissing(s, keys[..|keys| - 1], w);
      assert keys[|keys| - 1] in keys;
    }
  }

  /** An empty relation list gathers nothing. */
  lemma {:induction false} ReachedNothing(entries: seq<NodeTuple>, adj: Adj)
    ensures Reached(entries, adj, Some([])) == []
  {
    if entries != [] {
      ReachedNothing(entries[..|entries| - 1], adj);
    }
  }

  /** Every gathered list is non-empty when the stored lists are. */
  lemma {:induction false} HopNonEmpty(s: Slots, keys: seq<NodeId>, w: int)
    requires WellFormed(s)
    ensures forall p :: p in Hop(s, keys, w) ==> p != []
  {
    if keys != [] {
      HopNonEmpty(s, keys[..|keys| - 1], w);
      var k := keys[|keys| - 1];
      if k in s.lists {
        ProductSpec(s.lists[k], w);
        assert s.lists[k][0].node in NodesOf(s.lists[k]);
        assert NodesOf(Product(s.lists[k], w)) != [];
      }
    }
  }

  lemma {:induction false} ReachedNonEmpty(entries: seq<NodeTuple>, adj: Adj, relation: Option<seq<NodeId>>)
    requires AllWellFormed(adj)
    ensures forall p :: p in Reached(entries, adj, relation) ==> p != []
  {
    if entries != [] {
      ReachedNonEmpty(entries[..|entries| - 1], adj, relation);
      var t := entries[|entries| - 1];
      var s := SlotsOf(adj, t.node);
      assert WellFormed(s);
      HopNonEmpty(s, Keys(s, relation), t.weight);
    }
  }

  // ---------------------------------------------------------------------------
  // The loops of rel, one step at a time
  // ---------------------------------------------------------------------------

  lemma CollectSnoc(out: seq<NodeTuple>, ps: seq<seq<NodeTuple>>, p: seq<NodeTuple>, accumulate: bool)
    ensures Collect(out, ps + [p], accumulate) == Absorb(Collect(out, ps, accumulate), p, accumulate)
  {
    assert (ps + [p])[..|ps|] == ps;
  }

  lemma {:induction false} CollectAppend(out: seq<NodeTuple>, a: seq<seq<NodeTuple>>, b: seq<seq<NodeTuple>>, accumulate: bool)
    ensures Collect(out, a + b, accumulate) == Collect(Collect(out, a, accumulate), b, accumulate)
  {
    if b == [] {
      assert a + b == a;
    } else {
      assert (a + b)[..|a + b| - 1] == a + b[..|b| - 1];
      assert (a + b)[|a + b| - 1] == b[|b| - 1];
      CollectAppend(out, a, b[..|b| - 1], accumulate);
    }
  }

  lemma HopSnoc(s: Slots, keys: seq<NodeId>, j: nat, w: int)
    requires j < |keys|
    ensures Hop(s, keys[..j + 1], w) == Hop(s, keys[..j], w) + (if keys[j] in s.lists then [Product(s.lists[keys[j]], w)] else [])
  {
    assert keys[..j + 1][..j] == keys[..j];
  }

  lemma ReachedSnoc(entries: seq<NodeTuple>, i: nat, adj: Adj, relation: Option<seq<NodeId>>)
    requires i < |entries|
    ensures Reached(entries[..i + 1], adj, relation) ==
      Reached(entries[..i], adj, relation) + Hop(SlotsOf(adj, entries[i].node), Keys(SlotsOf(adj, entries[i].node), relation), entries[i].weight)
  {
    assert entries[..i + 1][..i] == entries[..i];
  }

  /** Scaling a stored list refers only to nodes of that list. */
  lemma ProductBelow(l: seq<NodeTuple>, w: int, n: nat)
    requires NodesBelow(l, n)
    ensures NodesBelow(Product(l, w), n)
  {
    ProductSpec(l, w);
    var p := Product(l, w);
    forall i | 0 <= i < |p| ensures p[i].node < n {
      assert p[i].node in NodesOf(p);
      var k :| 0 <= k < |l| && NodesOf(l)[k] == p[i].node;
    }
  }

  lemma {:induction false} HopBelow(s: Slots, keys: seq<NodeId>, w: int, n: nat)
    requires SlotsBounded(s, n)
    ensures forall p :: p in Hop(s, keys, w) ==> NodesBelow(p, n)
  {
    if keys != [] {
      HopBelow(s, keys[..|keys| - 1], w, n);
      var k := keys[|keys| - 1];
      if k in s.lists {
        ProductBelow(s.lists[k], w, n);
      }
    }
  }

  lemma {:induction false} ReachedBelow(entries: seq<NodeTuple>, adj: Adj, relation: Option<seq<NodeId>>, n: nat)
    requires Bounded(adj, n)
    ensures forall p :: p in Reached(entries, adj, relation) ==> NodesBelow(p, n)
  {
    if entries != [] {
      ReachedBelow(entries[..|entries| - 1], adj, relation, n);
      var t := entries[|entries| - 1];
      HopBelow(SlotsOf(adj, t.node), Keys(SlotsOf(adj, t.node), relation), t.weight, n);
    }
  }

  lemma {:induction false} CollectBelow(out: seq<NodeTuple>, ps: seq<seq<NodeTuple>>, accumulate: bool, n: nat)
    requires NodesBelow(out, n) && forall p :: p in ps ==> NodesBelow(p, n)
    ensures NodesBelow(Collect(out, ps, accumulate), n)
  {
    if ps != [] {
      CollectBelow(out, ps[..|ps| - 1], accumulate, n);
      var c: seq<NodeTuple> := Collect(out, ps[..|ps| - 1], accumulate);
      var p: seq<NodeTuple> := ps[|ps| - 1];
      var cp: seq<NodeTuple> := c + p;
      assert p in ps;
      forall i | 0 <= i < |cp| ensures cp[i].node < n {
        if i >= |c| {
          assert cp[i] == p[i - |c|];
        }
      }
    }
  }

  /** Everything rel gathers from a registry of `n` nodes is one of those nodes. */
  lemma GatheredBelow(entries: seq<NodeTuple>, adj: Adj, relation: Option<seq<NodeId>>, accumulate: bool, n: nat)
    requires Bounded(adj, n)
    ensures NodesBelow(Collect([], Reached(entries, adj, relation), accumulate), n)
  {
    ReachedBelow(entries, adj, relation, n);
    CollectBelow([], Reached(entries, adj, relation), accumulate, n);
  }
}
