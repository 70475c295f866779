/**
 * The adjacency map of the weighted registry (nodeRegistry.py) and the edges
 * that NodeRegistry.relate writes into it.
 *
 * Each node owns an insertion-ordered dictionary from relation node to the
 * stored list of weighted neighbours. relate is described here as a plan: the
 * sequence of edges its nested loops write, in order, and the fold that
 * delivers them one at a time, each one an append to a stored list.
 */
module Adjacency {
  import opened Wrappers
  import opened Seqs
  import opened Nodes

  /** One node's relations: the keys in insertion order and the stored lists. */
  datatype Slots = Slots(order: seq<NodeId>, lists: map<NodeId, seq<NodeTuple>>)

  function NoSlots(): Slots {
    Slots([], map[])
  }

  /** Keys listed once each, exactly the keys of the map, and no stored list empty. */
  predicate WellFormed(s: Slots) {
    Distinct(s.order) &&
    (forall k :: k in s.lists ==> k in s.order) &&
    (forall k :: k in s.order ==> k in s.lists) &&
    (forall k :: k in s.lists ==> s.lists[k] != [])
  }

  function ListAt(s: Slots, rel: NodeId): seq<NodeTuple> {
    if rel in s.lists then s.lists[rel] else []
  }

  /** Stores list `l` under `rel`; a new key goes to the end of the order. */
  function Put(s: Slots, rel: NodeId, l: seq<NodeTuple>): (r: Slots)
    ensures ListAt(r, rel) == l
    ensures forall k :: k != rel ==> ListAt(r, k) == ListAt(s, k)
    ensures r.lists.Keys == s.lists.Keys + {rel}
  {
    Slots(if rel in s.lists then s.order else s.order + [rel], s.lists[rel := l])
  }

  lemma PutWellFormed(s: Slots, rel: NodeId, l: seq<NodeTuple>)
    requires WellFormed(s) && l != []
    ensures WellFormed(Put(s, rel, l))
  {
    var r := Put(s, rel, l);
    if rel !in s.lists {
      forall i, j | 0 <= i < j < |r.order| ensures r.order[i] != r.order[j] {
        if j == |s.order| {
          assert r.order[i] == s.order[i];
        } else {
          assert r.order[i] == s.order[i] && r.order[j] == s.order[j];
        }
      }
      forall k | k in r.order ensures k in r.lists {
        assert k in s.order || k == rel;
      }
    }
  }

  type Adj = map<NodeId, Slots>

  /** Which of relate's four writes an edge is. */
  datatype Kind =
    | LeftLink    // relation node `leftward` gains a left node under `_connects`
    | RightLink   // relation node `rightward` gains a right node under `_connects`
    | Forward     // a left node gains a right node under `rightward`
    | Backward    // a right node gains a left node under `leftward`

  /** The append of `entry` to the list stored at `owner`'s key `rel`. */
  datatype Edge = Edge(owner: NodeId, rel: NodeId, entry: NodeTuple, kind: Kind)

  /**
   * One edge written: the slot is created empty if it is new, then the entry
   * is appended to it under the list's accumulate-or-skip rule.
   */
  function Deliver(adj: Adj, e: Edge, accumulate: bool): (r: Adj)
    ensures r.Keys == adj.Keys
  {
    if e.owner in adj then
      adj[e.owner := Put(adj[e.owner], e.rel, Absorb(ListAt(adj[e.owner], e.rel), [e.entry], accumulate))]
    else adj
  }

  /** The edges delivered in order. */
  function Apply(adj: Adj, es: seq<Edge>, accumulate: bool): (r: Adj)
    ensures r.Keys == adj.Keys
  {
    if es == [] then adj
    else Deliver(Apply(adj, es[..|es| - 1], accumulate), es[|es| - 1], accumulate)
  }

  /** Delivering one more edge. */
  lemma ApplySnoc(adj: Adj, es: seq<Edge>, e: Edge, accumulate: bool)
    ensures Apply(adj, es + [e], accumulate) == Deliver(Apply(adj, es, accumulate), e, accumulate)
  {
    assert (es + [e])[..|es|] == es;
  }

  lemma {:induction false} ApplyAppend(adj: Adj, a: seq<Edge>, b: seq<Edge>, accumulate: bool)
    ensures Apply(adj, a + b, accumulate) == Apply(Apply(adj, a, accumulate), b, accumulate)
  {
    if b == [] {
      assert a + b == a;
    } else {
      assert (a + b)[..|a + b| - 1] == a + b[..|b| - 1];
      assert (a + b)[|a + b| - 1] == b[|b| - 1];
      ApplyAppend(adj, a, b[..|b| - 1], accumulate);
    }
  }

  /** The entries that the edges of `es` append to `x`'s list under `rel`, in order. */
  function Entries(es: seq<Edge>, x: NodeId, rel: NodeId): seq<NodeTuple> {
    if es == [] then []
    else
      var e := es[|es| - 1];
      Entries(es[..|es| - 1], x, rel) + (if e.owner == x && e.rel == rel then [e.entry] else [])
  }

  lemma {:induction false} EntriesMember(es: seq<Edge>, e: Edge)
    requires e in es
    ensures e.entry in Entries(es, e.owner, e.rel)
  {
    var p := es[..|es| - 1];
    if es[|es| - 1] != e {
      assert e in p by {
        var k :| 0 <= k < |es| && es[k] == e;
        assert k < |es| - 1 && p[k] == e;
      }
      EntriesMember(p, e);
    }
  }

  /**
   * With accumulation on, every stored list ends up as its old contents
   * followed by exactly the entries the edges append to it, in order.
   */
  lemma {:induction false} ApplyAccumulates(adj: Adj, es: seq<Edge>, x: NodeId, rel: NodeId)
    requires x in adj
    ensures ListAt(Apply(adj, es, true)[x], rel) == ListAt(adj[x], rel) + Entries(es, x, rel)
  {
    if es != [] {
      var p := es[..|es| - 1];
      var e := es[|es| - 1];
      ApplyAccumulates(adj, p, x, rel);
      var prev := Apply(adj, p, true);
      if e.owner == x && e.rel == rel {
        assert Apply(adj, es, true)[x] == Put(prev[x], rel, ListAt(prev[x], rel) + [e.entry]);
      } else if e.owner == x {
        assert Apply(adj, es, true)[x] == Put(prev[x], e.rel, Absorb(ListAt(prev[x], e.rel), [e.entry], true));
      } else {
        assert Apply(adj, es, true)[x] == prev[x];
      }
    }
  }

  /** A node that owns no edge keeps its relations exactly as they were. */
  lemma {:induction false} ApplyUntouched(adj: Adj, es: seq<Edge>, x: NodeId, accumulate: bool)
    requires x in adj && forall e :: e in es ==> e.owner != x
    ensures Apply(adj, es, accumulate)[x] == adj[x]
  {
    if es != [] {
      ApplyUntouched(adj, es[..|es| - 1], x, accumulate);
      assert es[|es| - 1] in es;
    }
  }

  lemma ContainsNodeExtends(a: seq<NodeTuple>, b: seq<NodeTuple>, n: NodeId)
    requires ContainsNode(a, n)
    ensures ContainsNode(a + b, n)
  {
    NodesOfAppend(a, b);
  }

  lemma DeliverExtends(adj: Adj, e: Edge, accumulate: bool, x: NodeId, rel: NodeId)
    requires x in adj
    ensures ListAt(adj[x], rel) <= ListAt(Deliver(adj, e, accumulate)[x], rel)
  {
  }

  lemma DeliverHolds(adj: Adj, e: Edge, accumulate: bool)
    requires e.owner in adj
    ensures ContainsNode(ListAt(Deliver(adj, e, accumulate)[e.owner], e.rel), e.entry.node)
  {
    var l := ListAt(adj[e.owner], e.rel);
    if Absorb(l, [e.entry], accumulate) == l + [e.entry] {
      NodesOfAppend(l, [e.entry]);
    }
  }

  /** Later edges only append: every stored list is a prefix of what it becomes. */
  lemma {:induction false} ApplyExtends(adj: Adj, es: seq<Edge>, accumulate: bool, x: NodeId, rel: NodeId)
    requires x in adj
    ensures ListAt(adj[x], rel) <= ListAt(Apply(adj, es, accumulate)[x], rel)
  {
    if es != [] {
      ApplyExtends(adj, es[..|es| - 1], accumulate, x, rel);
      DeliverExtends(Apply(adj, es[..|es| - 1], accumulate), es[|es| - 1], accumulate, x, rel);
    }
  }

  /**
   * Whatever the accumulation setting, once an edge is delivered its target
   * holds the entry's node: appended, or already there when the append is skipped.
   */
  lemma {:induction false} ApplyHolds(adj: Adj, es: seq<Edge>, accumulate: bool, e: Edge)
    requires e in es && e.owner in adj
    ensures ContainsNode(ListAt(Apply(adj, es, accumulate)[e.owner], e.rel), e.entry.node)
  {
    var p := es[..|es| - 1];
    var last := es[|es| - 1];
    var prev := Apply(adj, p, accumulate);
    if last == e {
      DeliverHolds(prev, e, accumulate);
    } else {
      assert e in p by {
        var i :| 0 <= i < |es| && es[i] == e;
        assert p[i] == e;
      }
      ApplyHolds(adj, p, accumulate, e);
      DeliverExtends(prev, last, accumulate, e.owner, e.rel);
      var l := ListAt(prev[e.owner], e.rel);
      var l2 := ListAt(Deliver(prev, last, accumulate)[e.owner], e.rel);
      assert l2 == l + l2[|l|..];
      ContainsNodeExtends(l, l2[|l|..], e.entry.node);
    }
  }

  predicate AllWellFormed(adj: Adj) {
    forall x :: x in adj ==> WellFormed(adj[x])
  }

  lemma AbsorbNonEmpty(l: seq<NodeTuple>, t: NodeTuple, accumulate: bool)
    ensures Absorb(l, [t], accumulate) != []
  {
    if l == [] {
      assert NodesOf(l) == [];
    }
  }

  /** Every slot relate creates is appended to at once, so no stored list is ever empty. */
  lemma {:induction false} ApplyWellFormed(adj: Adj, es: seq<Edge>, accumulate: bool)
    requires AllWellFormed(adj)
    ensures AllWellFormed(Apply(adj, es, accumulate))
  {
    if es != [] {
      var prev := Apply(adj, es[..|es| - 1], accumulate);
      ApplyWellFormed(adj, es[..|es| - 1], accumulate);
      var e := es[|es| - 1];
      if e.owner in prev {
        AbsorbNonEmpty(ListAt(prev[e.owner], e.rel), e.entry, accumulate);
        PutWellFormed(prev[e.owner], e.rel, Absorb(ListAt(prev[e.owner], e.rel), [e.entry], accumulate));
      }
    }
  }

  /** Every relation key and every stored node is below `n`. */
  predicate SlotsBounded(s: Slots, n: nat) {
    forall k :: k in s.lists ==> k < n && forall i :: 0 <= i < |s.lists[k]| ==> s.lists[k][i].node < n
  }

  predicate Bounded(adj: Adj, n: nat) {
    forall x :: x in adj ==> x < n && SlotsBounded(adj[x], n)
  }

  lemma BoundedGrow(adj: Adj, n: nat, m: nat)
    requires Bounded(adj, n) && n <= m
    ensures Bounded(adj, m)
  {
  }

  lemma {:induction false} ApplyBounded(adj: Adj, es: seq<Edge>, accumulate: bool, n: nat)
    requires Bounded(adj, n)
    requires forall e :: e in es ==> e.rel < n && e.entry.node < n
    ensures Bounded(Apply(adj, es, accumulate), n)
  {
    if es != [] {
      var p := es[..|es| - 1];
      var e := es[|es| - 1];
      assert forall e' :: e' in p ==> e' in es;
      ApplyBounded(adj, p, accumulate, n);
      assert e in es;
      DeliverBounded(Apply(adj, p, accumulate), e, accumulate, n);
    }
  }

  /** One write with an in-range relation and entry keeps every key and node in range. */
  lemma DeliverBounded(adj: Adj, e: Edge, accumulate: bool, n: nat)
    requires Bounded(adj, n) && e.rel < n && e.entry.node < n
    ensures Bounded(Deliver(adj, e, accumulate), n)
  {
    if e.owner in adj {
      var l := Absorb(ListAt(adj[e.owner], e.rel), [e.entry], accumulate);
      assert forall i :: 0 <= i < |l| ==> l[i].node < n by {
        forall i | 0 <= i < |l| ensures l[i].node < n {
          if i >= |ListAt(adj[e.owner], e.rel)| {
            assert l[i] == e.entry;
          }
        }
      }
      PutBounded(adj[e.owner], e.rel, l, n);
    }
  }

  lemma PutBounded(s: Slots, rel: NodeId, l: seq<NodeTuple>, n: nat)
    requires SlotsBounded(s, n) && rel < n
    requires forall i :: 0 <= i < |l| ==> l[i].node < n
    ensures SlotsBounded(Put(s, rel, l), n)
  {
    forall k | k in Put(s, rel, l).lists
      ensures k < n && forall i :: 0 <= i < |Put(s, rel, l).lists[k]| ==> Put(s, rel, l).lists[k][i].node < n
    {
      assert Put(s, rel, l).lists[k] == ListAt(Put(s, rel, l), k);
    }
  }

  /** Every stored list holds each node at most once. */
  predicate ListsDistinct(adj: Adj) {
    forall x, k :: x in adj && k in adj[x].lists ==> DistinctNodes(adj[x].lists[k])
  }

  /**
   * With accumulation off a node can be related only once: every stored list
   * keeps holding each node at most once.
   */
  lemma {:induction false} ApplyKeepsDistinct(adj: Adj, es: seq<Edge>)
    requires ListsDistinct(adj)
    ensures ListsDistinct(Apply(adj, es, false))
  {
    if es != [] {
      ApplyKeepsDistinct(adj, es[..|es| - 1]);
      var prev := Apply(adj, es[..|es| - 1], false);
      var e := es[|es| - 1];
      if e.owner in prev {
        var old_ := ListAt(prev[e.owner], e.rel);
        var l := Absorb(old_, [e.entry], false);
        assert DistinctNodes(old_);
        if l != old_ {
          assert l == old_ + [e.entry] && e.entry.node !in NodesOf(old_);
          forall i, j | 0 <= i < j < |l| ensures NodeOf(l[i]) != NodeOf(l[j]) {
            if j == |old_| {
              assert NodesOf(old_)[i] == l[i].node;
            } else {
              assert l[i] == old_[i] && l[j] == old_[j];
            }
          }
        }
      }
    }
  }

  // ---------------------------------------------------------------------------
  // The plan of relate
  // ---------------------------------------------------------------------------

  /**
   * The resolved names of one relate call: the two relation nodes (None for
   * an empty name), whether each is linked under `_connects`, and the
   * `_connects` node.
   */
  datatype Roles = Roles(leftward: Option<NodeId>, rightward: Option<NodeId>, linkLeft: bool, linkRight: bool, connects: NodeId)

  /** The auto-link written for left node `l` before its inner loop. */
  function Head(l: NodeTuple, ro: Roles): seq<Edge> {
    if ro.leftward.Some? && ro.linkLeft then [Edge(ro.leftward.value, ro.connects, NodeTuple(l.node, 1), LeftLink)] else []
  }

  /** The edges written for one pair (l, r) of the inner loop. */
  function Cell(l: NodeTuple, r: NodeTuple, ro: Roles): seq<Edge> {
    RightCell(l, r, ro) + LeftCell(l, r, ro)
  }

  /** The pair's `_connects` link and its forward edge, written when there is a rightward relation. */
  function RightCell(l: NodeTuple, r: NodeTuple, ro: Roles): seq<Edge> {
    if ro.rightward.Some? then
      (if ro.linkRight then [Edge(ro.rightward.value, ro.connects, NodeTuple(r.node, 1), RightLink)] else []) +
      [Edge(l.node, ro.rightward.value, r, Forward)]
    else []
  }

  /** The pair's backward edge, written when there is a leftward relation. */
  function LeftCell(l: NodeTuple, r: NodeTuple, ro: Roles): seq<Edge> {
    if ro.leftward.Some? then [Edge(r.node, ro.leftward.value, l, Backward)] else []
  }

  /** The inner loop over the right nodes, for left node `l`. */
  function Row(l: NodeTuple, rs: seq<NodeTuple>, ro: Roles): seq<Edge> {
    if rs == [] then [] else Row(l, rs[..|rs| - 1], ro) + Cell(l, rs[|rs| - 1], ro)
  }

  /** The outer loop over the left nodes: every edge relate writes, in order. */
  function Plan(ls: seq<NodeTuple>, rs: seq<NodeTuple>, ro: Roles): seq<Edge> {
    if ls == [] then [] else Plan(ls[..|ls| - 1], rs, ro) + Head(ls[|ls| - 1], ro) + Row(ls[|ls| - 1], rs, ro)
  }

  /** The plan of no left nodes is empty; the plan of all of them is the whole plan. */
  lemma PlanPrefixEnds(ls: seq<NodeTuple>, rs: seq<NodeTuple>, ro: Roles)
    ensures Plan(ls[..0], rs, ro) == [] && Plan(ls[..|ls|], rs, ro) == Plan(ls, rs, ro)
  {
    assert ls[..0] == [];
    assert ls[..|ls|] == ls;
  }

  /** The shape an edge of relate's plan must have, by kind. */
  predicate Expected(e: Edge, ls: seq<NodeTuple>, rs: seq<NodeTuple>, ro: Roles) {
    match e.kind
    case LeftLink =>
      ro.leftward.Some? && ro.linkLeft && e.owner == ro.leftward.value && e.rel == ro.connects &&
      exists i :: 0 <= i < |ls| && e.entry == NodeTuple(ls[i].node, 1)
    case RightLink =>
      ro.rightward.Some? && ro.linkRight && e.owner == ro.rightward.value && e.rel == ro.connects &&
      exists j :: 0 <= j < |rs| && e.entry == NodeTuple(rs[j].node, 1)
    case Forward =>
      ro.rightward.Some? && e.rel == ro.rightward.value &&
      exists i, j :: 0 <= i < |ls| && 0 <= j < |rs| && e.owner == ls[i].node && e.entry == rs[j]
    case Backward =>
      ro.leftward.Some? && e.rel == ro.leftward.value &&
      exists i, j :: 0 <= i < |ls| && 0 <= j < |rs| && e.owner == rs[j].node && e.entry == ls[i]
  }

  lemma ExpectedWiden(e: Edge, ls: seq<NodeTuple>, rs: seq<NodeTuple>, ls': seq<NodeTuple>, rs': seq<NodeTuple>, ro: Roles)
    requires Expected(e, ls, rs, ro)
    requires ls <= ls' && rs <= rs'
    ensures Expected(e, ls', rs', ro)
  {
    match e.kind
    case LeftLink =>
      var i :| 0 <= i < |ls| && e.entry == NodeTuple(ls[i].node, 1);
      assert ls'[i] == ls[i];
    case RightLink =>
      var j :| 0 <= j < |rs| && e.entry == NodeTuple(rs[j].node, 1);
      assert rs'[j] == rs[j];
    case Forward =>
      var i, j :| 0 <= i < |ls| && 0 <= j < |rs| && e.owner == ls[i].node && e.entry == rs[j];
      assert ls'[i] == ls[i] && rs'[j] == rs[j];
    case Backward =>
      var i, j :| 0 <= i < |ls| && 0 <= j < |rs| && e.owner == rs[j].node && e.entry == ls[i];
      assert ls'[i] == ls[i] && rs'[j] == rs[j];
  }

  lemma {:induction false} RowSound(ls: seq<NodeTuple>, i: nat, rs: seq<NodeTuple>, ro: Roles)
    requires i < |ls|
    ensures forall e :: e in Row(ls[i], rs, ro) ==> Expected(e, ls, rs, ro)
  {
    if rs != [] {
      var p := rs[..|rs| - 1];
      var j := |rs| - 1;
      RowSound(ls, i, p, ro);
      forall e | e in Row(ls[i], rs, ro) ensures Expected(e, ls, rs, ro) {
        if e in Row(ls[i], p, ro) {
          ExpectedWiden(e, ls, p, ls, rs, ro);
        } else {
          assert e in Cell(ls[i], rs[j], ro);
        }
      }
    }
  }

  /** relate writes nothing but its four kinds of edges. */
  lemma {:induction false} PlanSound(ls: seq<NodeTuple>, rs: seq<NodeTuple>, ro: Roles)
    ensures forall e :: e in Plan(ls, rs, ro) ==> Expected(e, ls, rs, ro)
  {
    if ls != [] {
      var p := ls[..|ls| - 1];
      var i := |ls| - 1;
      PlanSound(p, rs, ro);
      RowSound(ls, i, rs, ro);
      forall e | e in Plan(ls, rs, ro) ensures Expected(e, ls, rs, ro) {
        PlanStepSound(e, ls, rs, ro);
      }
    }
  }

  /** One edge of the plan with one more left node: from the shorter plan, the new head, or the new row. */
  lemma PlanStepSound(e: Edge, ls: seq<NodeTuple>, rs: seq<NodeTuple>, ro: Roles)
    requires ls != [] && e in Plan(ls, rs, ro)
    requires e in Plan(ls[..|ls| - 1], rs, ro) ==> Expected(e, ls[..|ls| - 1], rs, ro)
    requires e in Row(ls[|ls| - 1], rs, ro) ==> Expected(e, ls, rs, ro)
    ensures Expected(e, ls, rs, ro)
  {
    var p := ls[..|ls| - 1];
    if e in Plan(p, rs, ro) {
      ExpectedWiden(e, p, rs, ls, rs, ro);
    } else if e in Head(ls[|ls| - 1], ro) {
    } else {
      assert e in Row(ls[|ls| - 1], rs, ro);
    }
  }

  lemma {:induction false} RowComplete(l: NodeTuple, rs: seq<NodeTuple>, j: nat, ro: Roles)
    requires j < |rs|
    ensures forall e :: e in Cell(l, rs[j], ro) ==> e in Row(l, rs, ro)
  {
    if j < |rs| - 1 {
      RowComplete(l, rs[..|rs| - 1], j, ro);
    }
  }

  lemma {:induction false} PlanHasRow(ls: seq<NodeTuple>, rs: seq<NodeTuple>, i: nat, ro: Roles)
    requires i < |ls|
    ensures forall e :: e in Head(ls[i], ro) + Row(ls[i], rs, ro) ==> e in Plan(ls, rs, ro)
  {
    if i < |ls| - 1 {
      PlanHasRow(ls[..|ls| - 1], rs, i, ro);
    }
  }

  /**
   * For every left node l and right node r: l gains r under `rightward`, r
   * gains l under `leftward`, and the relation nodes gain their `_connects`
   * links, whenever the corresponding name is given.
   */
  lemma PlanComplete(ls: seq<NodeTuple>, rs: seq<NodeTuple>, ro: Roles, i: nat, j: nat)
    requires i < |ls| && j < |rs|
    ensures ro.rightward.Some? ==> Edge(ls[i].node, ro.rightward.value, rs[j], Forward) in Plan(ls, rs, ro)
    ensures ro.leftward.Some? ==> Edge(rs[j].node, ro.leftward.value, ls[i], Backward) in Plan(ls, rs, ro)
    ensures ro.rightward.Some? && ro.linkRight ==>
      Edge(ro.rightward.value, ro.connects, NodeTuple(rs[j].node, 1), RightLink) in Plan(ls, rs, ro)
    ensures ro.leftward.Some? && ro.linkLeft ==>
      Edge(ro.leftward.value, ro.connects, NodeTuple(ls[i].node, 1), LeftLink) in Plan(ls, rs, ro)
  {
    RowComplete(ls[i], rs, j, ro);
    PlanHasRow(ls, rs, i, ro);
  }

  /** The edges of one kind, in order. */
  function OfKind(es: seq<Edge>, k: Kind): seq<Edge> {
    if es == [] then [] else OfKind(es[..|es| - 1], k) + (if es[|es| - 1].kind == k then [es[|es| - 1]] else [])
  }

  lemma {:induction false} OfKindAppend(a: seq<Edge>, b: seq<Edge>, k: Kind)
    ensures OfKind(a + b, k) == OfKind(a, k) + OfKind(b, k)
  {
    if b == [] {
      assert a + b == a;
    } else {
      assert (a + b)[..|a + b| - 1] == a + b[..|b| - 1];
      assert (a + b)[|a + b| - 1] == b[|b| - 1];
      OfKindAppend(a, b[..|b| - 1], k);
    }
  }

  lemma MulSucc(n: nat, x: nat)
    ensures (n + 1) * x == n * x + x
  {
  }

  /**
   * After the plan is applied, for every pair (l, r): l holds r under
   * `rightward`, r holds l under `leftward`, and each relation node holds its
   * side's node under `_connects` when auto-linked.
   */
  lemma PlanHolds(adj: Adj, ls: seq<NodeTuple>, rs: seq<NodeTuple>, ro: Roles, accumulate: bool, i: nat, j: nat)
    requires i < |ls| && j < |rs| && ls[i].node in adj && rs[j].node in adj
    requires ro.leftward.Some? ==> ro.leftward.value in adj
    requires ro.rightward.Some? ==> ro.rightward.value in adj
    ensures var a := Apply(adj, Plan(ls, rs, ro), accumulate);
      (ro.rightward.Some? ==> ContainsNode(ListAt(a[ls[i].node], ro.rightward.value), rs[j].node)) &&
      (ro.leftward.Some? ==> ContainsNode(ListAt(a[rs[j].node], ro.leftward.value), ls[i].node)) &&
      (ro.rightward.Some? && ro.linkRight ==> ContainsNode(ListAt(a[ro.rightward.value], ro.connects), rs[j].node)) &&
      (ro.leftward.Some? && ro.linkLeft ==> ContainsNode(ListAt(a[ro.leftward.value], ro.connects), ls[i].node))
  {
    var es := Plan(ls, rs, ro);
    PlanComplete(ls, rs, ro, i, j);
    if ro.rightward.Some? {
      ApplyHolds(adj, es, accumulate, Edge(ls[i].node, ro.rightward.value, rs[j], Forward));
      if ro.linkRight {
        ApplyHolds(adj, es, accumulate, Edge(ro.rightward.value, ro.connects, NodeTuple(rs[j].node, 1), RightLink));
      }
    }
    if ro.leftward.Some? {
      ApplyHolds(adj, es, accumulate, Edge(rs[j].node, ro.leftward.value, ls[i], Backward));
      if ro.linkLeft {
        ApplyHolds(adj, es, accumulate, Edge(ro.leftward.value, ro.connects, NodeTuple(ls[i].node, 1), LeftLink));
      }
    }
  }

  /** With accumulation on, the entries are appended with their weights. */
  lemma PlanAppends(adj: Adj, ls: seq<NodeTuple>, rs: seq<NodeTuple>, ro: Roles, i: nat, j: nat)
    requires i < |ls| && j < |rs| && ls[i].node in adj && rs[j].node in adj
    ensures var a := Apply(adj, Plan(ls, rs, ro), true);
      (ro.rightward.Some? ==> rs[j] in ListAt(a[ls[i].node], ro.rightward.value)) &&
      (ro.leftward.Some? ==> ls[i] in ListAt(a[rs[j].node], ro.leftward.value))
  {
    var es := Plan(ls, rs, ro);
    PlanComplete(ls, rs, ro, i, j);
    if ro.rightward.Some? {
      EntriesMember(es, Edge(ls[i].node, ro.rightward.value, rs[j], Forward));
      ApplyAccumulates(adj, es, ls[i].node, ro.rightward.value);
    }
    if ro.leftward.Some? {
      EntriesMember(es, Edge(rs[j].node, ro.leftward.value, ls[i], Backward));
      ApplyAccumulates(adj, es, rs[j].node, ro.leftward.value);
    }
  }

  /** Without a rightward name, only right nodes and the leftward relation node are written. */
  lemma PlanOneWay(ls: seq<NodeTuple>, rs: seq<NodeTuple>, ro: Roles)
    requires ro.rightward.None?
    ensures forall e :: e in Plan(ls, rs, ro) ==>
      (e.kind == Backward && e.owner in NodesOf(rs)) || (e.kind == LeftLink && Some(e.owner) == ro.leftward)
  {
    PlanSound(ls, rs, ro);
    forall e | e in Plan(ls, rs, ro)
      ensures (e.kind == Backward && e.owner in NodesOf(rs)) || (e.kind == LeftLink && Some(e.owner) == ro.leftward)
    {
      assert Expected(e, ls, rs, ro);
      if e.kind == Backward {
        var i, j :| 0 <= i < |ls| && 0 <= j < |rs| && e.owner == rs[j].node && e.entry == ls[i];
        assert NodesOf(rs)[j] == e.owner;
      }
    }
  }

  /** Without a leftward name, only left nodes and the rightward relation node are written. */
  lemma PlanOneWayLeft(ls: seq<NodeTuple>, rs: seq<NodeTuple>, ro: Roles)
    requires ro.leftward.None?
    ensures forall e :: e in Plan(ls, rs, ro) ==>
      (e.kind == Forward && e.owner in NodesOf(ls)) || (e.kind == RightLink && Some(e.owner) == ro.rightward)
  {
    PlanSound(ls, rs, ro);
    forall e | e in Plan(ls, rs, ro)
      ensures (e.kind == Forward && e.owner in NodesOf(ls)) || (e.kind == RightLink && Some(e.owner) == ro.rightward)
    {
      assert Expected(e, ls, rs, ro);
      if e.kind == Forward {
        var i, j :| 0 <= i < |ls| && 0 <= j < |rs| && e.owner == ls[i].node && e.entry == rs[j];
        assert NodesOf(ls)[i] == e.owner;
      }
    }
  }

  /** How many edges of kind `k` one pair writes. */
  function CellCount(ro: Roles, k: Kind): nat {
    match k
    case LeftLink => 0
    case RightLink => if ro.rightward.Some? && ro.linkRight then 1 else 0
    case Forward => if ro.rightward.Some? then 1 else 0
    case Backward => if ro.leftward.Some? then 1 else 0
  }

  /** How many edges of kind `k` one left node writes before its inner loop. */
  function HeadCount(ro: Roles, k: Kind): nat {
    if k == LeftLink && ro.leftward.Some? && ro.linkLeft then 1 else 0
  }

  lemma CellKindCount(l: NodeTuple, r: NodeTuple, ro: Roles, k: Kind)
    ensures |OfKind(Cell(l, r, ro), k)| == CellCount(ro, k)
  {
    OfKindAppend(RightCell(l, r, ro), LeftCell(l, r, ro), k);
    RightCellKindCount(l, r, ro, k);
    LeftCellKindCount(l, r, ro, k);
  }

  lemma OfKindSingle(e: Edge, k: Kind)
    ensures OfKind([e], k) == if e.kind == k then [e] else []
  {
    assert [e][..0] == [];
  }

  lemma RightCellKindCount(l: NodeTuple, r: NodeTuple, ro: Roles, k: Kind)
    ensures |OfKind(RightCell(l, r, ro), k)| == if ro.rightward.Some? && (k == Forward || (k == RightLink && ro.linkRight)) then 1 else 0
  {
    if ro.rightward.Some? {
      var f := Edge(l.node, ro.rightward.value, r, Forward);
      OfKindSingle(f, k);
      if ro.linkRight {
        var c := Edge(ro.rightward.value, ro.connects, NodeTuple(r.node, 1), RightLink);
        OfKindSingle(c, k);
        OfKindAppend([c], [f], k);
      } else {
        assert RightCell(l, r, ro) == [f];
      }
    }
  }

  lemma LeftCellKindCount(l: NodeTuple, r: NodeTuple, ro: Roles, k: Kind)
    ensures |OfKind(LeftCell(l, r, ro), k)| == if ro.leftward.Some? && k == Backward then 1 else 0
  {
    if ro.leftward.Some? {
      OfKindSingle(Edge(r.node, ro.leftward.value, l, Backward), k);
    }
  }

  lemma {:induction false} RowKindCount(l: NodeTuple, rs: seq<NodeTuple>, ro: Roles, k: Kind)
    ensures |OfKind(Row(l, rs, ro), k)| == |rs| * CellCount(ro, k)
  {
    if rs != [] {
      var p := rs[..|rs| - 1];
      RowKindCount(l, p, ro, k);
      OfKindAppend(Row(l, p, ro), Cell(l, rs[|rs| - 1], ro), k);
      CellKindCount(l, rs[|rs| - 1], ro, k);
      MulSucc(|p|, CellCount(ro, k));
    }
  }

  /**
   * Counts per kind: each left node is linked once under leftward's
   * `_connects`; each right node once per left node under rightward's; one
   * Forward and one Backward edge per pair.
   */
  lemma {:induction false} PlanKindCount(ls: seq<NodeTuple>, rs: seq<NodeTuple>, ro: Roles, k: Kind)
    ensures |OfKind(Plan(ls, rs, ro), k)| == |ls| * (HeadCount(ro, k) + |rs| * CellCount(ro, k))
  {
    if ls != [] {
      var p := ls[..|ls| - 1];
      var l := ls[|ls| - 1];
      PlanKindCount(p, rs, ro, k);
      OfKindAppend(Plan(p, rs, ro) + Head(l, ro), Row(l, rs, ro), k);
      OfKindAppend(Plan(p, rs, ro), Head(l, ro), k);
      RowKindCount(l, rs, ro, k);
      HeadKindCount(l, ro, k);
      MulSucc(|p|, HeadCount(ro, k) + |rs| * CellCount(ro, k));
    }
  }

  lemma HeadKindCount(l: NodeTuple, ro: Roles, k: Kind)
    ensures |OfKind(Head(l, ro), k)| == HeadCount(ro, k)
  {
    if ro.leftward.Some? && ro.linkLeft {
      OfKindSingle(Edge(ro.leftward.value, ro.connects, NodeTuple(l.node, 1), LeftLink), k);
    }
  }

  /** With neither name given relate writes no edge at all. */
  lemma {:induction false} PlanWithoutNames(ls: seq<NodeTuple>, rs: seq<NodeTuple>, ro: Roles)
    requires ro.leftward.None? && ro.rightward.None?
    ensures Plan(ls, rs, ro) == []
  {
    if ls != [] {
      PlanWithoutNames(ls[..|ls| - 1], rs, ro);
      RowEmpty(ls[|ls| - 1], rs, ro);
    }
  }

  lemma {:induction false} RowEmpty(l: NodeTuple, rs: seq<NodeTuple>, ro: Roles)
    requires ro.leftward.None? && ro.rightward.None?
    ensures Row(l, rs, ro) == []
  {
    if rs != [] {
      RowEmpty(l, rs[..|rs| - 1], ro);
    }
  }
}
