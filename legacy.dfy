/**
 * The legacy, unweighted graph of pylog.py as objects: `Graph` keeps its
 * registry, relation maps and relations in fields that its methods update
 * in place, and `NodeList` wraps a list of nodes. Every method is proved
 * to leave the state, and return the value, that the functions of
 * LegacyState describe; the properties of those functions are proved there.
 *
 * A Node is its index into `Graph.names`; a Relation is its index into
 * `Graph.relations`.
 */
module Legacy {
  import opened Wrappers
  import opened Seqs
  import opened Frequency
  import opened LegacyState

  class Graph {
    /** `names[n]` is `Node.name` of node `n`. */
    var names: seq<string>
    /** `Graph.nodeReg`: exact name to node. */
    var nodeReg: map<string, NodeId>
    /** `Graph.nodes`: node to (relation to related nodes). */
    var adj: map<NodeId, Slots>
    /** `Graph.relations`, in creation order. */
    var relations: seq<Relation>

    function State(): GraphState
      reads this
    {
      GraphState(names, nodeReg, adj, relations)
    }

    ghost predicate Valid()
      reads this
    {
      LegacyState.Valid(State())
    }

    /** Graph() (pylog.py:10-15): no nodes and no relations. */
    constructor()
      ensures State() == Empty() && Valid()
    {
      names := [];
      nodeReg := map[];
      adj := map[];
      relations := [];
      EmptyValid();
    }

    /** The `str` branch of createNode (pylog.py:22-27): the node of that exact name, registered when new. */
    method AddName(name: string) returns (id: NodeId)
      modifies this
      ensures (State(), id) == NewNode(old(State()), name)
    {
      if name in nodeReg {
        id := nodeReg[name];
      } else {
        id := |names|;
        names := names + [name];
        nodeReg := nodeReg[name := id];
        adj := adj[id := map[]];
      }
    }

    /** createNode (pylog.py:17-29). */
    method CreateNode(a: Arg) returns (out: NodeList)
      modifies this
      ensures fresh(out)
      ensures (State(), out.nodes) == LegacyState.CreateNode(old(State()), a)
      ensures old(Valid()) ==> Valid()
      decreases a, 0
    {
      ghost var s0 := State();
      match a {
        case Name(s) =>
          var id := AddName(s);
          out := new NodeList([id]);
        case Items(xs) =>
          var parts := CreateEach(xs);
          var flat := FlattenList(parts);
          out := new NodeList(flat);
        case _ =>
          out := new NodeList([]);
      }
      if LegacyState.Valid(s0) {
        CreateNodeFacts(s0, a);
      }
    }

    /** The list comprehension of createNode (pylog.py:20): createNode of each item, in order. */
    method CreateEach(xs: seq<Arg>) returns (parts: seq<Nested<NodeId>>)
      modifies this
      ensures (State(), parts) == LegacyState.CreateEach(old(State()), xs)
      decreases xs, 1
    {
      ghost var s0 := State();
      parts := [];
      for i := 0 to |xs|
        invariant (State(), parts) == LegacyState.CreateEach(s0, xs[..i])
      {
        assert xs[..i + 1][..i] == xs[..i];
        var one := CreateNode(xs[i]);
        parts := parts + [Group(Flat(one.nodes))];
      }
      assert xs[..|xs|] == xs;
    }

    /**
     * get (pylog.py:36-47). A NodeList argument comes back with the same
     * nodes, in a new NodeList object.
     */
    method Get(a: Arg, create: bool) returns (out: NodeList)
      modifies this
      ensures fresh(out)
      ensures (State(), out.nodes) == LegacyState.Get(old(State()), a, create)
      decreases a, 0
    {
      match a
      case Listed(ids) =>
        out := new NodeList(ids);
      case Items(xs) =>
        var parts := GetEach(xs, create);
        var flat := FlattenList(parts);
        out := new NodeList(flat);
      case Name(s) =>
        if s in nodeReg {
          out := new NodeList([nodeReg[s]]);
        } else if !create {
          out := new NodeList([]);
        } else {
          out := CreateNode(a);
        }
      case Other =>
        out := new NodeList([]);
    }

    /** The list comprehension of get (pylog.py:40): get of each item, in order. */
    method GetEach(xs: seq<Arg>, create: bool) returns (parts: seq<Nested<NodeId>>)
      modifies this
      ensures (State(), parts) == LegacyState.GetEach(old(State()), xs, create)
      decreases xs, 1
    {
      ghost var s0 := State();
      parts := [];
      for i := 0 to |xs|
        invariant (State(), parts) == LegacyState.GetEach(s0, xs[..i], create)
      {
        assert xs[..i + 1][..i] == xs[..i];
        var one := Get(xs[i], create);
        parts := parts + [Group(Flat(one.nodes))];
      }
      assert xs[..|xs|] == xs;
    }

    /** createRelation (pylog.py:31-33): appends a new, empty relation and returns it. */
    method CreateRelation(name: string) returns (rid: RelId)
      modifies this
      ensures (State(), rid) == LegacyState.CreateRelation(old(State()), name)
    {
      relations := relations + [Relation(name, [])];
      rid := |relations| - 1;
    }

    /** getRelationByName (pylog.py:50-55): the loop over the relations in order. */
    method GetRelationByName(name: string) returns (r: Option<RelId>)
      ensures r == LegacyState.GetRelationByName(State(), name)
    {
      var key := Lower(name);
      for i := 0 to |relations|
        invariant forall j :: 0 <= j < i ==> relations[j].name != key
      {
        if relations[i].name == key {
          return Some(i);
        }
      }
      return None;
    }

    /**
     * rel (pylog.py:58-59): the nodes of the named relation; an unknown name
     * leaves None, whose `nodes` raises AttributeError.
     */
    method Rel(name: string) returns (r: Result<NodeList>)
      ensures r.Err? <==> LegacyState.GetRelationByName(State(), name).None?
      ensures r.Err? ==> r.error == AttributeError
      ensures r.Ok? ==> (fresh(r.value) &&
        r.value.nodes == relations[LegacyState.GetRelationByName(State(), name).value].nodes)
    {
      var found := GetRelationByName(name);
      if found.None? {
        return Err(AttributeError);
      }
      var out := new NodeList(relations[found.value].nodes);
      return Ok(out);
    }

    /** createRelationByName (pylog.py:62-66), storing the lowercased name that lookups use. */
    method CreateRelationByName(name: string) returns (rid: RelId)
      modifies this
      ensures (State(), rid) == LegacyState.CreateRelationByName(old(State()), name)
    {
      var found := GetRelationByName(name);
      if found.Some? {
        rid := found.value;
      } else {
        rid := CreateRelation(Lower(name));
      }
    }

    /** Relation.addNode (pylog.py:254-256) on relation `rid`. */
    method AddToRelation(rid: RelId, n: NodeId)
      requires rid < |relations|
      modifies this
      ensures State() == LegacyState.AddToRelation(old(State()), rid, n)
    {
      var rel := relations[rid];
      if n !in rel.nodes {
        relations := relations[rid := rel.(nodes := rel.nodes + [n])];
      }
    }

    /**
     * `nodes[owner][rel].append(m)`, creating the list first when the node
     * has none under `rel` (pylog.py:106-108, 110-112).
     */
    method AddEdge(owner: NodeId, rid: RelId, m: NodeId)
      requires owner in adj
      modifies this
      ensures State() == LegacyState.AddEdge(old(State()), owner, rid, m)
      ensures adj.Keys == old(adj.Keys)
    {
      var slots: Slots := adj[owner];
      var list: seq<NodeId> := if rid in slots then slots[rid] else [];
      adj := adj[owner := slots[rid := list + [m]]];
    }

    /** The body of the inner loop of createRelationship (pylog.py:104-112). */
    method LinkPair(r: NodeId, l: NodeId, leftRel: Option<RelId>, rightRel: Option<RelId>)
      requires r in adj && l in adj
      requires leftRel.Some? ==> leftRel.value < |relations|
      requires rightRel.Some? ==> rightRel.value < |relations|
      modifies this
      ensures State() == LegacyState.LinkPair(old(State()), r, l, leftRel, rightRel)
      ensures adj.Keys == old(adj.Keys) && |relations| == old(|relations|)
    {
      if rightRel.Some? {
        AddToRelation(rightRel.value, l);
        AddEdge(r, rightRel.value, l);
      }
      if leftRel.Some? {
        AddEdge(l, leftRel.value, r);
      }
    }

    /** The inner loop of createRelationship (pylog.py:103-112). */
    method LinkRow(r: NodeId, lefts: seq<NodeId>, leftRel: Option<RelId>, rightRel: Option<RelId>)
      requires r in adj && forall l :: l in lefts ==> l in adj
      requires leftRel.Some? ==> leftRel.value < |relations|
      requires rightRel.Some? ==> rightRel.value < |relations|
      modifies this
      ensures State() == LegacyState.LinkRow(old(State()), r, lefts, leftRel, rightRel)
      ensures adj.Keys == old(adj.Keys) && |relations| == old(|relations|)
    {
      ghost var s0 := State();
      for j := 0 to |lefts|
        invariant State() == LegacyState.LinkRow(s0, r, lefts[..j], leftRel, rightRel)
        invariant adj.Keys == s0.adj.Keys && |relations| == |s0.relations|
      {
        assert lefts[..j + 1][..j] == lefts[..j];
        LinkPair(r, lefts[j], leftRel, rightRel);
      }
      assert lefts[..|lefts|] == lefts;
    }

    /** The outer loop of createRelationship (pylog.py:100-112). */
    method Link(rights: seq<NodeId>, lefts: seq<NodeId>, leftRel: Option<RelId>, rightRel: Option<RelId>)
      requires (forall r :: r in rights ==> r in adj) && (forall l :: l in lefts ==> l in adj)
      requires leftRel.Some? ==> leftRel.value < |relations|
      requires rightRel.Some? ==> rightRel.value < |relations|
      modifies this
      ensures State() == LegacyState.Link(old(State()), rights, lefts, leftRel, rightRel)
    {
      ghost var s0 := State();
      for i := 0 to |rights|
        invariant State() == LegacyState.Link(s0, rights[..i], lefts, leftRel, rightRel)
        invariant adj.Keys == s0.adj.Keys && |relations| == |s0.relations|
      {
        assert rights[..i + 1][..i] == rights[..i];
        if leftRel.Some? {
          AddToRelation(leftRel.value, rights[i]);
        }
        LinkRow(rights[i], lefts, leftRel, rightRel);
      }
      assert rights[..|rights|] == rights;
    }

    /** The set-up of createRelationship (pylog.py:82-98). */
    method Prepare(leftNames: Arg, rightNames: Arg, leftToRight: string, rightToLeft: string) returns (p: Prepared)
      modifies this
      ensures (State(), p) == LegacyState.Prepare(old(State()), leftNames, rightNames, leftToRight, rightToLeft)
    {
      var left := Get(Wrap(leftNames), true);
      var right := Get(Wrap(rightNames), true);
      var leftRel: Option<RelId> := None;
      if rightToLeft != "" {
        var rid := CreateRelationByName(rightToLeft);
        leftRel := Some(rid);
      }
      var rightRel: Option<RelId> := None;
      if leftToRight != "" {
        var rid := CreateRelationByName(leftToRight);
        rightRel := Some(rid);
      }
      p := Prepared(left.nodes, right.nodes, leftRel, rightRel);
    }

    /**
     * createRelationship (pylog.py:81-112). The NodeLists passed in must
     * hold nodes of this graph: `self.nodes[r]` has no entry for any other.
     */
    method CreateRelationship(leftNames: Arg, rightNames: Arg, leftToRight: string, rightToLeft: string)
      requires Valid() && ArgIn(leftNames, |names|) && ArgIn(rightNames, |names|)
      modifies this
      ensures State() == LegacyState.CreateRelationship(old(State()), leftNames, rightNames, leftToRight, rightToLeft)
      ensures Valid()
    {
      ghost var s0 := State();
      PrepareFacts(s0, leftNames, rightNames, leftToRight, rightToLeft);
      CreateRelationshipPlaces(s0, leftNames, rightNames, leftToRight, rightToLeft);
      var p := Prepare(leftNames, rightNames, leftToRight, rightToLeft);
      assert forall n: NodeId :: n in p.right || n in p.left ==> n in adj;
      Link(p.right, p.left, p.leftRel, p.rightRel);
    }

    /** createBijection (pylog.py:70-71): one relation in both directions. */
    method CreateBijection(leftNames: Arg, rightNames: Arg, relation: string)
      requires Valid() && ArgIn(leftNames, |names|) && ArgIn(rightNames, |names|)
      modifies this
      ensures State() == LegacyState.CreateRelationship(old(State()), leftNames, rightNames, relation, relation)
      ensures Valid()
    {
      CreateRelationship(leftNames, rightNames, relation, relation);
    }

    /** createOneWay (pylog.py:74-75): no right-to-left relation. */
    method CreateOneWay(leftNames: Arg, rightNames: Arg, relation: string)
      requires Valid() && ArgIn(leftNames, |names|) && ArgIn(rightNames, |names|)
      modifies this
      ensures State() == LegacyState.CreateRelationship(old(State()), leftNames, rightNames, relation, "")
      ensures Valid()
    {
      CreateRelationship(leftNames, rightNames, relation, "");
    }

    /** Node.rel (pylog.py:165-171) for node `n` of this graph. */
    method NodeRel(n: NodeId, relation: string) returns (out: NodeList)
      requires n in adj
      ensures fresh(out) && out.nodes == LegacyState.NodeRel(State(), n, relation)
    {
      var rel := GetRelationByName(relation);
      var s := adj[n];
      if rel.Some? && rel.value in s {
        out := new NodeList(s[rel.value]);
      } else {
        out := new NodeList([]);
      }
    }
  }

  /** NodeList (pylog.py:182-239): a list of nodes. */
  class NodeList {
    var nodes: seq<NodeId>

    constructor(ns: seq<NodeId>)
      ensures nodes == ns
    {
      nodes := ns;
    }

    /** append (pylog.py:203-204). */
    method Append(n: NodeId)
      modifies this
      ensures nodes == old(nodes) + [n]
    {
      nodes := nodes + [n];
    }

    /** remove (pylog.py:206-207): the first occurrence goes; a missing node raises ValueError. */
    method Remove(n: NodeId) returns (r: Result<()>)
      modifies this
      ensures n in old(nodes) ==> r == Ok(()) && nodes == RemoveFirst(old(nodes), n)
      ensures n !in old(nodes) ==> r == Err(ValueError) && nodes == old(nodes)
    {
      if n !in nodes {
        return Err(ValueError);
      }
      nodes := RemoveFirst(nodes, n);
      return Ok(());
    }

    /** isEmpty (pylog.py:209-210). */
    function IsEmpty(): (b: bool)
      reads this
      ensures b <==> forall n: NodeId :: n !in nodes
    {
      assert |nodes| > 0 ==> nodes[0] in nodes;
      |nodes| == 0
    }

    /** eq (pylog.py:218-219): Python indexing, negative indices from the end. */
    function Eq(index: int): (r: Result<NodeId>)
      reads this
      ensures r.Ok? <==> -|nodes| <= index < |nodes|
      ensures r.Err? ==> r.error == IndexError
      ensures r.Ok? ==> r.value == nodes[if index >= 0 then index else |nodes| + index]
    {
      PyIndex(nodes, index)
    }

    /** rel (pylog.py:213-215): Node.rel of every node, flattened. */
    method Rel(g: Graph, name: string) returns (out: NodeList)
      requires forall n :: n in nodes ==> n in g.adj
      ensures fresh(out) && out.nodes == ListRel(g.State(), nodes, name)
    {
      var parts: seq<Nested<NodeId>> := [];
      for i := 0 to |nodes|
        invariant parts == RelParts(g.State(), nodes[..i], name)
      {
        assert nodes[..i + 1][..i] == nodes[..i];
        var one := g.NodeRel(nodes[i], name);
        parts := parts + [Group(Flat(one.nodes))];
      }
      assert nodes[..|nodes|] == nodes;
      var flat := FlattenList(parts);
      out := new NodeList(flat);
    }

    /** filterByName (pylog.py:222-223), for nodes of graph `g`. */
    method FilterByName(g: Graph, name: string) returns (out: NodeList)
      requires Below(nodes, |g.names|)
      ensures fresh(out) && out.nodes == LegacyState.FilterByName(g.names, nodes, name)
    {
      out := new NodeList(LegacyState.FilterByName(g.names, nodes, name));
    }

    /** limit (pylog.py:226-227). */
    method Limit(includes: NodeList) returns (out: NodeList)
      ensures fresh(out) && out.nodes == LegacyState.Limit(nodes, includes.nodes)
    {
      out := new NodeList(LegacyState.Limit(nodes, includes.nodes));
    }

    /** exclude (pylog.py:230-231). */
    method Exclude(excludes: NodeList) returns (out: NodeList)
      ensures fresh(out) && out.nodes == LegacyState.Exclude(nodes, excludes.nodes)
    {
      out := new NodeList(LegacyState.Exclude(nodes, excludes.nodes));
    }

    /** merge (pylog.py:234-235). */
    method Merge(includes: NodeList) returns (out: NodeList)
      ensures fresh(out) && out.nodes == LegacyState.Merge(nodes, includes.nodes)
    {
      var flat := FlattenList([Group(Flat(nodes)), Group(Flat(includes.nodes))]);
      out := new NodeList(flat);
    }
  }
}
