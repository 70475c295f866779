/**
 * The state of the legacy, unweighted Graph of pylog.py as a value, and what
 * its operations do to it: node creation (`createNode`, `get`), relations
 * (`createRelation`, `getRelationByName`, `createRelationByName`,
 * `Relation.addNode`), `createRelationship` with its nested loops, and the
 * read-only queries of Node and NodeList.
 *
 * A Node object is identified by its position in `names` (nodes are only
 * ever created, once per exact name); a Relation object by its position in
 * `relations`, which is only ever appended to.
 */
module LegacyState {
  import opened Wrappers
  import opened Seqs
  import opened Frequency

  type NodeId = nat
  type RelId = nat

  /** A Relation: its name as stored, and the nodes added to it. */
  datatype Relation = Relation(name: string, nodes: seq<NodeId>)

  /**
   * The names argument of createNode and get: a string, a (nested) list, a
   * NodeList (its nodes), or a value of any other type.
   */
  datatype Arg = Name(s: string) | Items(xs: seq<Arg>) | Listed(ids: seq<NodeId>) | Other

  /** The relations of one node: relation to the list of related nodes (`Graph.nodes[n]`). */
  type Slots = map<RelId, seq<NodeId>>

  /**
   * `names[id]` is the name of node `id`; `nodeReg` maps exact names to nodes,
   * `adj` is `Graph.nodes` and `relations` is `Graph.relations`.
   */
  datatype GraphState = GraphState(names: seq<string>, nodeReg: map<string, NodeId>, adj: map<NodeId, Slots>, relations: seq<Relation>)

  function Empty(): GraphState {
    GraphState([], map[], map[], [])
  }

  /** nodeReg is a bijection onto the nodes, and every node has a relation map. */
  ghost predicate Registered(st: GraphState) {
    (forall s :: s in st.nodeReg ==> st.nodeReg[s] < |st.names| && st.names[st.nodeReg[s]] == s) &&
    (forall id :: 0 <= id < |st.names| ==> st.names[id] in st.nodeReg && st.nodeReg[st.names[id]] == id) &&
    (forall id: NodeId :: id in st.adj <==> id < |st.names|)
  }

  /** Every relation's node list is duplicate-free and holds nodes of the graph. */
  ghost predicate RelationsSound(st: GraphState) {
    forall rid :: 0 <= rid < |st.relations| ==>
      Distinct(st.relations[rid].nodes) && forall m: NodeId :: m in st.relations[rid].nodes ==> m < |st.names|
  }

  /** Every list of `slots` is stored under a relation of the graph that contains all of it. */
  ghost predicate SlotsSound(st: GraphState, slots: Slots) {
    forall rid: RelId :: rid in slots ==>
      rid < |st.relations| && forall m: NodeId :: m in slots[rid] ==> m in st.relations[rid].nodes
  }

  /** Each relation's list contains every node stored under that relation. */
  ghost predicate EdgesSound(st: GraphState) {
    forall id: NodeId :: id in st.adj ==> SlotsSound(st, st.adj[id])
  }

  ghost predicate Valid(st: GraphState) {
    Registered(st) && RelationsSound(st) && EdgesSound(st)
  }

  lemma EmptyValid()
    ensures Valid(Empty())
  {
  }

  /** `b` only adds nodes to `a`: existing names, nodes and relation maps are kept. */
  ghost predicate Grows(a: GraphState, b: GraphState) {
    a.names <= b.names &&
    (forall s :: s in a.nodeReg ==> s in b.nodeReg && b.nodeReg[s] == a.nodeReg[s]) &&
    (forall id: NodeId :: id in a.adj ==> id in b.adj && b.adj[id] == a.adj[id]) &&
    b.relations == a.relations
  }

  lemma GrowsTrans(a: GraphState, b: GraphState, c: GraphState)
    requires Grows(a, b) && Grows(b, c)
    ensures Grows(a, c)
  {
  }

  // ---------------------------------------------------------------------------
  // createNode
  // ---------------------------------------------------------------------------

  /** createNode for a string (pylog.py:22-27): the node of that exact name, created with no relations if missing. */
  function NewNode(st: GraphState, name: string): (GraphState, NodeId) {
    if name in st.nodeReg then (st, st.nodeReg[name])
    else
      var id := |st.names|;
      (st.(names := st.names + [name], nodeReg := st.nodeReg[name := id], adj := st.adj[id := map[]]), id)
  }

  lemma NewNodeValid(st: GraphState, name: string)
    requires Valid(st)
    ensures Valid(NewNode(st, name).0) && Grows(st, NewNode(st, name).0)
    ensures name in NewNode(st, name).0.nodeReg && NewNode(st, name).0.nodeReg[name] == NewNode(st, name).1
  {
    if name !in st.nodeReg {
      var s := NewNode(st, name).0;
      var id := |st.names|;
      forall i | 0 <= i < |s.names| ensures s.names[i] in s.nodeReg && s.nodeReg[s.names[i]] == i {
        if i < id {
          assert s.names[i] == st.names[i];
        }
      }
      assert st.names <= s.names;
      assert EdgesSound(s) by {
        forall n: NodeId, rid: RelId | n in s.adj && rid in s.adj[n]
          ensures rid < |s.relations| && forall m: NodeId :: m in s.adj[n][rid] ==> m in s.relations[rid].nodes
        {
          assert n != id;
          assert s.adj[n] == st.adj[n];
        }
      }
    }
  }

  /** A node created by createNode starts with an empty relation map. */
  lemma NewNodeFresh(st: GraphState, name: string)
    requires Valid(st) && name !in st.nodeReg
    ensures var (s, id) := NewNode(st, name);
      id !in st.adj && s.adj[id] == map[] && s.names[id] == name && |s.names| == |st.names| + 1
  {
  }

  /** createNode (pylog.py:17-29): a list creates its items in order and returns them flattened. */
  function CreateNode(st: GraphState, a: Arg): (GraphState, seq<NodeId>)
    decreases a, 0
  {
    match a
    case Name(s) => var (s1, id) := NewNode(st, s); (s1, [id])
    case Items(xs) => var (s1, parts) := CreateEach(st, xs); (s1, Flatten(parts))
    case _ => (st, [])
  }

  /** The list comprehension of createNode: one NodeList per item, left to right. */
  function CreateEach(st: GraphState, xs: seq<Arg>): (GraphState, seq<Nested<NodeId>>)
    decreases xs, 1
  {
    if xs == [] then (st, [])
    else
      var (s1, parts) := CreateEach(st, xs[..|xs| - 1]);
      var (s2, ids) := CreateNode(s1, xs[|xs| - 1]);
      (s2, parts + [Group(Flat(ids))])
  }

  /** Every name `a` gives is a node of `st`. */
  ghost predicate Known(st: GraphState, a: Arg)
    decreases a
  {
    match a
    case Name(s) => s in st.nodeReg
    case Items(xs) => forall i :: 0 <= i < |xs| ==> Known(st, xs[i])
    case _ => true
  }

  /** What createNode returns once every name of `a` exists: the nodes of those names. */
  function Resolve(st: GraphState, a: Arg): seq<NodeId>
    decreases a, 0
  {
    match a
    case Name(s) => if s in st.nodeReg then [st.nodeReg[s]] else []
    case Items(xs) => Flatten(ResolveEach(st, xs))
    case _ => []
  }

  function ResolveEach(st: GraphState, xs: seq<Arg>): seq<Nested<NodeId>>
    decreases xs, 1
  {
    if xs == [] then [] else ResolveEach(st, xs[..|xs| - 1]) + [Group(Flat(Resolve(st, xs[|xs| - 1])))]
  }

  lemma {:induction false} KnownGrows(a: GraphState, b: GraphState, x: Arg)
    requires Grows(a, b) && Known(a, x)
    ensures Known(b, x)
    decreases x
  {
    match x
    case Items(xs) =>
      forall i | 0 <= i < |xs| ensures Known(b, xs[i]) {
        KnownGrows(a, b, xs[i]);
      }
    case _ =>
  }

  lemma {:induction false} ResolveGrows(a: GraphState, b: GraphState, x: Arg)
    requires Grows(a, b) && Known(a, x)
    ensures Resolve(b, x) == Resolve(a, x)
    decreases x, 0
  {
    match x
    case Items(xs) => ResolveEachGrows(a, b, xs);
    case _ =>
  }

  lemma {:induction false} ResolveEachGrows(a: GraphState, b: GraphState, xs: seq<Arg>)
    requires Grows(a, b) && forall i :: 0 <= i < |xs| ==> Known(a, xs[i])
    ensures ResolveEach(b, xs) == ResolveEach(a, xs)
    decreases xs, 1
  {
    if xs != [] {
      ResolveEachGrows(a, b, xs[..|xs| - 1]);
      ResolveGrows(a, b, xs[|xs| - 1]);
    }
  }

  /** createNode keeps the graph valid, only adds nodes, and returns the nodes of the names it was given. */
  lemma {:induction false} CreateNodeFacts(st: GraphState, a: Arg)
    requires Valid(st)
    ensures var (s, ids) := CreateNode(st, a);
      Valid(s) && Grows(st, s) && Known(s, a) && ids == Resolve(s, a)
    decreases a, 0
  {
    match a
    case Name(x) => NewNodeValid(st, x);
    case Items(xs) => CreateEachFacts(st, xs);
    case _ =>
  }

  /** Every item of `xs` is Known. */
  ghost predicate KnownAll(st: GraphState, xs: seq<Arg>) {
    forall i :: 0 <= i < |xs| ==> Known(st, xs[i])
  }

  lemma KnownAllGrows(a: GraphState, b: GraphState, xs: seq<Arg>)
    requires Grows(a, b) && KnownAll(a, xs)
    ensures KnownAll(b, xs)
  {
    forall i | 0 <= i < |xs| ensures Known(b, xs[i]) {
      KnownGrows(a, b, xs[i]);
    }
  }

  lemma KnownAllSnoc(st: GraphState, p: seq<Arg>, x: Arg)
    requires KnownAll(st, p) && Known(st, x)
    ensures KnownAll(st, p + [x])
  {
    var xs := p + [x];
    forall i | 0 <= i < |xs| ensures Known(st, xs[i]) {
      if i < |p| {
        assert xs[i] == p[i];
      }
    }
  }

  lemma {:induction false} CreateEachFacts(st: GraphState, xs: seq<Arg>)
    requires Valid(st)
    ensures Valid(CreateEach(st, xs).0) && Grows(st, CreateEach(st, xs).0)
    ensures KnownAll(CreateEach(st, xs).0, xs)
    ensures CreateEach(st, xs).1 == ResolveEach(CreateEach(st, xs).0, xs)
    decreases xs, 1
  {
    if xs != [] {
      var p := xs[..|xs| - 1];
      var x := xs[|xs| - 1];
      CreateEachFacts(st, p);
      var r1 := CreateEach(st, p);
      CreateNodeFacts(r1.0, x);
      var r2 := CreateNode(r1.0, x);
      assert CreateEach(st, xs) == (r2.0, r1.1 + [Group(Flat(r2.1))]);
      CreateEachStep(st, r1.0, r2.0, p, x, xs, r1.1, r2.1);
    }
  }

  /** One more argument created: growth, knownness and the resolved parts carry over. */
  lemma CreateEachStep(st: GraphState, s1: GraphState, s2: GraphState, p: seq<Arg>, x: Arg, xs: seq<Arg>,
                       parts: seq<Nested<NodeId>>, ids: seq<NodeId>)
    requires xs != [] && p == xs[..|xs| - 1] && x == xs[|xs| - 1]
    requires Grows(st, s1) && KnownAll(s1, p) && parts == ResolveEach(s1, p)
    requires Grows(s1, s2) && Known(s2, x) && ids == Resolve(s2, x)
    ensures Grows(st, s2) && KnownAll(s2, xs) && parts + [Group(Flat(ids))] == ResolveEach(s2, xs)
  {
    GrowsTrans(st, s1, s2);
    KnownAllGrows(s1, s2, p);
    FrontLast(xs);
    KnownAllSnoc(s2, p, x);
    ResolveEachGrows(s1, s2, p);
  }


  /** With every name already present, createNode changes nothing. */
  lemma {:induction false} KnownCreate(st: GraphState, a: Arg)
    requires Known(st, a)
    ensures CreateNode(st, a) == (st, Resolve(st, a))
    decreases a, 0
  {
    match a
    case Items(xs) => KnownCreateEach(st, xs);
    case _ =>
  }

  lemma {:induction false} KnownCreateEach(st: GraphState, xs: seq<Arg>)
    requires forall i :: 0 <= i < |xs| ==> Known(st, xs[i])
    ensures CreateEach(st, xs) == (st, ResolveEach(st, xs))
    decreases xs, 1
  {
    if xs != [] {
      KnownCreateEach(st, xs[..|xs| - 1]);
      KnownCreate(st, xs[|xs| - 1]);
    }
  }

  /** createNode is idempotent: a second call with the same names gives the same nodes and changes nothing. */
  lemma CreateNodeIdempotent(st: GraphState, a: Arg)
    requires Valid(st)
    ensures CreateNode(CreateNode(st, a).0, a) == CreateNode(st, a)
  {
    CreateNodeFacts(st, a);
    KnownCreate(CreateNode(st, a).0, a);
  }

  // ---------------------------------------------------------------------------
  // get
  // ---------------------------------------------------------------------------

  /** get (pylog.py:36-47). A value of another type is not a key of nodeReg, and createNode gives nothing for it. */
  function Get(st: GraphState, a: Arg, create: bool): (GraphState, seq<NodeId>)
    decreases a, 0
  {
    match a
    case Listed(ids) => (st, ids)
    case Items(xs) => var (s1, parts) := GetEach(st, xs, create); (s1, Flatten(parts))
    case Name(s) =>
      if s in st.nodeReg then (st, [st.nodeReg[s]])
      else if !create then (st, [])
      else CreateNode(st, a)
    case Other => (st, [])
  }

  function GetEach(st: GraphState, xs: seq<Arg>, create: bool): (GraphState, seq<Nested<NodeId>>)
    decreases xs, 1
  {
    if xs == [] then (st, [])
    else
      var (s1, parts) := GetEach(st, xs[..|xs| - 1], create);
      var (s2, ids) := Get(s1, xs[|xs| - 1], create);
      (s2, parts + [Group(Flat(ids))])
  }

  /** get without create never changes the graph. */
  lemma {:induction false} GetReadOnly(st: GraphState, a: Arg)
    ensures Get(st, a, false).0 == st
    decreases a, 0
  {
    match a
    case Items(xs) => GetEachReadOnly(st, xs);
    case _ =>
  }

  lemma {:induction false} GetEachReadOnly(st: GraphState, xs: seq<Arg>)
    ensures GetEach(st, xs, false).0 == st
    decreases xs, 1
  {
    if xs != [] {
      GetEachReadOnly(st, xs[..|xs| - 1]);
      GetReadOnly(st, xs[|xs| - 1]);
    }
  }

  /** `a` holds no NodeList. */
  predicate Plain(a: Arg)
    decreases a
  {
    match a
    case Listed(_) => false
    case Items(xs) => forall i :: 0 <= i < |xs| ==> Plain(xs[i])
    case _ => true
  }

  /** Every NodeList inside `a` holds nodes of a graph of `n` nodes. */
  predicate ArgIn(a: Arg, n: nat)
    decreases a
  {
    match a
    case Listed(ids) => forall id: NodeId :: id in ids ==> id < n
    case Items(xs) => forall i :: 0 <= i < |xs| ==> ArgIn(xs[i], n)
    case _ => true
  }

  lemma {:induction false} ArgInGrows(a: Arg, n: nat, m: nat)
    requires ArgIn(a, n) && n <= m
    ensures ArgIn(a, m)
    decreases a
  {
    match a
    case Items(xs) =>
      forall i | 0 <= i < |xs| ensures ArgIn(xs[i], m) {
        ArgInGrows(xs[i], n, m);
      }
    case _ =>
  }

  /** Once every name exists, get (with or without create) finds what createNode returns. */
  lemma {:induction false} GetKnown(st: GraphState, a: Arg, create: bool)
    requires Known(st, a) && Plain(a)
    ensures Get(st, a, create) == (st, Resolve(st, a))
    decreases a, 0
  {
    match a
    case Items(xs) => GetEachKnown(st, xs, create);
    case _ =>
  }

  lemma {:induction false} GetEachKnown(st: GraphState, xs: seq<Arg>, create: bool)
    requires forall i :: 0 <= i < |xs| ==> Known(st, xs[i]) && Plain(xs[i])
    ensures GetEach(st, xs, create) == (st, ResolveEach(st, xs))
    decreases xs, 1
  {
    if xs != [] {
      GetEachKnown(st, xs[..|xs| - 1], create);
      GetKnown(st, xs[|xs| - 1], create);
    }
  }

  /** After createNode, a plain get of the same names finds exactly the nodes createNode returned. */
  lemma CreateThenGet(st: GraphState, a: Arg)
    requires Valid(st) && Plain(a)
    ensures Get(CreateNode(st, a).0, a, false) == CreateNode(st, a)
  {
    CreateNodeFacts(st, a);
    GetKnown(CreateNode(st, a).0, a, false);
  }

  /** Every value of nested lists of nodes below `n` is below `n`. */
  ghost predicate Below(ids: seq<NodeId>, n: nat) {
    forall id: NodeId :: id in ids ==> id < n
  }

  lemma BelowInit(s: seq<NodeId>, n: nat)
    requires Below(s, n) && s != []
    ensures Below(s[..|s| - 1], n) && s[|s| - 1] < n
  {
    var p := s[..|s| - 1];
    forall id: NodeId | id in p ensures id < n {
      var i :| 0 <= i < |p| && p[i] == id;
      assert s[i] == id;
      assert id in s;
    }
    assert s[|s| - 1] in s;
  }

  lemma LeavesSnocBelow(parts: seq<Nested<NodeId>>, ids: seq<NodeId>, n: nat)
    requires Below(Leaves(parts), n) && Below(ids, n)
    ensures Below(Leaves(parts + [Group(Flat(ids))]), n)
  {
    LeavesAppend(parts, [Group(Flat(ids))]);
    LeavesOfFlat(ids);
    assert Leaves([Group(Flat(ids))]) == LeavesOf(Group(Flat(ids))) + Leaves([]);
  }

  /** get with create keeps the graph valid, only adds nodes, and returns nodes of the graph. */
  lemma {:induction false} GetFacts(st: GraphState, a: Arg, create: bool)
    requires Valid(st) && ArgIn(a, |st.names|)
    ensures var (s, ids) := Get(st, a, create);
      Valid(s) && Grows(st, s) && Below(ids, |s.names|)
    decreases a, 0
  {
    match a
    case Items(xs) => GetEachFacts(st, xs, create);
    case Name(x) =>
      if x !in st.nodeReg && create {
        NewNodeValid(st, x);
      }
    case _ =>
  }

  lemma {:induction false} GetEachFacts(st: GraphState, xs: seq<Arg>, create: bool)
    requires Valid(st) && forall i :: 0 <= i < |xs| ==> ArgIn(xs[i], |st.names|)
    ensures var (s, parts) := GetEach(st, xs, create);
      Valid(s) && Grows(st, s) && Below(Leaves(parts), |s.names|)
    decreases xs, 1
  {
    if xs != [] {
      var p := xs[..|xs| - 1];
      var x := xs[|xs| - 1];
      GetEachFacts(st, p, create);
      var (s1, parts) := GetEach(st, p, create);
      ArgInGrows(x, |st.names|, |s1.names|);
      GetFacts(s1, x, create);
      var (s2, ids) := Get(s1, x, create);
      GrowsTrans(st, s1, s2);
      LeavesSnocBelow(parts, ids, |s2.names|);
    }
  }

  // ---------------------------------------------------------------------------
  // Relations
  // ---------------------------------------------------------------------------

  /** The loop of getRelationByName: the first relation whose stored name is `key`. */
  function FindRelation(rels: seq<Relation>, key: string): (r: Option<RelId>)
    ensures r.Some? ==> (r.value < |rels| && rels[r.value].name == key &&
      forall i :: 0 <= i < r.value ==> rels[i].name != key)
    ensures r.None? ==> forall i :: 0 <= i < |rels| ==> rels[i].name != key
  {
    if rels == [] then None
    else
      var p := FindRelation(rels[..|rels| - 1], key);
      if p.Some? then p
      else if rels[|rels| - 1].name == key then Some(|rels| - 1)
      else None
  }

  /** getRelationByName (pylog.py:50-55): the query is lowercased, the stored names are not. */
  function GetRelationByName(st: GraphState, name: string): Option<RelId> {
    FindRelation(st.relations, Lower(name))
  }

  /** createRelation (pylog.py:31-33): a new, empty relation under the name as given. */
  function CreateRelation(st: GraphState, name: string): (GraphState, RelId) {
    (st.(relations := st.relations + [Relation(name, [])]), |st.relations|)
  }

  /** createRelationByName as written (pylog.py:62-66): a miss creates the relation under the name as given. */
  function CreateRelationByNameAsWritten(st: GraphState, name: string): (GraphState, RelId) {
    match GetRelationByName(st, name)
    case Some(rid) => (st, rid)
    case None => CreateRelation(st, name)
  }

  /** createRelationByName with the relation stored under the lowercased name that lookups use. */
  function CreateRelationByName(st: GraphState, name: string): (GraphState, RelId) {
    match GetRelationByName(st, name)
    case Some(rid) => (st, rid)
    case None => CreateRelation(st, Lower(name))
  }

  /**
   * A name with an upper-case letter is never found again: each
   * createRelationByName call as written appends one more relation.
   */
  lemma AsWrittenDuplicates(st: GraphState, name: string)
    requires Lower(name) != name
    requires GetRelationByName(st, name).None?
    ensures var (s1, r1) := CreateRelationByNameAsWritten(st, name);
      var (s2, r2) := CreateRelationByNameAsWritten(s1, name);
      |s2.relations| == |st.relations| + 2 && r1 != r2 &&
      s2.relations[r1].name == name && s2.relations[r2].name == name
  {
    var s1 := CreateRelationByNameAsWritten(st, name).0;
    assert GetRelationByName(s1, name).None? by {
      assert forall i :: 0 <= i < |s1.relations| ==> s1.relations[i].name != Lower(name) by {
        forall i | 0 <= i < |s1.relations| ensures s1.relations[i].name != Lower(name) {
          if i < |st.relations| {
            assert s1.relations[i] == st.relations[i];
          }
        }
      }
    }
  }

  /** The smallest case: a graph that creates the relation "Friends" twice holds two relations of that name. */
  lemma AsWrittenFriendsTwice()
    ensures var (s1, _) := CreateRelationByNameAsWritten(Empty(), "Friends");
      |CreateRelationByNameAsWritten(s1, "Friends").0.relations| == 2
  {
    assert Lower("Friends")[0] == 'f' != "Friends"[0];
    AsWrittenDuplicates(Empty(), "Friends");
  }

  /**
   * The two readings differ only in the stored name: they agree on every
   * name already in lower case, and otherwise the as-written one stores the
   * name as given where the corrected one stores its lowercase form.
   */
  lemma CreateRelationByNameReadings(st: GraphState, name: string)
    ensures Lower(name) == name ==> CreateRelationByNameAsWritten(st, name) == CreateRelationByName(st, name)
    ensures GetRelationByName(st, name).None? ==>
      CreateRelationByNameAsWritten(st, name) == CreateRelation(st, name) &&
      CreateRelationByName(st, name) == CreateRelation(st, Lower(name))
    ensures GetRelationByName(st, name).Some? ==> CreateRelationByNameAsWritten(st, name) == CreateRelationByName(st, name)
  {
  }

  /** The corrected createRelationByName: the relation found or made carries the lowercased name, and nothing else changes. */
  lemma CreateRelationByNameFacts(st: GraphState, name: string)
    requires Valid(st)
    ensures var (s, rid) := CreateRelationByName(st, name);
      Valid(s) && rid < |s.relations| && s.relations[rid].name == Lower(name) &&
      s.names == st.names && s.nodeReg == st.nodeReg && s.adj == st.adj &&
      st.relations <= s.relations && |s.relations| <= |st.relations| + 1
  {
    var (s, rid) := CreateRelationByName(st, name);
    if GetRelationByName(st, name).None? {
      assert forall i :: 0 <= i < |st.relations| ==> s.relations[i] == st.relations[i];
      assert EdgesSound(s) by {
        forall n: NodeId, q: RelId | n in s.adj && q in s.adj[n]
          ensures q < |s.relations| && forall m: NodeId :: m in s.adj[n][q] ==> m in s.relations[q].nodes
        {
          assert s.adj[n] == st.adj[n];
          assert s.relations[q] == st.relations[q];
        }
      }
    }
  }

  /** The corrected createRelationByName is idempotent: the second call finds the relation the first returned. */
  lemma CreateRelationByNameIdempotent(st: GraphState, name: string)
    ensures var (s, rid) := CreateRelationByName(st, name);
      CreateRelationByName(s, name) == (s, rid)
  {
    var (s, rid) := CreateRelationByName(st, name);
    if GetRelationByName(st, name).None? {
      assert s.relations[rid].name == Lower(name);
      forall i | 0 <= i < rid ensures s.relations[i].name != Lower(name) {
        assert s.relations[i] == st.relations[i];
      }
    }
  }

  /** Relation.addNode (pylog.py:254-256): appended unless already present. */
  function AddNode(rel: Relation, n: NodeId): Relation {
    if n in rel.nodes then rel else rel.(nodes := rel.nodes + [n])
  }

  /** addNode keeps the list duplicate-free, in insertion order: the dict-key order of the list with `n` appended. */
  lemma AddNodeDedup(rel: Relation, n: NodeId)
    requires Distinct(rel.nodes)
    ensures AddNode(rel, n).nodes == Dedup(rel.nodes + [n])
    ensures Distinct(AddNode(rel, n).nodes) && rel.nodes <= AddNode(rel, n).nodes && n in AddNode(rel, n).nodes
  {
    DedupOfDistinct(rel.nodes);
    assert (rel.nodes + [n])[..|rel.nodes|] == rel.nodes;
  }

  // ---------------------------------------------------------------------------
  // createRelationship
  // ---------------------------------------------------------------------------

  /** `Graph.nodes[n]`, empty for a node that has none. */
  function SlotsOf(st: GraphState, n: NodeId): Slots {
    if n in st.adj then st.adj[n] else map[]
  }

  /** `Graph.nodes[n][rel]`, empty when absent. */
  function Slot(st: GraphState, n: NodeId, rid: RelId): seq<NodeId> {
    var s := SlotsOf(st, n);
    if rid in s then s[rid] else []
  }

  /** `nodes[owner][rel].append(m)`, creating the list when missing. */
  function AddEdge(st: GraphState, owner: NodeId, rid: RelId, m: NodeId): GraphState {
    st.(adj := st.adj[owner := SlotsOf(st, owner)[rid := Slot(st, owner, rid) + [m]]])
  }

  /** `relation.addNode(n)` on the relation `rid` of the graph. */
  function AddToRelation(st: GraphState, rid: RelId, n: NodeId): GraphState {
    if rid < |st.relations| then st.(relations := st.relations[rid := AddNode(st.relations[rid], n)]) else st
  }

  /** The body of the inner loop (pylog.py:104-112) for right node `r` and left node `l`. */
  function LinkPair(st: GraphState, r: NodeId, l: NodeId, lr: Option<RelId>, rr: Option<RelId>): GraphState {
    var s1 := if rr.Some? then AddEdge(AddToRelation(st, rr.value, l), r, rr.value, l) else st;
    if lr.Some? then AddEdge(s1, l, lr.value, r) else s1
  }

  /** The inner loop over the left nodes (pylog.py:103-112). */
  function LinkRow(st: GraphState, r: NodeId, lefts: seq<NodeId>, lr: Option<RelId>, rr: Option<RelId>): GraphState {
    if lefts == [] then st
    else LinkPair(LinkRow(st, r, lefts[..|lefts| - 1], lr, rr), r, lefts[|lefts| - 1], lr, rr)
  }

  /** One pass of the outer loop (pylog.py:100-112): `r` joins the right-to-left relation, then the row. */
  function LinkRight(st: GraphState, r: NodeId, lefts: seq<NodeId>, lr: Option<RelId>, rr: Option<RelId>): GraphState {
    LinkRow(if lr.Some? then AddToRelation(st, lr.value, r) else st, r, lefts, lr, rr)
  }

  /** The outer loop over the right nodes (pylog.py:100-112). */
  function Link(st: GraphState, rights: seq<NodeId>, lefts: seq<NodeId>, lr: Option<RelId>, rr: Option<RelId>): GraphState {
    if rights == [] then st
    else LinkRight(Link(st, rights[..|rights| - 1], lefts, lr, rr), rights[|rights| - 1], lefts, lr, rr)
  }

  /** A non-list names argument is wrapped in a list (pylog.py:82-83, 86-87). */
  function Wrap(a: Arg): Arg {
    if a.Items? then a else Items([a])
  }

  /** The nodes and relations createRelationship works on. */
  datatype Prepared = Prepared(left: seq<NodeId>, right: seq<NodeId>, leftRel: Option<RelId>, rightRel: Option<RelId>)

  /** The set-up of createRelationship (pylog.py:82-98): both sides got with create, then the named relations. */
  function Prepare(st: GraphState, leftNames: Arg, rightNames: Arg, leftToRight: string, rightToLeft: string): (GraphState, Prepared) {
    var (s1, left) := Get(st, Wrap(leftNames), true);
    var (s2, right) := Get(s1, Wrap(rightNames), true);
    var (s3, lr) := if rightToLeft != "" then (var (s, rid) := CreateRelationByName(s2, rightToLeft); (s, Some(rid))) else (s2, None);
    var (s4, rr) := if leftToRight != "" then (var (s, rid) := CreateRelationByName(s3, leftToRight); (s, Some(rid))) else (s3, None);
    (s4, Prepared(left, right, lr, rr))
  }

  /** createRelationship (pylog.py:81-112). */
  function CreateRelationship(st: GraphState, leftNames: Arg, rightNames: Arg, leftToRight: string, rightToLeft: string): GraphState {
    var sp := Prepare(st, leftNames, rightNames, leftToRight, rightToLeft);
    Link(sp.0, sp.1.right, sp.1.left, sp.1.leftRel, sp.1.rightRel)
  }

  /** `b` is `a` with relation lists and stored lists only extended at the end. */
  ghost predicate Extends(a: GraphState, b: GraphState) {
    a.names == b.names && a.nodeReg == b.nodeReg && |a.relations| == |b.relations| &&
    (forall i :: 0 <= i < |a.relations| ==>
      b.relations[i].name == a.relations[i].name && a.relations[i].nodes <= b.relations[i].nodes) &&
    (forall n: NodeId, rid: RelId :: Slot(a, n, rid) <= Slot(b, n, rid))
  }

  lemma ExtendsTrans(a: GraphState, b: GraphState, c: GraphState)
    requires Extends(a, b) && Extends(b, c)
    ensures Extends(a, c)
  {
    forall n, rid ensures Slot(a, n, rid) <= Slot(c, n, rid) {
      assert Slot(a, n, rid) <= Slot(b, n, rid) <= Slot(c, n, rid);
    }
    forall i | 0 <= i < |a.relations| ensures a.relations[i].nodes <= c.relations[i].nodes {
      assert a.relations[i].nodes <= b.relations[i].nodes <= c.relations[i].nodes;
    }
  }

  lemma AddEdgeExtends(st: GraphState, owner: NodeId, rid: RelId, m: NodeId)
    ensures Extends(st, AddEdge(st, owner, rid, m)) && m in Slot(AddEdge(st, owner, rid, m), owner, rid)
  {
    var s := AddEdge(st, owner, rid, m);
    forall n, q ensures Slot(st, n, q) <= Slot(s, n, q) {
      if n == owner && q == rid {
        assert Slot(s, n, q) == Slot(st, n, q) + [m];
      }
    }
  }

  lemma AddToRelationExtends(st: GraphState, rid: RelId, n: NodeId)
    ensures Extends(st, AddToRelation(st, rid, n))
    ensures rid < |st.relations| ==> n in AddToRelation(st, rid, n).relations[rid].nodes
  {
  }

  lemma LinkPairExtends(st: GraphState, r: NodeId, l: NodeId, lr: Option<RelId>, rr: Option<RelId>)
    ensures var s := LinkPair(st, r, l, lr, rr);
      Extends(st, s) && (rr.Some? ==> l in Slot(s, r, rr.value)) && (lr.Some? ==> r in Slot(s, l, lr.value))
  {
    var s1 := st;
    if rr.Some? {
      var s0 := AddToRelation(st, rr.value, l);
      AddToRelationExtends(st, rr.value, l);
      AddEdgeExtends(s0, r, rr.value, l);
      s1 := AddEdge(s0, r, rr.value, l);
      ExtendsTrans(st, s0, s1);
    }
    if lr.Some? {
      AddEdgeExtends(s1, l, lr.value, r);
      ExtendsTrans(st, s1, AddEdge(s1, l, lr.value, r));
    }
  }

  /** Every pair (r, l) of the row has its edges once the row is done. */
  lemma {:induction false} LinkRowPlaces(st: GraphState, r: NodeId, lefts: seq<NodeId>, lr: Option<RelId>, rr: Option<RelId>)
    ensures var s := LinkRow(st, r, lefts, lr, rr);
      Extends(st, s) &&
      forall l: NodeId :: l in lefts ==> (rr.Some? ==> l in Slot(s, r, rr.value)) && (lr.Some? ==> r in Slot(s, l, lr.value))
  {
    if lefts != [] {
      var p := lefts[..|lefts| - 1];
      var x := lefts[|lefts| - 1];
      LinkRowPlaces(st, r, p, lr, rr);
      var s1 := LinkRow(st, r, p, lr, rr);
      LinkPairExtends(s1, r, x, lr, rr);
      var s2 := LinkPair(s1, r, x, lr, rr);
      ExtendsTrans(st, s1, s2);
      LinkRowStep(s1, s2, r, lefts, p, x, lr, rr);
    }
  }

  /** The pairs of the row so far stay placed, and the newly linked pair is placed. */
  lemma LinkRowStep(s1: GraphState, s2: GraphState, r: NodeId, lefts: seq<NodeId>, p: seq<NodeId>, x: NodeId, lr: Option<RelId>, rr: Option<RelId>)
    requires lefts != [] && p == lefts[..|lefts| - 1] && x == lefts[|lefts| - 1]
    requires forall l: NodeId :: l in p ==> (rr.Some? ==> l in Slot(s1, r, rr.value)) && (lr.Some? ==> r in Slot(s1, l, lr.value))
    requires Extends(s1, s2)
    requires (rr.Some? ==> x in Slot(s2, r, rr.value)) && (lr.Some? ==> r in Slot(s2, x, lr.value))
    ensures forall l: NodeId :: l in lefts ==> (rr.Some? ==> l in Slot(s2, r, rr.value)) && (lr.Some? ==> r in Slot(s2, l, lr.value))
  {
    FrontLast(lefts);
    forall l: NodeId | l in lefts ensures (rr.Some? ==> l in Slot(s2, r, rr.value)) && (lr.Some? ==> r in Slot(s2, l, lr.value)) {
      if l != x {
        assert l in p;
        assert rr.Some? ==> Slot(s1, r, rr.value) <= Slot(s2, r, rr.value);
        assert lr.Some? ==> Slot(s1, l, lr.value) <= Slot(s2, l, lr.value);
      }
    }
  }

  /**
   * After the loops, for every right node r and left node l: `nodes[r][rightRel]`
   * holds l and `nodes[l][leftRel]` holds r, for the relations that were named.
   */
  lemma LinkPlaces(st: GraphState, rights: seq<NodeId>, lefts: seq<NodeId>, lr: Option<RelId>, rr: Option<RelId>)
    ensures var s := Link(st, rights, lefts, lr, rr);
      Extends(st, s) &&
      forall r: NodeId, l: NodeId :: r in rights && l in lefts ==>
        (rr.Some? ==> l in Slot(s, r, rr.value)) && (lr.Some? ==> r in Slot(s, l, lr.value))
  {
    LinkExtends(st, rights, lefts, lr, rr);
    forall r: NodeId, l: NodeId | r in rights && l in lefts
      ensures (rr.Some? ==> l in Slot(Link(st, rights, lefts, lr, rr), r, rr.value)) &&
              (lr.Some? ==> r in Slot(Link(st, rights, lefts, lr, rr), l, lr.value))
    {
      LinkPlacesAt(st, rights, lefts, lr, rr, r, l);
    }
  }

  /** One pass of the outer loop only extends the graph. */
  lemma LinkRightExtends(st: GraphState, x: NodeId, lefts: seq<NodeId>, lr: Option<RelId>, rr: Option<RelId>)
    ensures Extends(st, LinkRight(st, x, lefts, lr, rr))
  {
    var s0 := if lr.Some? then AddToRelation(st, lr.value, x) else st;
    AddToRelationExtends(st, if lr.Some? then lr.value else 0, x);
    LinkRowPlaces(s0, x, lefts, lr, rr);
    ExtendsTrans(st, s0, LinkRight(st, x, lefts, lr, rr));
  }

  /** The loops only extend the graph. */
  lemma {:induction false} LinkExtends(st: GraphState, rights: seq<NodeId>, lefts: seq<NodeId>, lr: Option<RelId>, rr: Option<RelId>)
    ensures Extends(st, Link(st, rights, lefts, lr, rr))
  {
    if rights != [] {
      var p := rights[..|rights| - 1];
      LinkExtends(st, p, lefts, lr, rr);
      LinkRightExtends(Link(st, p, lefts, lr, rr), rights[|rights| - 1], lefts, lr, rr);
      ExtendsTrans(st, Link(st, p, lefts, lr, rr), Link(st, rights, lefts, lr, rr));
    }
  }

  /** The pair (r, l) is stored in both named directions after the loops. */
  lemma {:induction false} LinkPlacesAt(st: GraphState, rights: seq<NodeId>, lefts: seq<NodeId>, lr: Option<RelId>, rr: Option<RelId>, r: NodeId, l: NodeId)
    requires r in rights && l in lefts
    ensures var s := Link(st, rights, lefts, lr, rr);
      (rr.Some? ==> l in Slot(s, r, rr.value)) && (lr.Some? ==> r in Slot(s, l, lr.value))
  {
    var p := rights[..|rights| - 1];
    var x := rights[|rights| - 1];
    var s1 := Link(st, p, lefts, lr, rr);
    var s2 := Link(st, rights, lefts, lr, rr);
    if r == x {
      var s0 := if lr.Some? then AddToRelation(s1, lr.value, x) else s1;
      assert s2 == LinkRow(s0, x, lefts, lr, rr);
      LinkRowPlaces(s0, x, lefts, lr, rr);
    } else {
      assert r in p by {
        var i :| 0 <= i < |rights| && rights[i] == r;
        assert p[i] == r;
      }
      LinkPlacesAt(st, p, lefts, lr, rr, r, l);
      LinkRightExtends(s1, x, lefts, lr, rr);
      PairPlacedExtends(s1, s2, r, l, lr, rr);
    }
  }

  /** Whatever a pair had stored in `a` is still stored in an extension `b`. */
  lemma PairPlacedExtends(a: GraphState, b: GraphState, r: NodeId, l: NodeId, lr: Option<RelId>, rr: Option<RelId>)
    requires Extends(a, b)
    requires (rr.Some? ==> l in Slot(a, r, rr.value)) && (lr.Some? ==> r in Slot(a, l, lr.value))
    ensures (rr.Some? ==> l in Slot(b, r, rr.value)) && (lr.Some? ==> r in Slot(b, l, lr.value))
  {
    if rr.Some? {
      assert Slot(a, r, rr.value) <= Slot(b, r, rr.value);
    }
    if lr.Some? {
      assert Slot(a, l, lr.value) <= Slot(b, l, lr.value);
    }
  }

  /** Without a right-to-left relation, only the right nodes' relation maps change. */
  lemma {:induction false} LinkSkipsLeft(st: GraphState, rights: seq<NodeId>, lefts: seq<NodeId>, rr: Option<RelId>, n: NodeId)
    requires n !in rights
    ensures SlotsOf(Link(st, rights, lefts, None, rr), n) == SlotsOf(st, n)
  {
    if rights != [] {
      var p := rights[..|rights| - 1];
      assert rights == p + [rights[|rights| - 1]];
      LinkSkipsLeft(st, p, lefts, rr, n);
      LinkRowKeeps(Link(st, p, lefts, None, rr), rights[|rights| - 1], lefts, None, rr, n);
    }
  }

  lemma {:induction false} LinkRowKeeps(st: GraphState, r: NodeId, lefts: seq<NodeId>, lr: Option<RelId>, rr: Option<RelId>, n: NodeId)
    requires n != r && (lr.Some? ==> n !in lefts)
    ensures SlotsOf(LinkRow(st, r, lefts, lr, rr), n) == SlotsOf(st, n)
  {
    if lefts != [] {
      var p := lefts[..|lefts| - 1];
      assert lefts == p + [lefts[|lefts| - 1]];
      LinkRowKeeps(st, r, p, lr, rr, n);
    }
  }

  /** Without a left-to-right relation, only the left nodes' relation maps change. */
  lemma {:induction false} LinkSkipsRight(st: GraphState, rights: seq<NodeId>, lefts: seq<NodeId>, lr: Option<RelId>, n: NodeId)
    requires n !in lefts
    ensures SlotsOf(Link(st, rights, lefts, lr, None), n) == SlotsOf(st, n)
  {
    if rights != [] {
      var p := rights[..|rights| - 1];
      LinkSkipsRight(st, p, lefts, lr, n);
      var s1 := Link(st, p, lefts, lr, None);
      var s0 := if lr.Some? then AddToRelation(s1, lr.value, rights[|rights| - 1]) else s1;
      assert SlotsOf(s0, n) == SlotsOf(s1, n);
      LinkRowOnlyLefts(s0, rights[|rights| - 1], lefts, lr, n);
    }
  }

  lemma {:induction false} LinkRowOnlyLefts(st: GraphState, r: NodeId, lefts: seq<NodeId>, lr: Option<RelId>, n: NodeId)
    requires n !in lefts
    ensures SlotsOf(LinkRow(st, r, lefts, lr, None), n) == SlotsOf(st, n)
  {
    if lefts != [] {
      var p := lefts[..|lefts| - 1];
      assert lefts == p + [lefts[|lefts| - 1]];
      LinkRowOnlyLefts(st, r, p, lr, n);
    }
  }

  // ---------------------------------------------------------------------------
  // createRelationship keeps the graph valid
  // ---------------------------------------------------------------------------

  lemma AddToRelationValid(st: GraphState, rid: RelId, n: NodeId)
    requires Valid(st) && rid < |st.relations| && n < |st.names|
    ensures Valid(AddToRelation(st, rid, n)) && AddToRelation(st, rid, n).adj == st.adj
  {
    var s := AddToRelation(st, rid, n);
    AddNodeDedup(st.relations[rid], n);
    assert st.relations[rid].nodes <= s.relations[rid].nodes;
    forall id: NodeId, q: RelId | id in s.adj && q in s.adj[id] ensures q < |s.relations| && forall m: NodeId :: m in s.adj[id][q] ==> m in s.relations[q].nodes {
      forall m: NodeId | m in s.adj[id][q] ensures m in s.relations[q].nodes {
        assert m in st.relations[q].nodes;
      }
    }
  }

  lemma AddEdgeValid(st: GraphState, owner: NodeId, rid: RelId, m: NodeId)
    requires Valid(st) && owner < |st.names| && rid < |st.relations| && m in st.relations[rid].nodes
    ensures Valid(AddEdge(st, owner, rid, m))
  {
    var s := AddEdge(st, owner, rid, m);
    assert owner in st.adj;
    assert EdgesSound(s) by {
      forall n: NodeId, q: RelId | n in s.adj && q in s.adj[n]
        ensures q < |s.relations| && forall y: NodeId :: y in s.adj[n][q] ==> y in s.relations[q].nodes
      {
        if n == owner && q == rid {
          assert s.adj[n][q] == Slot(st, owner, rid) + [m];
        } else if n == owner {
          assert q in st.adj[n] && s.adj[n][q] == st.adj[n][q];
        } else {
          assert s.adj[n] == st.adj[n];
        }
      }
    }
  }

  lemma LinkPairValid(st: GraphState, r: NodeId, l: NodeId, lr: Option<RelId>, rr: Option<RelId>)
    requires Valid(st) && r < |st.names| && l < |st.names|
    requires lr.Some? ==> lr.value < |st.relations| && r in st.relations[lr.value].nodes
    requires rr.Some? ==> rr.value < |st.relations|
    ensures Valid(LinkPair(st, r, l, lr, rr))
  {
    var s1 := st;
    if rr.Some? {
      var s0 := AddToRelation(st, rr.value, l);
      AddToRelationValid(st, rr.value, l);
      AddToRelationExtends(st, rr.value, l);
      AddEdgeValid(s0, r, rr.value, l);
      s1 := AddEdge(s0, r, rr.value, l);
      AddEdgeExtends(s0, r, rr.value, l);
      ExtendsTrans(st, s0, s1);
    }
    if lr.Some? {
      assert st.relations[lr.value].nodes <= s1.relations[lr.value].nodes;
      AddEdgeValid(s1, l, lr.value, r);
    }
  }

  lemma {:induction false} LinkRowValid(st: GraphState, r: NodeId, lefts: seq<NodeId>, lr: Option<RelId>, rr: Option<RelId>)
    requires Valid(st) && r < |st.names| && Below(lefts, |st.names|)
    requires lr.Some? ==> lr.value < |st.relations| && r in st.relations[lr.value].nodes
    requires rr.Some? ==> rr.value < |st.relations|
    ensures Valid(LinkRow(st, r, lefts, lr, rr))
  {
    if lefts != [] {
      var p := lefts[..|lefts| - 1];
      BelowInit(lefts, |st.names|);
      LinkRowValid(st, r, p, lr, rr);
      LinkRowPlaces(st, r, p, lr, rr);
      var s1 := LinkRow(st, r, p, lr, rr);
      assert lr.Some? ==> st.relations[lr.value].nodes <= s1.relations[lr.value].nodes;
      LinkPairValid(s1, r, lefts[|lefts| - 1], lr, rr);
    }
  }

  lemma {:induction false} LinkValid(st: GraphState, rights: seq<NodeId>, lefts: seq<NodeId>, lr: Option<RelId>, rr: Option<RelId>)
    requires Valid(st) && Below(rights, |st.names|) && Below(lefts, |st.names|)
    requires lr.Some? ==> lr.value < |st.relations|
    requires rr.Some? ==> rr.value < |st.relations|
    ensures Valid(Link(st, rights, lefts, lr, rr))
  {
    if rights != [] {
      var p := rights[..|rights| - 1];
      var x := rights[|rights| - 1];
      BelowInit(rights, |st.names|);
      LinkValid(st, p, lefts, lr, rr);
      LinkPlaces(st, p, lefts, lr, rr);
      var s1 := Link(st, p, lefts, lr, rr);
      var s0 := s1;
      if lr.Some? {
        AddToRelationValid(s1, lr.value, x);
        AddToRelationExtends(s1, lr.value, x);
        s0 := AddToRelation(s1, lr.value, x);
      }
      LinkRowValid(s0, x, lefts, lr, rr);
    }
  }

  lemma PrepareFacts(st: GraphState, leftNames: Arg, rightNames: Arg, leftToRight: string, rightToLeft: string)
    requires Valid(st) && ArgIn(leftNames, |st.names|) && ArgIn(rightNames, |st.names|)
    ensures var s, p := Prepare(st, leftNames, rightNames, leftToRight, rightToLeft).0, Prepare(st, leftNames, rightNames, leftToRight, rightToLeft).1;
      Valid(s) && Below(p.left, |s.names|) && Below(p.right, |s.names|) &&
      (p.leftRel.Some? <==> rightToLeft != "") && (p.rightRel.Some? <==> leftToRight != "") &&
      (p.leftRel.Some? ==> p.leftRel.value < |s.relations| && s.relations[p.leftRel.value].name == Lower(rightToLeft)) &&
      (p.rightRel.Some? ==> p.rightRel.value < |s.relations| && s.relations[p.rightRel.value].name == Lower(leftToRight))
  {
    assert ArgIn(Wrap(leftNames), |st.names|);
    GetFacts(st, Wrap(leftNames), true);
    var (s1, left) := Get(st, Wrap(leftNames), true);
    ArgInGrows(rightNames, |st.names|, |s1.names|);
    assert ArgIn(Wrap(rightNames), |s1.names|);
    GetFacts(s1, Wrap(rightNames), true);
    var (s2, right) := Get(s1, Wrap(rightNames), true);
    var s3 := s2;
    if rightToLeft != "" {
      CreateRelationByNameFacts(s2, rightToLeft);
      s3 := CreateRelationByName(s2, rightToLeft).0;
    }
    if leftToRight != "" {
      CreateRelationByNameFacts(s3, leftToRight);
    }
  }

  /**
   * After createRelationship's loops: for every right node r and left node l,
   * `nodes[r][leftToRight]` holds l and `nodes[l][rightToLeft]` holds r.
   */
  ghost predicate Placed(g: GraphState, p: Prepared, leftToRight: string, rightToLeft: string) {
    forall r: NodeId, l: NodeId :: r in p.right && l in p.left ==>
      (leftToRight != "" ==> p.rightRel.Some? && l in Slot(g, r, p.rightRel.value)) &&
      (rightToLeft != "" ==> p.leftRel.Some? && r in Slot(g, l, p.leftRel.value))
  }

  /** The loops of createRelationship, on the prepared lists and relations. */
  lemma LinkPrepared(s: GraphState, p: Prepared, leftToRight: string, rightToLeft: string)
    requires Valid(s) && Below(p.left, |s.names|) && Below(p.right, |s.names|)
    requires (p.leftRel.Some? <==> rightToLeft != "") && (p.rightRel.Some? <==> leftToRight != "")
    requires p.leftRel.Some? ==> p.leftRel.value < |s.relations|
    requires p.rightRel.Some? ==> p.rightRel.value < |s.relations|
    ensures Valid(Link(s, p.right, p.left, p.leftRel, p.rightRel))
    ensures Placed(Link(s, p.right, p.left, p.leftRel, p.rightRel), p, leftToRight, rightToLeft)
  {
    LinkValid(s, p.right, p.left, p.leftRel, p.rightRel);
    var g := Link(s, p.right, p.left, p.leftRel, p.rightRel);
    forall r: NodeId, l: NodeId | r in p.right && l in p.left
      ensures (leftToRight != "" ==> p.rightRel.Some? && l in Slot(g, r, p.rightRel.value)) &&
        (rightToLeft != "" ==> p.leftRel.Some? && r in Slot(g, l, p.leftRel.value))
    {
      LinkPlacesAt(s, p.right, p.left, p.leftRel, p.rightRel, r, l);
    }
  }

  /**
   * createRelationship (pylog.py:81-112) keeps the graph valid; for every
   * right node r and left node l, `nodes[r][leftToRight]` holds l and
   * `nodes[l][rightToLeft]` holds r.
   */
  lemma CreateRelationshipPlaces(st: GraphState, leftNames: Arg, rightNames: Arg, leftToRight: string, rightToLeft: string)
    requires Valid(st) && ArgIn(leftNames, |st.names|) && ArgIn(rightNames, |st.names|)
    ensures Valid(CreateRelationship(st, leftNames, rightNames, leftToRight, rightToLeft))
    ensures Placed(CreateRelationship(st, leftNames, rightNames, leftToRight, rightToLeft),
      Prepare(st, leftNames, rightNames, leftToRight, rightToLeft).1, leftToRight, rightToLeft)
  {
    PrepareFacts(st, leftNames, rightNames, leftToRight, rightToLeft);
    var sp := Prepare(st, leftNames, rightNames, leftToRight, rightToLeft);
    LinkPrepared(sp.0, sp.1, leftToRight, rightToLeft);
  }


  /**
   * createBijection (pylog.py:70-71) uses one relation both ways, so every
   * pair is linked in both directions under it.
   */
  lemma BijectionSymmetric(st: GraphState, leftNames: Arg, rightNames: Arg, relation: string)
    requires Valid(st) && ArgIn(leftNames, |st.names|) && ArgIn(rightNames, |st.names|) && relation != ""
    ensures var p := Prepare(st, leftNames, rightNames, relation, relation).1;
      p.leftRel == p.rightRel && p.leftRel.Some? &&
      Placed(CreateRelationship(st, leftNames, rightNames, relation, relation), p, relation, relation)
  {
    var (s1, left) := Get(st, Wrap(leftNames), true);
    var (s2, right) := Get(s1, Wrap(rightNames), true);
    CreateRelationByNameIdempotent(s2, relation);
    CreateRelationshipPlaces(st, leftNames, rightNames, relation, relation);
  }

  /**
   * createOneWay (pylog.py:74-75) names no right-to-left relation: only the
   * right nodes' relation maps change in the loops.
   */
  lemma OneWayOnlyRight(st: GraphState, leftNames: Arg, rightNames: Arg, relation: string, n: NodeId)
    ensures var (s, p) := Prepare(st, leftNames, rightNames, relation, "");
      p.leftRel == None &&
      (n !in p.right ==> SlotsOf(CreateRelationship(st, leftNames, rightNames, relation, ""), n) == SlotsOf(s, n))
  {
    var (s, p) := Prepare(st, leftNames, rightNames, relation, "");
    if n !in p.right {
      LinkSkipsLeft(s, p.right, p.left, p.rightRel, n);
    }
  }

  /** With both relation names empty, only the nodes are created: the loops write nothing. */
  lemma NoRelationNoEdges(st: GraphState, leftNames: Arg, rightNames: Arg, n: NodeId)
    ensures var (s, p) := Prepare(st, leftNames, rightNames, "", "");
      SlotsOf(CreateRelationship(st, leftNames, rightNames, "", ""), n) == SlotsOf(s, n)
  {
    var (s, p) := Prepare(st, leftNames, rightNames, "", "");
    if n in p.right {
      LinkNothing(s, p.right, p.left, n);
    } else {
      LinkSkipsLeft(s, p.right, p.left, None, n);
    }
  }

  lemma {:induction false} LinkNothing(st: GraphState, rights: seq<NodeId>, lefts: seq<NodeId>, n: NodeId)
    ensures SlotsOf(Link(st, rights, lefts, None, None), n) == SlotsOf(st, n)
  {
    if rights != [] {
      LinkNothing(st, rights[..|rights| - 1], lefts, n);
      LinkRowNothing(Link(st, rights[..|rights| - 1], lefts, None, None), rights[|rights| - 1], lefts, n);
    }
  }

  lemma {:induction false} LinkRowNothing(st: GraphState, r: NodeId, lefts: seq<NodeId>, n: NodeId)
    ensures LinkRow(st, r, lefts, None, None) == st
  {
    if lefts != [] {
      LinkRowNothing(st, r, lefts[..|lefts| - 1], n);
    }
  }

  // ---------------------------------------------------------------------------
  // Node.rel and the NodeList queries
  // ---------------------------------------------------------------------------

  /** Node.rel (pylog.py:165-171): the list stored under the named relation, or nothing. */
  function NodeRel(st: GraphState, n: NodeId, relation: string): seq<NodeId> {
    var rel := GetRelationByName(st, relation);
    var s := SlotsOf(st, n);
    if rel.Some? && rel.value in s then s[rel.value] else []
  }

  /** The per-node results NodeList.rel flattens. */
  function RelParts(st: GraphState, ns: seq<NodeId>, relation: string): (r: seq<Nested<NodeId>>)
    ensures |r| == |ns| && forall i :: 0 <= i < |ns| ==> r[i] == Group(Flat(NodeRel(st, ns[i], relation)))
  {
    if ns == [] then [] else RelParts(st, ns[..|ns| - 1], relation) + [Group(Flat(NodeRel(st, ns[|ns| - 1], relation)))]
  }

  /** NodeList.rel (pylog.py:213-215). */
  function ListRel(st: GraphState, ns: seq<NodeId>, relation: string): seq<NodeId> {
    Flatten(RelParts(st, ns, relation))
  }

  lemma {:induction false} LeavesOfRelParts(st: GraphState, ns: seq<NodeId>, relation: string, x: NodeId)
    ensures x in Leaves(RelParts(st, ns, relation)) <==> exists i :: 0 <= i < |ns| && x in NodeRel(st, ns[i], relation)
  {
    if ns != [] {
      var p := ns[..|ns| - 1];
      LeavesOfRelParts(st, p, relation, x);
      RelPartsLast(st, ns, relation);
      ReachedLast(st, ns, p, relation, x);
    }
  }

  /** Some node of the list reaches `x` exactly when some earlier node does or the last one does. */
  lemma ReachedLast(st: GraphState, ns: seq<NodeId>, p: seq<NodeId>, relation: string, x: NodeId)
    requires ns != [] && p == ns[..|ns| - 1]
    ensures (exists i :: 0 <= i < |ns| && x in NodeRel(st, ns[i], relation)) <==>
      (exists i :: 0 <= i < |p| && x in NodeRel(st, p[i], relation)) || x in NodeRel(st, ns[|ns| - 1], relation)
  {
    if exists i :: 0 <= i < |ns| && x in NodeRel(st, ns[i], relation) {
      var i :| 0 <= i < |ns| && x in NodeRel(st, ns[i], relation);
      if i < |p| {
        assert ns[i] == p[i];
      }
    }
    if exists i :: 0 <= i < |p| && x in NodeRel(st, p[i], relation) {
      var i :| 0 <= i < |p| && x in NodeRel(st, p[i], relation);
      assert ns[i] == p[i];
    }
  }

  /** The parts of one more node contribute that node's relatives last. */
  lemma RelPartsLast(st: GraphState, ns: seq<NodeId>, relation: string)
    requires ns != []
    ensures Leaves(RelParts(st, ns, relation)) == Leaves(RelParts(st, ns[..|ns| - 1], relation)) + NodeRel(st, ns[|ns| - 1], relation)
  {
    var last := NodeRel(st, ns[|ns| - 1], relation);
    LeavesAppend(RelParts(st, ns[..|ns| - 1], relation), [Group(Flat(last))]);
    LeavesOfFlat(last);
    assert Leaves([Group(Flat(last))]) == LeavesOf(Group(Flat(last))) + Leaves([]);
  }

  /**
   * NodeList.rel gives each node reached from any of the list's nodes once,
   * and ranks them by how often they are reached, most first.
   */
  lemma ListRelElements(st: GraphState, ns: seq<NodeId>, relation: string)
    ensures Distinct(ListRel(st, ns, relation))
    ensures forall x: NodeId :: x in ListRel(st, ns, relation) <==> exists i :: 0 <= i < |ns| && x in NodeRel(st, ns[i], relation)
    ensures NonIncreasing(ListRel(st, ns, relation), Occurrences(Leaves(RelParts(st, ns, relation))))
  {
    ByFrequencyElements(Leaves(RelParts(st, ns, relation)));
    forall x ensures x in ListRel(st, ns, relation) <==> exists i :: 0 <= i < |ns| && x in NodeRel(st, ns[i], relation) {
      LeavesOfRelParts(st, ns, relation, x);
    }
  }

  /** limit (pylog.py:226-227): the nodes also in `includes`, in order. */
  function Limit(ns: seq<NodeId>, includes: seq<NodeId>): (r: seq<NodeId>)
    ensures forall x: NodeId :: x in r <==> x in ns && x in includes
  {
    if ns == [] then []
    else Limit(ns[..|ns| - 1], includes) + (if ns[|ns| - 1] in includes then [ns[|ns| - 1]] else [])
  }

  /** exclude (pylog.py:230-231): the nodes not in `excludes`, in order. */
  function Exclude(ns: seq<NodeId>, excludes: seq<NodeId>): (r: seq<NodeId>)
    ensures forall x: NodeId :: x in r <==> x in ns && x !in excludes
  {
    if ns == [] then []
    else Exclude(ns[..|ns| - 1], excludes) + (if ns[|ns| - 1] in excludes then [] else [ns[|ns| - 1]])
  }

  /** The last node of the receiver goes to limit when `other` holds it, else to exclude. */
  lemma LimitLast(ns: seq<NodeId>, other: seq<NodeId>)
    requires ns != []
    ensures multiset(Limit(ns, other)) == multiset(Limit(ns[..|ns| - 1], other)) + (if ns[|ns| - 1] in other then multiset{ns[|ns| - 1]} else multiset{})
  {
  }

  lemma ExcludeLast(ns: seq<NodeId>, other: seq<NodeId>)
    requires ns != []
    ensures multiset(Exclude(ns, other)) == multiset(Exclude(ns[..|ns| - 1], other)) + (if ns[|ns| - 1] in other then multiset{} else multiset{ns[|ns| - 1]})
  {
  }

  lemma MultisetLast(ns: seq<NodeId>)
    requires ns != []
    ensures multiset(ns) == multiset(ns[..|ns| - 1]) + multiset{ns[|ns| - 1]}
  {
    assert ns == ns[..|ns| - 1] + [ns[|ns| - 1]];
  }

  /** limit and exclude by the same list split the receiver: together they hold each node as often as it does. */
  lemma {:induction false} LimitExcludePartition(ns: seq<NodeId>, other: seq<NodeId>)
    ensures multiset(Limit(ns, other)) + multiset(Exclude(ns, other)) == multiset(ns)
  {
    if ns != [] {
      LimitExcludePartition(ns[..|ns| - 1], other);
      LimitLast(ns, other);
      ExcludeLast(ns, other);
      MultisetLast(ns);
    }
  }



  /** merge (pylog.py:234-235): the two lists flattened together. */
  function Merge(a: seq<NodeId>, b: seq<NodeId>): seq<NodeId> {
    Flatten([Group(Flat(a)), Group(Flat(b))])
  }

  /** merge is the duplicate-free union, ranked by how often each node occurs in the two lists. */
  lemma MergeUnion(a: seq<NodeId>, b: seq<NodeId>)
    ensures Merge(a, b) == ByFrequency(a + b)
    ensures Distinct(Merge(a, b)) && forall x: NodeId :: x in Merge(a, b) <==> x in a || x in b
  {
    LeavesOfTwo(a, b);
    ByFrequencyElements(a + b);
  }

  /** filterByName (pylog.py:222-223): the nodes whose name is `name`, in order. */
  function FilterByName(names: seq<string>, ns: seq<NodeId>, name: string): (r: seq<NodeId>)
    requires Below(ns, |names|)
    ensures forall x: NodeId :: x in r <==> x in ns && names[x] == name
  {
    if ns == [] then []
    else
      var p := ns[..|ns| - 1];
      BelowInit(ns, |names|);
      FilterByName(names, p, name) + (if names[ns[|ns| - 1]] == name then [ns[|ns| - 1]] else [])
  }

  /** `k` copies of `x`. */
  function Copies(x: NodeId, k: nat): (r: seq<NodeId>)
    ensures |r| == k && forall i :: 0 <= i < k ==> r[i] == x
  {
    seq(k, _ => x)
  }

  /**
   * Names are unique in a graph, so filterByName keeps exactly the copies of
   * the node of that name: as many as the list holds, and nothing else.
   */
  lemma {:induction false} FilterByNameCopies(st: GraphState, ns: seq<NodeId>, name: string)
    requires Registered(st) && Below(ns, |st.names|)
    ensures name in st.nodeReg ==>
      FilterByName(st.names, ns, name) == Copies(st.nodeReg[name], multiset(ns)[st.nodeReg[name]])
    ensures name !in st.nodeReg ==> FilterByName(st.names, ns, name) == []
  {
    if ns != [] {
      var p := ns[..|ns| - 1];
      var x := ns[|ns| - 1];
      assert ns == p + [x];
      BelowInit(ns, |st.names|);
      FilterByNameCopies(st, p, name);
      assert st.names[x] == name <==> name in st.nodeReg && x == st.nodeReg[name];
      if name in st.nodeReg {
        var v := st.nodeReg[name];
        var k := multiset(p)[v];
        assert multiset(ns) == multiset(p) + multiset{x};
        if x == v {
          assert Copies(v, k + 1) == Copies(v, k) + [x];
        }
      }
    }
  }


  /** `list.remove(x)` (pylog.py:206-207): the first occurrence removed. */
  function RemoveFirst(s: seq<NodeId>, x: NodeId): (r: seq<NodeId>)
    requires x in s
    ensures multiset(r) == multiset(s) - multiset{x}
    ensures |r| == |s| - 1
    ensures forall k :: 0 <= k < IndexOf(s, x) ==> r[k] == s[k]
    ensures forall k :: IndexOf(s, x) <= k < |r| ==> r[k] == s[k + 1]
  {
    var i := IndexOf(s, x);
    RemoveAtCount(s, i, s[..i], s[i + 1..]);
    s[..i] + s[i + 1..]
  }

  /** Dropping position `i` leaves one copy of `s[i]` fewer. */
  lemma RemoveAtCount(s: seq<NodeId>, i: nat, a: seq<NodeId>, b: seq<NodeId>)
    requires i < |s| && a == s[..i] && b == s[i + 1..]
    ensures multiset(a + b) == multiset(s) - multiset{s[i]}
  {
    assert s == a + [s[i]] + b;
    assert multiset(s) == multiset(a) + multiset{s[i]} + multiset(b);
  }
}
