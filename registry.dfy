/**
 * The weighted graph's objects: NodeRegistry (nodeRegistry.py), whose fields
 * are the lookup table, the per-node relation dictionaries and the nodes'
 * loaded flags, and NodeList (nodes.py), a list of (node, weight) tuples
 * bound to a registry. Each method is proved to leave the state, and to
 * return the value, that the value-level definitions of RegistryState,
 * Hydration, Nodes and Traversal prescribe.
 */
module Registry {
  import opened Wrappers
  import opened Seqs
  import opened Nodes
  import opened Adjacency
  import opened Traversal
  import opened RegistryState
  import opened Hydration

  /** The tuples NodeList([n1, n2, ...]) holds for bare nodes: weight 1 each. */
  function Ones(ids: seq<NodeId>): (r: seq<NodeTuple>)
    ensures |r| == |ids| && NodesOf(r) == ids
    ensures forall i :: 0 <= i < |ids| ==> r[i] == NodeTuple(ids[i], 1)
  {
    if ids == [] then [] else [NodeTuple(ids[0], 1)] + Ones(ids[1..])
  }

  class NodeRegistry {
    /** Node `id` is named names[id] (first spelling); `lookup` maps lowercased names to nodes. */
    var names: seq<string>
    var lookup: map<string, NodeId>
    /** registry[node] (nodeRegistry.py:16): each node's relation dictionary. */
    var adj: Adj
    /** The nodes whose `loaded` flag is set. */
    var loaded: set<NodeId>
    /** ACCUMULATE_RELATIONSHIPS and MANAGE_CONNECTIONS (NodeRegistrySettings.py). */
    const accumulate: bool
    const manage: bool
    /** The connected database, if any. */
    const store: Option<Store>

    function State(): RegState
      reads this
    {
      RegState(names, lookup, adj, loaded)
    }

    ghost predicate Valid()
      reads this
    {
      RegistryState.Valid(State()) && (store.Some? ==> StoreValid(store.value))
    }

    constructor(accumulate: bool, manage: bool, store: Option<Store>)
      requires store.Some? ==> StoreValid(store.value)
      ensures State() == Empty() && Valid()
      ensures this.accumulate == accumulate && this.manage == manage && this.store == store
    {
      names := [];
      lookup := map[];
      adj := map[];
      loaded := {};
      this.accumulate := accumulate;
      this.manage := manage;
      this.store := store;
      new;
      assert AllWellFormed(adj) && Bounded(adj, 0);
      assert adj.Keys == {};
    }

    /** _add for a string (nodeRegistry.py:31-38). */
    method Intern(name: string) returns (id: NodeId)
      modifies this
      ensures (State(), id) == RegistryState.Intern(old(State()), name)
    {
      var k := Lower(name);
      if k in lookup {
        id := lookup[k];
      } else {
        id := |names|;
        names := names + [name];
        lookup := lookup[k := id];
        adj := adj[id := NoSlots()];
      }
    }

    /** add (nodeRegistry.py:44-55): a list holding the node of the name. */
    method Add(name: string) returns (l: NodeList)
      requires Valid()
      modifies this
      ensures (State(), l.nodes) == (RegistryState.Intern(old(State()), name).0, [NodeTuple(RegistryState.Intern(old(State()), name).1, 1)])
      ensures Valid() && fresh(l) && l.parent == this && !l.sorted
    {
      InternValid(State(), name);
      var id := Intern(name);
      l := new NodeList([NodeTuple(id, 1)], this);
    }

    /** addAll (nodeRegistry.py:57-71): every name interned in order. */
    method AddAll(ns: seq<string>) returns (l: NodeList)
      requires Valid()
      modifies this
      ensures State() == InternAll(old(State()), ns).0 && l.nodes == Ones(InternAll(old(State()), ns).1)
      ensures Valid() && fresh(l) && l.parent == this && !l.sorted
    {
      var ids: seq<NodeId> := [];
      var i := 0;
      while i < |ns|
        invariant 0 <= i <= |ns|
        invariant State() == InternAll(old(State()), ns[..i]).0 && ids == InternAll(old(State()), ns[..i]).1
      {
        InternAllSnoc(old(State()), ns, i);
        var id := Intern(ns[i]);
        ids := ids + [id];
        i := i + 1;
      }
      assert ns[..i] == ns;
      InternAllValid(old(State()), ns);
      l := new NodeList(Ones(ids), this);
    }

    /** get without create or load (nodeRegistry.py:98): the known names' nodes. */
    method Lookup(ns: seq<string>) returns (l: NodeList)
      ensures fresh(l) && l.parent == this && !l.sorted
      ensures l.nodes == Ones(LookupIds(State(), ns))
    {
      var ids: seq<NodeId> := [];
      var i := 0;
      while i < |ns|
        invariant 0 <= i <= |ns|
        invariant ids == LookupIds(State(), ns[..i])
      {
        assert ns[..i + 1][..i] == ns[..i];
        var k := Lower(ns[i]);
        if k in lookup {
          ids := ids + [lookup[k]];
        }
        i := i + 1;
      }
      assert ns[..i] == ns;
      l := new NodeList(Ones(ids), this);
    }

    /** One item of tuplate with create: a name is interned first. */
    method NormalizeCreate(item: Item) returns (r: Result<seq<NodeTuple>>)
      modifies this
      ensures (State(), r) == RegistryState.NormalizeCreate(old(State()), item)
    {
      match item
      case Bare(Named(s)) =>
        var id := Intern(s);
        r := Ok([NodeTuple(id, 1)]);
      case Pair(Named(s), w) =>
        var id := Intern(s);
        r := if w.Int? then Ok([NodeTuple(id, w.i)]) else Err(InvalidType);
      case Tuple(Named(s), w) =>
        var id := Intern(s);
        r := Ok([NodeTuple(id, w)]);
      case _ =>
        r := Normalize(item, NoRegistry);
    }

    /** tuplate(items, create=1, registry=self) (nodes.py:298-339). */
    method TuplateCreate(items: seq<Item>) returns (r: Result<seq<NodeTuple>>)
      modifies this
      ensures (State(), r) == RegistryState.TuplateCreate(old(State()), items)
    {
      var acc: seq<NodeTuple> := [];
      var i := 0;
      while i < |items|
        invariant 0 <= i <= |items|
        invariant (State(), Ok(acc)) == RegistryState.TuplateCreate(old(State()), items[..i])
      {
        assert items[..i + 1][..i] == items[..i];
        var t := NormalizeCreate(items[i]);
        if t.Err? {
          r := Err(t.error);
          TuplateCreateStops(old(State()), items[..i + 1], items[i + 1..]);
          assert items[..i + 1] + items[i + 1..] == items;
          return;
        }
        acc := acc + t.value;
        i := i + 1;
      }
      assert items[..i] == items;
      r := Ok(acc);
    }

    /**
     * One append of relate's loop (nodeRegistry.py:143-151): the relation's
     * list is created empty if missing, then the entry is appended to it.
     */
    method Write(e: Edge)
      requires e.owner in adj
      modifies this
      ensures adj == Deliver(old(adj), e, accumulate)
      ensures names == old(names) && lookup == old(lookup) && loaded == old(loaded)
    {
      var slots := adj[e.owner];
      var l := ListAt(slots, e.rel);
      l := Absorb(l, [e.entry], accumulate);
      adj := adj[e.owner := Put(slots, e.rel, l)];
    }

    /** get (nodeRegistry.py:74-98): from the store when one is connected and `load` is set, else created or looked up. */
    method Get(ns: seq<string>, create: bool, load: bool) returns (l: NodeList)
      requires Valid()
      modifies this
      ensures Valid() && fresh(l) && l.parent == this && !l.sorted
      ensures load && store.Some? ==>
        State() == Hydration.Load(old(State()), store.value, ns, accumulate, manage).0 && l.nodes == Ones(LookupIds(State(), ns))
      ensures !(load && store.Some?) && create ==>
        State() == InternAll(old(State()), ns).0 && l.nodes == Ones(LookupIds(State(), ns))
      ensures !(load && store.Some?) && !create ==> State() == old(State()) && l.nodes == Ones(LookupIds(State(), ns))
    {
      if load && store.Some? {
        l := LoadNames(ns);
        LoadResult(old(State()), store.value, ns, accumulate, manage);
      } else if create {
        AddAllThenGet(State(), ns);
        l := AddAll(ns);
      } else {
        l := Lookup(ns);
      }
    }

    /** `nex` of DBC.load (dbc.py:130): the names whose lookup is not loaded. */
    method PendingNames(ns: seq<string>) returns (nex: seq<string>)
      ensures nex == Pending(State(), ns)
    {
      nex := [];
      var i := 0;
      while i < |ns|
        invariant 0 <= i <= |ns|
        invariant nex == Pending(State(), ns[..i])
      {
        assert ns[..i + 1][..i] == ns[..i];
        var one := Lookup([ns[i]]);
        var done := one.IsLoaded();
        if !done {
          nex := nex + [ns[i]];
        }
        i := i + 1;
      }
      assert ns[..i] == ns;
    }

    /** The loop of DBC.load over the fetched rows (dbc.py:161-163). */
    method RelateRows(db: Store, rows: seq<StoredRow>)
      requires Valid() && RowsIn(db, rows)
      modifies this
      ensures State() == FoldRows(old(State()), db, rows, accumulate, manage) && Valid()
    {
      var k := 0;
      while k < |rows|
        invariant 0 <= k <= |rows| && Valid()
        invariant RowsIn(db, rows[..k])
        invariant State() == FoldRows(old(State()), db, rows[..k], accumulate, manage)
      {
        var row := rows[k];
        assert rows[..k + 1][..k] == rows[..k] && rows[..k + 1][k] == row;
        assert RowIn(db, row);
        var left := RowLeft(db, row);
        var right := RowRight(db, row);
        assert ItemsIn(left, |names|) && ItemsIn(right, |names|);
        var _ := Relate(left, right, db.names[row.relation], "");
        k := k + 1;
      }
      assert rows[..k] == rows;
    }

    /** DBC.load (dbc.py:119-167), with the row query's placeholders counted from the IDs it binds. */
    method LoadNames(ns: seq<string>) returns (l: NodeList)
      requires Valid() && store.Some?
      modifies this
      ensures State() == Hydration.Load(old(State()), store.value, ns, accumulate, manage).0
      ensures l.nodes == Ones(LookupIds(State(), ns))
      ensures Valid() && fresh(l) && l.parent == this && !l.sorted
    {
      ghost var st := State();
      LoadValid(st, store.value, ns, accumulate, manage);
      var db := store.value;
      var nex := PendingNames(ns);
      if nex == [] {
        l := Lookup(ns);
        return;
      }
      var res := StoredIds(db, nex);
      if res == [] {
        l := Lookup(ns);
        return;
      }
      FetchedFromRowsIn(db, db.rows, res);
      RelateRows(db, Fetched(db, res));
      var got := Lookup(ns);
      got.SetLoaded(true);
      l := Lookup(ns);
    }

    /** rel (nodeRegistry.py:101-110): get with load, then rel of the result under `_connects`. */
    method Rel(ns: seq<string>) returns (out: NodeList, ghost s1: RegState)
      requires Valid()
      modifies this
      ensures Valid() && fresh(out) && out.parent == this
      ensures s1 == Fetch(old(State()), store, ns, accumulate, manage)
      ensures Connects !in s1.lookup ==> out.nodes == [] && State() == s1
      ensures Connects in s1.lookup ==>
        out.nodes == Consolidate(Collect([], Reached(Consolidate(Ones(LookupIds(s1, ns))), s1.adj, Some([s1.lookup[Connects]])), accumulate))
      ensures Connects in s1.lookup ==>
        NodesBelow(out.nodes, |s1.names|) && State() == ListLoad(s1, store, out.nodes, accumulate, manage)
    {
      var l := FetchNames(ns);
      s1 := State();
      ConnectsKeys(s1);
      out := l.Rel(Some([Connects]));
    }

    /** The `get(name)` of rel, with the bound rel needs on its node ids. */
    method FetchNames(ns: seq<string>) returns (l: NodeList)
      requires Valid()
      modifies this
      ensures Valid() && fresh(l) && l.parent == this && !l.sorted
      ensures State() == Fetch(old(State()), store, ns, accumulate, manage)
      ensures l.nodes == Ones(LookupIds(State(), ns)) && NodesBelow(l.nodes, |names|)
    {
      l := Get(ns, false, true);
      LookupIdsBelow(State(), ns);
    }

    /** relate's normalisation of both sides, with create (nodeRegistry.py:128-129). */
    method Endpoints(left: seq<Item>, right: seq<Item>) returns (e: Result<(seq<NodeTuple>, seq<NodeTuple>)>)
      modifies this
      ensures (State(), e) == RegistryState.Endpoints(old(State()), left, right)
    {
      var lr := TuplateCreate(left);
      if lr.Err? {
        return Err(lr.error);
      }
      var rr := TuplateCreate(right);
      if rr.Err? {
        return Err(rr.error);
      }
      e := Ok((lr.value, rr.value));
    }

    /** relate's relation nodes and its `_connects` node (nodeRegistry.py:130-141). */
    method ResolveRoles(ls: seq<NodeTuple>, rs: seq<NodeTuple>, leftward: string, rightward: string) returns (ro: Roles)
      modifies this
      ensures (State(), ro) == RegistryState.ResolveRoles(old(State()), ls, rs, leftward, rightward, manage)
    {
      var lw: Option<NodeId> := None;
      if leftward != [] {
        var id := Intern(leftward);
        lw := Some(id);
      }
      var rw: Option<NodeId> := None;
      if rightward != [] {
        var id := Intern(rightward);
        rw := Some(id);
      }
      var linkL := Linked(manage, leftward);
      var linkR := Linked(manage, rightward);
      var c := 0;
      if (linkL && ls != []) || (linkR && ls != [] && rs != []) {
        c := Intern(Connects);
      }
      ro := Roles(lw, rw, linkL, linkR, c);
    }

    /** relate (nodeRegistry.py:113-151). */
    method Relate(left: seq<Item>, right: seq<Item>, leftward: string, rightward: string) returns (r: Result<()>)
      requires Valid() && ItemsIn(left, |names|) && ItemsIn(right, |names|)
      modifies this
      ensures (State(), r) == RelateSpec(old(State()), left, right, leftward, rightward, accumulate, manage)
      ensures Valid()
    {
      ghost var st := State();
      RelateValid(st, left, right, leftward, rightward, accumulate, manage);
      PrepareValid(st, left, right, leftward, rightward, manage);
      var ends := Endpoints(left, right);
      if ends.Err? {
        return Err(ends.error);
      }
      var (ls, rs) := ends.value;
      var ro := ResolveRoles(ls, rs, leftward, rightward);
      ghost var s0 := State();
      assert (s0, Ok(Prep(ls, rs, ro))) == Prepare(st, left, right, leftward, rightward, manage);
      assert forall e :: e in Plan(ls, rs, ro) ==> e.owner in adj;
      RelateAll(ls, rs, ro);
      r := Ok(());
    }

    /** Graph.biject (graph.py:31-32): relate with the same relation both ways. */
    method Biject(left: seq<Item>, right: seq<Item>, relation: string) returns (r: Result<()>)
      requires Valid() && ItemsIn(left, |names|) && ItemsIn(right, |names|)
      modifies this
      ensures (State(), r) == RelateSpec(old(State()), left, right, relation, relation, accumulate, manage)
      ensures Valid()
    {
      r := Relate(left, right, relation, relation);
    }

    /** Graph.direct (graph.py:34-35): relate with no rightward relation. */
    method Direct(left: seq<Item>, right: seq<Item>, relation: string) returns (r: Result<()>)
      requires Valid() && ItemsIn(left, |names|) && ItemsIn(right, |names|)
      modifies this
      ensures (State(), r) == RelateSpec(old(State()), left, right, relation, "", accumulate, manage)
      ensures Valid()
    {
      r := Relate(left, right, relation, "");
    }

    /** relate's outer loop over the left nodes (nodeRegistry.py:134-151). */
    method RelateAll(ls: seq<NodeTuple>, rs: seq<NodeTuple>, ro: Roles)
      requires forall e :: e in Plan(ls, rs, ro) ==> e.owner in adj
      modifies this
      ensures adj == Apply(old(adj), Plan(ls, rs, ro), accumulate)
      ensures names == old(names) && lookup == old(lookup) && loaded == old(loaded)
    {
      ghost var adj0 := adj;
      PlanPrefixEnds(ls, rs, ro);
      var i := 0;
      while i < |ls|
        invariant 0 <= i <= |ls|
        invariant names == old(names) && lookup == old(lookup) && loaded == old(loaded)
        invariant adj == Apply(adj0, Plan(ls[..i], rs, ro), accumulate)
      {
        RelateLeft(adj0, ls, rs, ro, i);
        i := i + 1;
      }
    }

    /** The body of relate's outer loop, for left node ls[i]. */
    method RelateLeft(ghost adj0: Adj, ls: seq<NodeTuple>, rs: seq<NodeTuple>, ro: Roles, i: nat)
      requires i < |ls| && adj == Apply(adj0, Plan(ls[..i], rs, ro), accumulate)
      requires forall e :: e in Plan(ls, rs, ro) ==> e.owner in adj0
      modifies this
      ensures adj == Apply(adj0, Plan(ls[..i + 1], rs, ro), accumulate)
      ensures names == old(names) && lookup == old(lookup) && loaded == old(loaded)
    {
      PlanHasRow(ls, rs, i, ro);
      ghost var a1 := adj;
      RelateHead(ls[i], ro);
      ghost var a2 := adj;
      RelateRow(ls[i], rs, ro);
      PlanStep(adj0, ls, rs, ro, i, accumulate, a1, a2, adj);
    }

    static lemma PlanStep(adj0: Adj, ls: seq<NodeTuple>, rs: seq<NodeTuple>, ro: Roles, i: nat, accumulate: bool, a1: Adj, a2: Adj, a3: Adj)
      requires i < |ls|
      requires a1 == Apply(adj0, Plan(ls[..i], rs, ro), accumulate)
      requires a2 == Apply(a1, Head(ls[i], ro), accumulate)
      requires a3 == Apply(a2, Row(ls[i], rs, ro), accumulate)
      ensures a3 == Apply(adj0, Plan(ls[..i + 1], rs, ro), accumulate)
    {
      ApplyAppend(adj0, Plan(ls[..i], rs, ro), Head(ls[i], ro), accumulate);
      ApplyAppend(adj0, Plan(ls[..i], rs, ro) + Head(ls[i], ro), Row(ls[i], rs, ro), accumulate);
      assert ls[..i + 1][..i] == ls[..i];
    }

    /** The `_connects` link of left node l (nodeRegistry.py:136-137). */
    method RelateHead(l: NodeTuple, ro: Roles)
      requires forall e :: e in Head(l, ro) ==> e.owner in adj
      modifies this
      ensures adj == Apply(old(adj), Head(l, ro), accumulate)
      ensures names == old(names) && lookup == old(lookup) && loaded == old(loaded)
    {
      if ro.leftward.Some? && ro.linkLeft {
        var e := Edge(ro.leftward.value, ro.connects, NodeTuple(l.node, 1), LeftLink);
        assert e in Head(l, ro);
        Write(e);
        ApplySnoc(old(adj), [], e, accumulate);
      }
    }

    /** relate's inner loop over the right nodes, for left node l. */
    method RelateRow(l: NodeTuple, rs: seq<NodeTuple>, ro: Roles)
      requires forall e :: e in Row(l, rs, ro) ==> e.owner in adj
      modifies this
      ensures adj == Apply(old(adj), Row(l, rs, ro), accumulate)
      ensures names == old(names) && lookup == old(lookup) && loaded == old(loaded)
    {
      ghost var adj0 := adj;
      assert Row(l, rs[..0], ro) == [] by {
        assert rs[..0] == [];
      }
      var j := 0;
      while j < |rs|
        invariant 0 <= j <= |rs|
        invariant adj == Apply(adj0, Row(l, rs[..j], ro), accumulate)
        invariant names == old(names) && lookup == old(lookup) && loaded == old(loaded)
      {
        ghost var before := adj;
        RowComplete(l, rs, j, ro);
        RelatePair(l, rs[j], ro);
        RowStep(adj0, l, rs, j, ro, accumulate, before, adj);
        j := j + 1;
      }
      assert rs[..j] == rs;
    }

    /** One more pair of relate's inner loop delivered. */
    static lemma RowStep(adj0: Adj, l: NodeTuple, rs: seq<NodeTuple>, j: nat, ro: Roles, accumulate: bool, a1: Adj, a2: Adj)
      requires j < |rs|
      requires a1 == Apply(adj0, Row(l, rs[..j], ro), accumulate)
      requires a2 == Apply(a1, Cell(l, rs[j], ro), accumulate)
      ensures a2 == Apply(adj0, Row(l, rs[..j + 1], ro), accumulate)
    {
      ApplyAppend(adj0, Row(l, rs[..j], ro), Cell(l, rs[j], ro), accumulate);
      assert rs[..j + 1][..j] == rs[..j];
    }

    /** The body of relate's inner loop, for the pair (l, r). */
    method RelatePair(l: NodeTuple, r: NodeTuple, ro: Roles)
      requires forall e :: e in Cell(l, r, ro) ==> e.owner in adj
      modifies this
      ensures adj == Apply(old(adj), Cell(l, r, ro), accumulate)
      ensures names == old(names) && lookup == old(lookup) && loaded == old(loaded)
    {
      assert forall e :: e in RightCell(l, r, ro) ==> e in Cell(l, r, ro);
      assert forall e :: e in LeftCell(l, r, ro) ==> e in Cell(l, r, ro);
      RelateRightCell(l, r, ro);
      RelateLeftCell(l, r, ro);
      ApplyAppend(old(adj), RightCell(l, r, ro), LeftCell(l, r, ro), accumulate);
    }

    /** The pair's `_connects` link and forward edge (nodeRegistry.py:140-146). */
    method RelateRightCell(l: NodeTuple, r: NodeTuple, ro: Roles)
      requires forall e :: e in RightCell(l, r, ro) ==> e.owner in adj
      modifies this
      ensures adj == Apply(old(adj), RightCell(l, r, ro), accumulate)
      ensures names == old(names) && lookup == old(lookup) && loaded == old(loaded)
    {
      if ro.rightward.Some? {
        ghost var linked: seq<Edge> := [];
        if ro.linkRight {
          var e := Edge(ro.rightward.value, ro.connects, NodeTuple(r.node, 1), RightLink);
          assert e in RightCell(l, r, ro);
          Write(e);
          ApplySnoc(old(adj), [], e, accumulate);
          linked := [e];
        }
        var e := Edge(l.node, ro.rightward.value, r, Forward);
        assert e in RightCell(l, r, ro);
        Write(e);
        ApplySnoc(old(adj), linked, e, accumulate);
        assert RightCell(l, r, ro) == linked + [e];
      }
    }

    /** The pair's backward edge (nodeRegistry.py:147-151). */
    method RelateLeftCell(l: NodeTuple, r: NodeTuple, ro: Roles)
      requires forall e :: e in LeftCell(l, r, ro) ==> e.owner in adj
      modifies this
      ensures adj == Apply(old(adj), LeftCell(l, r, ro), accumulate)
      ensures names == old(names) && lookup == old(lookup) && loaded == old(loaded)
    {
      if ro.leftward.Some? {
        var e := Edge(r.node, ro.leftward.value, l, Backward);
        assert e in LeftCell(l, r, ro);
        Write(e);
        ApplySnoc(old(adj), [], e, accumulate);
        assert LeftCell(l, r, ro) == [] + [e];
      }
    }
  }

  /** The set of nodes a list holds. */
  function NodeSet(s: seq<NodeTuple>): set<NodeId> {
    set n | n in NodesOf(s)
  }

  lemma NodeSetSnoc(s: seq<NodeTuple>, i: nat)
    requires i < |s|
    ensures NodeSet(s[..i + 1]) == NodeSet(s[..i]) + {s[i].node}
  {
    assert s[..i + 1] == s[..i] + [s[i]];
    NodesOfAppend(s[..i], [s[i]]);
  }

  /** `[n.node.name for n in ...]`: each node's name as first spelled. */
  function NamesOf(names: seq<string>, s: seq<NodeTuple>): (r: seq<string>)
    requires NodesBelow(s, |names|)
    ensures |r| == |s| && forall i :: 0 <= i < |s| ==> r[i] == names[s[i].node]
  {
    if s == [] then [] else [names[s[0].node]] + NamesOf(names, s[1..])
  }

  /** Sorting keeps the set of nodes. */
  lemma IteratedNodeSet(s: seq<NodeTuple>, sorted: bool)
    ensures NodeSet(Iterated(s, sorted)) == NodeSet(s)
  {
    ConsolidateSpec(s);
  }

  lemma IteratedBelow(s: seq<NodeTuple>, sorted: bool, n: nat)
    requires NodesBelow(s, n)
    ensures NodesBelow(Iterated(s, sorted), n)
  {
    if !sorted {
      var c := Consolidate(s);
      ConsolidateSpec(s);
      forall i | 0 <= i < |c| ensures c[i].node < n {
        assert c[i].node in NodesOf(c);
        assert c[i].node in NodesOf(s);
        var k :| 0 <= k < |s| && NodesOf(s)[k] == c[i].node;
      }
    }
  }

  /** What NodeList.load (nodes.py:125-135) does to the registry. */
  function ListLoad(st: RegState, store: Option<Store>, entries: seq<NodeTuple>, accumulate: bool, manage: bool): RegState
    requires store.Some? ==> StoreValid(store.value)
    requires NodesBelow(entries, |st.names|)
  {
    if !Hydration.IsLoaded(st, NodesOf(entries)) && store.Some? then
      Load(st, store.value, NamesOf(st.names, entries), accumulate, manage).0
    else st
  }

  /**
   * After a list's load, every stored relationship whose left node is a node
   * of the list that was not loaded (stored under the name that node was
   * created with) is in the registry.
   */
  lemma ListLoadHydrates(st: RegState, db: Store, entries: seq<NodeTuple>, accumulate: bool, manage: bool, i: nat, r: StoredRow)
    requires RegistryState.Valid(st) && StoreValid(db) && NodesBelow(entries, |st.names|)
    requires i < |entries| && entries[i].node !in st.loaded
    requires r in db.rows && RowIn(db, r) && db.names[r.relation] != []
    requires db.names[r.left] == st.names[entries[i].node]
    ensures Holds(ListLoad(st, Some(db), entries, accumulate, manage), db, r)
  {
    var ns := NamesOf(st.names, entries);
    assert NodesOf(entries)[i] == entries[i].node;
    assert ns[i] == db.names[r.left];
    LoadHydrates(st, db, ns, accumulate, manage, r);
  }

  /** A list whose nodes are all loaded is not loaded again, whatever the store holds. */
  lemma ListLoadLoaded(st: RegState, store: Option<Store>, entries: seq<NodeTuple>, accumulate: bool, manage: bool)
    requires store.Some? ==> StoreValid(store.value)
    requires NodesBelow(entries, |st.names|) && entries != []
    requires forall i :: 0 <= i < |entries| ==> entries[i].node in st.loaded
    ensures ListLoad(st, store, entries, accumulate, manage) == st
  {
  }

  /** The relation nodes rel expands: None for every key, else the named nodes (nodes.py:148-156). */
  function RelKeys(st: RegState, relation: Option<seq<string>>): Option<seq<NodeId>> {
    if relation.None? || relation.value == [] then None
    else Some(NodesOf(Consolidate(Ones(LookupIds(st, relation.value)))))
  }

  /** Appending a non-empty NodeList's entries: the accumulate-or-skip rule, with no error. */
  lemma AppendNested(entries: seq<NodeTuple>, p: seq<NodeTuple>, accumulate: bool, resolve: string -> Option<NodeId>)
    requires p != []
    ensures AppendWith(entries, [Nested(p, true)], accumulate, resolve) == Ok((Absorb(entries, p, accumulate), accumulate || !ContainsNode(entries, p[0].node)))
  {
    TuplateSingle(Nested(p, true), resolve);
  }

  lemma ProductNonEmpty(l: seq<NodeTuple>, w: int)
    requires l != []
    ensures Product(l, w) != []
  {
    ProductSpec(l, w);
    assert l[0].node in NodesOf(l);
  }

  /** The registry after get(ns) with `load` on (nodeRegistry.py:92-93): loaded from the store when one is connected. */
  function Fetch(st: RegState, store: Option<Store>, ns: seq<string>, accumulate: bool, manage: bool): RegState
    requires store.Some? ==> StoreValid(store.value)
  {
    if store.Some? then Load(st, store.value, ns, accumulate, manage).0 else st
  }

  /** The nodes a lookup finds are nodes of the registry. */
  lemma LookupIdsBelow(st: RegState, ns: seq<string>)
    requires RegistryState.Valid(st)
    ensures NodesBelow(Ones(LookupIds(st, ns)), |st.names|)
  {
    var ids := LookupIds(st, ns);
    forall i | 0 <= i < |ids| ensures ids[i] < |st.names| {
      assert ids[i] in ids;
      var k :| k in st.lookup && st.lookup[k] == ids[i];
    }
  }

  /** The relation of NodeRegistry.rel is the `_connects` node, when it exists. */
  lemma ConnectsKeys(st: RegState)
    ensures RelKeys(st, Some([Connects])) == if Connects in st.lookup then Some([st.lookup[Connects]]) else Some([])
  {
    ConnectsIsLower();
    LookupOne(st, Connects);
    var ones := Ones(LookupIds(st, [Connects]));
    if Connects in st.lookup {
      var c := Consolidate(ones);
      ConsolidateSpec(ones);
      assert NodesOf(ones) == [st.lookup[Connects]];
      var ns := NodesOf(c);
      assert forall x :: x in ns <==> x == st.lookup[Connects];
      assert |ns| == 1 by {
        assert Distinct(ns);
        assert ns[0] in ns;
      }
      assert ns == [ns[0]];
    } else {
      assert ones == [];
      assert Accumulated(ones) == [] by {
        assert Dedup(NodesOf(ones)) == [];
      }
    }
  }

  class NodeList {
    var nodes: seq<NodeTuple>
    /** Whether `nodes` is known to be consolidated and in weight order. */
    var sorted: bool
    const parent: NodeRegistry

    /** NodeList(nodes, registry) (nodes.py:33-37), given already normalised tuples. */
    constructor(entries: seq<NodeTuple>, parent: NodeRegistry)
      ensures nodes == entries && !sorted && this.parent == parent
    {
      nodes := entries;
      sorted := false;
      this.parent := parent;
    }

    /**
     * sort (nodes.py:79-94): the weights of each node summed in order of
     * first occurrence, then a stable sort by weight, highest first.
     */
    method Sort()
      modifies this
      ensures nodes == Iterated(old(nodes), old(sorted)) && sorted
    {
      if !sorted {
        var acc := AccumulateWeights(nodes);
        nodes := SortDesc(acc, WeightOf);
        sorted := true;
      }
    }

    /** isLoaded (nodes.py:99-113). */
    method IsLoaded() returns (b: bool)
      ensures b == Hydration.IsLoaded(parent.State(), NodesOf(nodes))
    {
      if |nodes| == 0 {
        return false;
      }
      var i := 0;
      while i < |nodes|
        invariant 0 <= i <= |nodes|
        invariant forall k :: 0 <= k < i ==> nodes[k].node in parent.loaded
      {
        if nodes[i].node !in parent.loaded {
          return false;
        }
        i := i + 1;
      }
      return true;
    }

    /** setLoaded (nodes.py:115-123): iterating sorts the list, then every node's flag is set. */
    method SetLoaded(flag: bool)
      modifies this, parent
      ensures nodes == Iterated(old(nodes), old(sorted)) && sorted
      ensures parent.loaded == if flag then old(parent.loaded) + NodeSet(old(nodes)) else old(parent.loaded) - NodeSet(old(nodes))
      ensures parent.names == old(parent.names) && parent.lookup == old(parent.lookup) && parent.adj == old(parent.adj)
    {
      Sort();
      IteratedNodeSet(old(nodes), old(sorted));
      Mark(flag);
    }

    /** The loop of setLoaded. */
    method Mark(flag: bool)
      modifies parent
      ensures parent.loaded == if flag then old(parent.loaded) + NodeSet(nodes) else old(parent.loaded) - NodeSet(nodes)
      ensures parent.names == old(parent.names) && parent.lookup == old(parent.lookup) && parent.adj == old(parent.adj)
    {
      assert nodes[..0] == [];
      var i := 0;
      while i < |nodes|
        invariant 0 <= i <= |nodes|
        invariant parent.loaded == if flag then old(parent.loaded) + NodeSet(nodes[..i]) else old(parent.loaded) - NodeSet(nodes[..i])
        invariant parent.names == old(parent.names) && parent.lookup == old(parent.lookup) && parent.adj == old(parent.adj)
      {
        NodeSetSnoc(nodes, i);
        if flag {
          parent.loaded := parent.loaded + {nodes[i].node};
        } else {
          parent.loaded := parent.loaded - {nodes[i].node};
        }
        i := i + 1;
      }
      assert nodes[..i] == nodes;
    }

    /** The loop of contains (nodes.py:74-77). */
    method HasNode(n: NodeId) returns (b: bool)
      ensures b == ContainsNode(nodes, n)
    {
      var i := 0;
      while i < |nodes|
        invariant 0 <= i <= |nodes|
        invariant forall k :: 0 <= k < i ==> nodes[k].node != n
      {
        if nodes[i].node == n {
          return true;
        }
        i := i + 1;
      }
      return false;
    }

    /** contains (nodes.py:72-77): the argument is normalised without a registry. */
    method Contains(items: seq<Item>) returns (r: Result<bool>)
      ensures r == Nodes.Contains(nodes, items)
    {
      var ts := Tuplate(items, NoRegistry);
      if ts.Err? {
        return Err(ts.error);
      }
      if ts.value == [] {
        return Err(IndexError);
      }
      var b := HasNode(ts.value[0].node);
      r := Ok(b);
    }

    /**
     * append (nodes.py:58-69) with line 67 passing the registry as the
     * registry: the presence test is contains (no registry), consulted only
     * without accumulation; the appended entries are resolved through the
     * registry's lookup.
     */
    method Append(items: seq<Item>) returns (r: Result<bool>)
      modifies this
      ensures var a := AppendWith(old(nodes), items, parent.accumulate, Resolver(parent.lookup));
        (a.Err? ==> r == Err(a.error) && nodes == old(nodes) && sorted == old(sorted)) &&
        (a.Ok? ==> r == Ok(a.value.1) && nodes == a.value.0 && sorted == (old(sorted) && !a.value.1))
    {
      if !parent.accumulate {
        var c := Contains(items);
        if c.Err? {
          return Err(c.error);
        }
        if c.value {
          return Ok(false);
        }
      }
      var ts := Tuplate(items, Resolver(parent.lookup));
      if ts.Err? {
        return Err(ts.error);
      }
      nodes := nodes + ts.value;
      sorted := false;
      r := Ok(true);
    }

    /** `L *= k` (nodes.py:52-55): iterating sorts the list, then every weight is multiplied. */
    method IMul(k: int)
      modifies this
      ensures nodes == Scale(Iterated(old(nodes), old(sorted)), k) && sorted
    {
      Sort();
      ghost var c := nodes;
      var i := 0;
      while i < |nodes|
        invariant 0 <= i <= |nodes| == |c| && sorted
        invariant forall j :: 0 <= j < i ==> nodes[j] == NodeTuple(c[j].node, c[j].weight * k)
        invariant forall j :: i <= j < |c| ==> nodes[j] == c[j]
      {
        nodes := nodes[i := NodeTuple(nodes[i].node, nodes[i].weight * k)];
        i := i + 1;
      }
      forall j | 0 <= j < |c| ensures nodes[j] == Scale(c, k)[j] {
        ScaleAt(c, k, j);
      }
    }

    /** `L * k` (nodes.py:46-50): a new list of this one's tuples, sorted and scaled; this one is unchanged. */
    method Mul(k: int) returns (out: NodeList)
      ensures fresh(out) && out.parent == parent
      ensures out.nodes == Product(nodes, k) && out.sorted
    {
      out := new NodeList(nodes, parent);
      out.IMul(k);
    }

    /** eq (nodes.py:167-175): the node at a Python index of the sorted list; None past the end. */
    method Eq(index: int) returns (r: Result<Option<NodeId>>)
      modifies this
      ensures nodes == Iterated(old(nodes), old(sorted)) && sorted
      ensures r.Ok? && r.value.None? <==> index >= |nodes|
      ensures r.Err? <==> index < -|nodes|
      ensures r.Err? ==> r.error == IndexError
      ensures 0 <= index < |nodes| ==> r == Ok(Some(nodes[index].node))
      ensures -|nodes| <= index < 0 ==> r == Ok(Some(nodes[|nodes| + index].node))
    {
      Sort();
      if index >= |nodes| {
        return Ok(None);
      }
      var t :- PyIndex(nodes, index);
      r := Ok(Some(t.node));
    }

    /** first (nodes.py:177-184): the heaviest node, None for an empty list. */
    method First() returns (r: Option<NodeId>)
      modifies this
      ensures nodes == Iterated(old(nodes), old(sorted)) && sorted
      ensures r.None? <==> nodes == []
      ensures r.Some? ==> r == Some(nodes[0].node)
    {
      var e := Eq(0);
      r := e.value;
    }

    /** top (nodes.py:186-192): `nodes[:n]`, without sorting first. */
    method Top(n: int) returns (out: NodeList)
      ensures fresh(out) && out.parent == parent && !out.sorted
      ensures out.nodes == PySlice(nodes, None, Some(n))
    {
      out := new NodeList(PySlice(nodes, None, Some(n)), parent);
    }

    /** bottom (nodes.py:194-200): `nodes[-n:]`. */
    method Bottom(n: int) returns (out: NodeList)
      ensures fresh(out) && out.parent == parent && !out.sorted
      ensures out.nodes == PySlice(nodes, Some(-n), None)
    {
      out := new NodeList(PySlice(nodes, Some(-n), None), parent);
    }

    /** sublist (nodes.py:202-209): `nodes[start:end]`. */
    method Sublist(start: int, end: int) returns (out: NodeList)
      ensures fresh(out) && out.parent == parent && !out.sorted
      ensures out.nodes == PySlice(nodes, Some(start), Some(end))
    {
      out := new NodeList(PySlice(nodes, Some(start), Some(end)), parent);
    }

    /** limit (nodes.py:211-222): the sorted entries whose node the argument names. */
    method Limit(items: seq<Item>) returns (r: Result<NodeList>)
      modifies this
      ensures nodes == Iterated(old(nodes), old(sorted)) && sorted
      ensures r.Err? <==> Tuplate(items, Resolver(parent.lookup)).Err?
      ensures r.Err? ==> r.error == InvalidType
      ensures r.Ok? ==> (fresh(r.value) && r.value.parent == parent && !r.value.sorted &&
                         r.value.nodes == Keep(nodes, NodesOf(Tuplate(items, Resolver(parent.lookup)).value)))
    {
      Sort();
      var ts :- Tuplate(items, Resolver(parent.lookup));
      var out := new NodeList(Keep(nodes, NodesOf(ts)), parent);
      r := Ok(out);
    }

    /** exclude (nodes.py:224-234): the sorted entries whose node the argument does not name. */
    method Exclude(items: seq<Item>) returns (r: Result<NodeList>)
      modifies this
      ensures nodes == Iterated(old(nodes), old(sorted)) && sorted
      ensures r.Err? <==> Tuplate(items, Resolver(parent.lookup)).Err?
      ensures r.Err? ==> r.error == InvalidType
      ensures r.Ok? ==> (fresh(r.value) && r.value.parent == parent && !r.value.sorted &&
                         r.value.nodes == Drop(nodes, NodesOf(Tuplate(items, Resolver(parent.lookup)).value)))
    {
      Sort();
      var ts :- Tuplate(items, Resolver(parent.lookup));
      var out := new NodeList(Drop(nodes, NodesOf(ts)), parent);
      r := Ok(out);
    }

    /** load (nodes.py:125-135): unless every node is loaded, the nodes' names are loaded from the store. */
    method Load()
      requires parent.Valid() && NodesBelow(nodes, |parent.names|)
      modifies parent
      ensures parent.Valid()
      ensures parent.State() == ListLoad(old(parent.State()), parent.store, nodes, parent.accumulate, parent.manage)
    {
      var done := IsLoaded();
      if !done && parent.store.Some? {
        var _ := parent.LoadNames(NamesOf(parent.names, nodes));
      }
    }

    /**
     * rel (nodes.py:137-165): for each entry (n, w) of the sorted list and
     * each matching relation key of n, the stored list scaled by w is
     * appended to a new list, which is then sorted and loaded. A relation
     * name that resolves to no node gives an empty, unloaded list.
     */
    method Rel(relation: Option<seq<string>>) returns (out: NodeList)
      requires parent.Valid() && NodesBelow(nodes, |parent.names|)
      modifies this, parent
      ensures fresh(out) && out.parent == parent && parent.Valid()
      ensures nodes == Iterated(old(nodes), old(sorted)) && sorted
      ensures RelKeys(old(parent.State()), relation) == Some([]) ==>
        out.nodes == [] && !out.sorted && parent.State() == old(parent.State())
      ensures RelKeys(old(parent.State()), relation) != Some([]) ==>
        out.sorted && NodesBelow(out.nodes, |old(parent.names)|) &&
        out.nodes == Consolidate(Collect([], Reached(nodes, old(parent.adj), RelKeys(old(parent.State()), relation)), parent.accumulate)) &&
        parent.State() == ListLoad(old(parent.State()), parent.store, out.nodes, parent.accumulate, parent.manage)
    {
      Sort();
      out := new NodeList([], parent);
      var keys := RelationNodes(relation);
      if keys == Some([]) {
        return;
      }
      Gather(out, keys);
      out.Sort();
      GatheredBelow(nodes, parent.adj, keys, parent.accumulate, |parent.names|);
      IteratedBelow(Collect([], Reached(nodes, parent.adj, keys), parent.accumulate), false, |parent.names|);
      out.Load();
    }

    /** The relation nodes of rel: `[n.node for n in self.parent.get(name, load=0)]`, iterated, so sorted. */
    method RelationNodes(relation: Option<seq<string>>) returns (keys: Option<seq<NodeId>>)
      ensures keys == RelKeys(parent.State(), relation)
    {
      keys := None;
      if relation.Some? && relation.value != [] {
        var named := parent.Lookup(relation.value);
        named.Sort();
        keys := Some(NodesOf(named.nodes));
      }
    }

    /** rel's outer loop over the entries (nodes.py:149-151, 158-163). */
    method Gather(out: NodeList, keys: Option<seq<NodeId>>)
      requires out != this && out.parent == parent && AllWellFormed(parent.adj) && out.nodes == [] && !out.sorted
      modifies out
      ensures out.nodes == Collect([], Reached(nodes, parent.adj, keys), parent.accumulate) && !out.sorted
    {
      assert nodes[..0] == [];
      var i := 0;
      while i < |nodes|
        invariant 0 <= i <= |nodes| && !out.sorted
        invariant out.nodes == Collect([], Reached(nodes[..i], parent.adj, keys), parent.accumulate)
      {
        var t := nodes[i];
        var slots := SlotsOf(parent.adj, t.node);
        ghost var before := Reached(nodes[..i], parent.adj, keys);
        out.AppendHops(slots, Keys(slots, keys), t.weight);
        CollectAppend([], before, Hop(slots, Keys(slots, keys), t.weight), parent.accumulate);
        ReachedSnoc(nodes, i, parent.adj, keys);
        i := i + 1;
      }
      assert nodes[..i] == nodes;
    }

    /** rel's inner loop: `out.append(registry[n][R] * w)` for each matching key R. */
    method AppendHops(s: Slots, ks: seq<NodeId>, w: int)
      requires WellFormed(s) && !sorted
      modifies this
      ensures nodes == Collect(old(nodes), Hop(s, ks, w), parent.accumulate) && !sorted
    {
      assert ks[..0] == [];
      var j := 0;
      while j < |ks|
        invariant 0 <= j <= |ks| && !sorted
        invariant nodes == Collect(old(nodes), Hop(s, ks[..j], w), parent.accumulate)
      {
        AppendHop(old(nodes), s, ks, j, w);
        j := j + 1;
      }
      assert ks[..j] == ks;
    }

    /** One step of rel's inner loop, for key ks[j]. */
    method AppendHop(ghost n0: seq<NodeTuple>, s: Slots, ks: seq<NodeId>, j: nat, w: int)
      requires WellFormed(s) && !sorted && j < |ks|
      requires nodes == Collect(n0, Hop(s, ks[..j], w), parent.accumulate)
      modifies this
      ensures nodes == Collect(n0, Hop(s, ks[..j + 1], w), parent.accumulate) && !sorted
    {
      var k := ks[j];
      HopSnoc(s, ks, j, w);
      if k in s.lists {
        var p := Product(s.lists[k], w);
        ProductNonEmpty(s.lists[k], w);
        AppendNested(nodes, p, parent.accumulate, Resolver(parent.lookup));
        CollectSnoc(n0, Hop(s, ks[..j], w), p, parent.accumulate);
        var _ := Append([Nested(p, true)]);
      } else {
        assert Hop(s, ks[..j], w) + [] == Hop(s, ks[..j], w);
      }
    }

    /** names (nodes.py:250-258): the nodes' names in weight order. */
    method Names() returns (ns: seq<string>)
      requires NodesBelow(nodes, |parent.names|)
      modifies this
      ensures nodes == Iterated(old(nodes), old(sorted)) && sorted
      ensures NodesBelow(nodes, |parent.names|) && ns == NamesOf(parent.names, nodes)
    {
      Sort();
      IteratedBelow(old(nodes), old(sorted), |parent.names|);
      ns := [];
      var i := 0;
      while i < |nodes|
        invariant 0 <= i <= |nodes|
        invariant |ns| == i && forall j :: 0 <= j < i ==> ns[j] == parent.names[nodes[j].node]
      {
        ns := ns + [parent.names[nodes[i].node]];
        i := i + 1;
      }
    }

    /** tuples (nodes.py:260-269): (name, weight) pairs in weight order. */
    method Tuples() returns (ps: seq<(string, int)>)
      requires NodesBelow(nodes, |parent.names|)
      modifies this
      ensures nodes == Iterated(old(nodes), old(sorted)) && sorted
      ensures |ps| == |nodes| && NodesBelow(nodes, |parent.names|)
      ensures forall j :: 0 <= j < |ps| ==> ps[j] == (parent.names[nodes[j].node], nodes[j].weight)
    {
      Sort();
      IteratedBelow(old(nodes), old(sorted), |parent.names|);
      ps := [];
      var i := 0;
      while i < |nodes|
        invariant 0 <= i <= |nodes|
        invariant |ps| == i && forall j :: 0 <= j < i ==> ps[j] == (parent.names[nodes[j].node], nodes[j].weight)
      {
        ps := ps + [(parent.names[nodes[i].node], nodes[i].weight)];
        i := i + 1;
      }
    }
  }
}
