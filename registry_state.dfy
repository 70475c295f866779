/**
 * The state of a weighted NodeRegistry (nodeRegistry.py) as a value, and
 * what its operations do to it: interning names (`_add`, `addAll`), lookup
 * (`get` without create or load), tuplate with node creation, relate, and the
 * hydration of DBC.load (dbc.py:119-167) over an abstract store.
 */
module RegistryState {
  import opened Wrappers
  import opened Seqs
  import opened Nodes
  import opened Adjacency
  import Common

  /** The name of the internal relation that links a relation node to the nodes it relates. */
  const Connects: string := "_connects"

  /**
   * Node `id` has the name `names[id]` (as first spelled) and the loaded flag
   * `id in loaded`; `lookup` maps lowercased names to nodes and `adj` is the
   * adjacency map.
   */
  datatype RegState = RegState(names: seq<string>, lookup: map<string, NodeId>, adj: Adj, loaded: set<NodeId>)

  /** lookup is a bijection onto the nodes, every node has an adjacency map, and everything refers to nodes. */
  ghost predicate Valid(st: RegState) {
    (forall k :: k in st.lookup ==> st.lookup[k] < |st.names| && Lower(st.names[st.lookup[k]]) == k) &&
    (forall id :: 0 <= id < |st.names| ==> Lower(st.names[id]) in st.lookup && st.lookup[Lower(st.names[id])] == id) &&
    (forall id: NodeId :: id in st.adj <==> id < |st.names|) &&
    AllWellFormed(st.adj) && Bounded(st.adj, |st.names|) &&
    (forall id :: id in st.loaded ==> id < |st.names|)
  }

  /** `b` only adds nodes to `a`: existing nodes, names, relations and flags are kept. */
  ghost predicate Grows(a: RegState, b: RegState) {
    a.names <= b.names &&
    (forall k :: k in a.lookup ==> k in b.lookup && b.lookup[k] == a.lookup[k]) &&
    (forall x :: x in a.adj ==> x in b.adj && b.adj[x] == a.adj[x]) &&
    b.loaded == a.loaded
  }

  lemma GrowsTrans(a: RegState, b: RegState, c: RegState)
    requires Grows(a, b) && Grows(b, c)
    ensures Grows(a, c)
  {
  }

  // ---------------------------------------------------------------------------
  // _add, addAll and lookup
  // ---------------------------------------------------------------------------

  /** `_add` for a string (nodeRegistry.py:31-38): the node of the lowercased name, created if missing. */
  function Intern(st: RegState, name: string): (r: (RegState, NodeId))
    ensures Lower(name) in r.0.lookup && r.0.lookup[Lower(name)] == r.1
  {
    var k := Lower(name);
    if k in st.lookup then (st, st.lookup[k])
    else
      var id := |st.names|;
      (RegState(st.names + [name], st.lookup[k := id], st.adj[id := NoSlots()], st.loaded), id)
  }

  lemma InternValid(st: RegState, name: string)
    requires Valid(st)
    ensures Valid(Intern(st, name).0) && Grows(st, Intern(st, name).0)
    ensures Intern(st, name).1 < |Intern(st, name).0.names|
  {
    if Lower(name) !in st.lookup {
      InternNewValid(st, name, Lower(name), Intern(st, name).0);
    }
  }

  /** Creating the node of a new name keeps the registry valid. */
  lemma InternNewValid(st: RegState, name: string, k: string, s: RegState)
    requires Valid(st) && k == Lower(name) && k !in st.lookup
    requires s == RegState(st.names + [name], st.lookup[k := |st.names|], st.adj[|st.names| := NoSlots()], st.loaded)
    ensures Valid(s) && Grows(st, s)
  {
    InternNewLookup(st, name, k, s);
    InternNewNames(st, name, k, s);
    InternNewAdj(st, name, k, s);
    assert st.names <= s.names;
  }

  lemma InternNewLookup(st: RegState, name: string, k: string, s: RegState)
    requires Valid(st) && k == Lower(name) && k !in st.lookup
    requires s == RegState(st.names + [name], st.lookup[k := |st.names|], st.adj[|st.names| := NoSlots()], st.loaded)
    ensures forall j :: j in s.lookup ==> s.lookup[j] < |s.names| && Lower(s.names[s.lookup[j]]) == j
  {
    forall j | j in s.lookup ensures s.lookup[j] < |s.names| && Lower(s.names[s.lookup[j]]) == j {
      if j != k {
        assert s.names[st.lookup[j]] == st.names[st.lookup[j]];
      }
    }
  }

  lemma InternNewNames(st: RegState, name: string, k: string, s: RegState)
    requires Valid(st) && k == Lower(name) && k !in st.lookup
    requires s == RegState(st.names + [name], st.lookup[k := |st.names|], st.adj[|st.names| := NoSlots()], st.loaded)
    ensures forall i :: 0 <= i < |s.names| ==> Lower(s.names[i]) in s.lookup && s.lookup[Lower(s.names[i])] == i
  {
    forall i | 0 <= i < |s.names| ensures Lower(s.names[i]) in s.lookup && s.lookup[Lower(s.names[i])] == i {
      if i < |st.names| {
        assert s.names[i] == st.names[i];
        assert Lower(st.names[i]) != k;
      }
    }
  }

  lemma InternNewAdj(st: RegState, name: string, k: string, s: RegState)
    requires Valid(st) && k == Lower(name) && k !in st.lookup
    requires s == RegState(st.names + [name], st.lookup[k := |st.names|], st.adj[|st.names| := NoSlots()], st.loaded)
    ensures (forall id: NodeId :: id in s.adj <==> id < |s.names|) && AllWellFormed(s.adj) && Bounded(s.adj, |s.names|)
  {
    BoundedGrow(st.adj, |st.names|, |s.names|);
  }

  /**
   * `_add` is idempotent and case-insensitive: a second spelling of the same
   * name gives the same node and changes nothing, and the node keeps the
   * spelling it was first created with.
   */
  lemma InternIdempotent(st: RegState, a: string, b: string)
    requires Valid(st) && Lower(a) == Lower(b)
    ensures Intern(Intern(st, a).0, b) == Intern(st, a)
    ensures Lower(a) !in st.lookup ==> Intern(st, a).0.names[Intern(st, a).1] == a
    ensures Lower(a) in st.lookup ==> Intern(st, a).0 == st
  {
    InternValid(st, a);
  }

  /** A new node starts with no relations and not loaded; existing nodes are untouched. */
  lemma InternFresh(st: RegState, name: string)
    requires Valid(st) && Lower(name) !in st.lookup
    ensures var (s, id) := Intern(st, name);
      id !in st.adj && s.adj[id] == NoSlots() && id !in s.loaded && |s.names| == |st.names| + 1
  {
  }

  /** addAll (nodeRegistry.py:57-71): every name interned in order. */
  function InternAll(st: RegState, ns: seq<string>): (RegState, seq<NodeId>) {
    if ns == [] then (st, [])
    else
      var (s1, ids) := InternAll(st, ns[..|ns| - 1]);
      var (s2, id) := Intern(s1, ns[|ns| - 1]);
      (s2, ids + [id])
  }

  /** get with neither create nor load (nodeRegistry.py:98): the known names' nodes, in order. */
  function LookupIds(st: RegState, ns: seq<string>): (r: seq<NodeId>)
    ensures forall id :: id in r ==> id in st.lookup.Values
    ensures forall n :: n in ns && Lower(n) in st.lookup ==> st.lookup[Lower(n)] in r
  {
    if ns == [] then []
    else
      var n := ns[|ns| - 1];
      LookupIds(st, ns[..|ns| - 1]) + (if Lower(n) in st.lookup then [st.lookup[Lower(n)]] else [])
  }

  /** addAll's loop after one more name: that name is interned into the state the earlier names left. */
  lemma InternAllSnoc(st: RegState, ns: seq<string>, i: nat)
    requires i < |ns|
    ensures InternAll(st, ns[..i + 1]).0 == Intern(InternAll(st, ns[..i]).0, ns[i]).0
    ensures InternAll(st, ns[..i + 1]).1 == InternAll(st, ns[..i]).1 + [Intern(InternAll(st, ns[..i]).0, ns[i]).1]
  {
    assert ns[..i + 1][..i] == ns[..i];
  }

  lemma {:induction false} InternAllValid(st: RegState, ns: seq<string>)
    requires Valid(st)
    ensures Valid(InternAll(st, ns).0) && Grows(st, InternAll(st, ns).0)
    ensures forall n :: n in ns ==> Lower(n) in InternAll(st, ns).0.lookup
    ensures |InternAll(st, ns).1| == |ns|
  {
    if ns != [] {
      var p := ns[..|ns| - 1];
      InternAllValid(st, p);
      var s1 := InternAll(st, p).0;
      InternValid(s1, ns[|ns| - 1]);
      GrowsTrans(st, s1, InternAll(st, ns).0);
      forall n | n in ns ensures Lower(n) in InternAll(st, ns).0.lookup {
        if n != ns[|ns| - 1] {
          assert n in p by {
            var i :| 0 <= i < |ns| && ns[i] == n;
            assert p[i] == n;
          }
        }
      }
    }
  }

  lemma {:induction false} LookupIdsGrows(a: RegState, b: RegState, ns: seq<string>)
    requires Grows(a, b) && forall n :: n in ns ==> Lower(n) in a.lookup
    ensures LookupIds(b, ns) == LookupIds(a, ns)
  {
    if ns != [] {
      LookupIdsGrows(a, b, ns[..|ns| - 1]);
      assert ns[|ns| - 1] in ns;
    }
  }

  /** After addAll, a plain get of the same names finds exactly the nodes addAll returned. */
  lemma {:induction false} AddAllThenGet(st: RegState, ns: seq<string>)
    requires Valid(st)
    ensures LookupIds(InternAll(st, ns).0, ns) == InternAll(st, ns).1
  {
    if ns != [] {
      var p := ns[..|ns| - 1];
      var x := ns[|ns| - 1];
      AddAllThenGet(st, p);
      InternAllValid(st, p);
      var s1 := InternAll(st, p).0;
      InternValid(s1, x);
      var s2 := InternAll(st, ns).0;
      LookupIdsGrows(s1, s2, p);
    }
  }

  /** The resolver of tuplate with the registry and without create: lowercased lookup. */
  function Resolver(lookup: map<string, NodeId>): string -> Option<NodeId> {
    (n: string) => if Lower(n) in lookup then Some(lookup[Lower(n)]) else None
  }

  // ---------------------------------------------------------------------------
  // tuplate with create (as relate calls it)
  // ---------------------------------------------------------------------------

  function RefOf(item: Item): Option<Ref> {
    match item
    case Bare(r) => Some(r)
    case Pair(r, _) => Some(r)
    case Tuple(r, _) => Some(r)
    case _ => None
  }

  /** Every name the items give is already known. */
  predicate NamesKnown(items: seq<Item>, lookup: map<string, NodeId>) {
    forall i :: 0 <= i < |items| && RefOf(items[i]).Some? && RefOf(items[i]).value.Named? ==>
      Lower(RefOf(items[i]).value.name) in lookup
  }

  /** Every Node the items hold belongs to a registry of `n` nodes. */
  predicate ItemsIn(items: seq<Item>, n: nat) {
    forall i :: 0 <= i < |items| ==>
      (RefOf(items[i]).Some? && RefOf(items[i]).value.Handle? ==> RefOf(items[i]).value.id < n) &&
      (items[i].Nested? ==> forall j :: 0 <= j < |items[i].entries| ==> items[i].entries[j].node < n)
  }

  /** One item normalised with create: a name is interned first, then its tuple is built. */
  function NormalizeCreate(st: RegState, item: Item): (RegState, Result<seq<NodeTuple>>) {
    match item
    case Bare(Named(s)) =>
      var (s1, id) := Intern(st, s);
      (s1, Ok([NodeTuple(id, 1)]))
    case Pair(Named(s), w) =>
      var (s1, id) := Intern(st, s);
      (s1, if w.Int? then Ok([NodeTuple(id, w.i)]) else Err(InvalidType))
    case Tuple(Named(s), w) =>
      var (s1, id) := Intern(st, s);
      (s1, Ok([NodeTuple(id, w)]))
    case _ => (st, Normalize(item, NoRegistry))
  }

  /**
   * tuplate(items, create=1, registry=self) (nodes.py:298-339): names are
   * interned in order; the first ill-typed weight aborts, after the nodes
   * of the items before it (and its own) have been created.
   */
  function TuplateCreate(st: RegState, items: seq<Item>): (RegState, Result<seq<NodeTuple>>) {
    if items == [] then (st, Ok([]))
    else
      var (s1, r1) := TuplateCreate(st, items[..|items| - 1]);
      if r1.Err? then (s1, r1)
      else
        var (s2, r2) := NormalizeCreate(s1, items[|items| - 1]);
        (s2, if r2.Err? then Err(r2.error) else Ok(r1.value + r2.value))
  }

  lemma ItemsInGrow(items: seq<Item>, n: nat, m: nat)
    requires ItemsIn(items, n) && n <= m
    ensures ItemsIn(items, m)
  {
  }

  lemma NormalizeCreateValid(st: RegState, item: Item)
    requires Valid(st) && ItemsIn([item], |st.names|)
    ensures Valid(NormalizeCreate(st, item).0) && Grows(st, NormalizeCreate(st, item).0)
    ensures NormalizeCreate(st, item).1.Ok? ==> NodesBelow(NormalizeCreate(st, item).1.value, |NormalizeCreate(st, item).0.names|)
  {
    if (item.Bare? || item.Pair? || item.Tuple?) && item.ref.Named? {
      InternValid(st, item.ref.name);
      NamedCreateBelow(st, item);
    } else {
      assert [item][0] == item;
      OtherCreateBelow(st, item, |st.names|);
    }
  }

  /** A name is interned, and the tuple built for it refers to the interned node. */
  lemma NamedCreateBelow(st: RegState, item: Item)
    requires (item.Bare? || item.Pair? || item.Tuple?) && item.ref.Named?
    requires Intern(st, item.ref.name).1 < |Intern(st, item.ref.name).0.names|
    ensures NormalizeCreate(st, item).0 == Intern(st, item.ref.name).0
    ensures NormalizeCreate(st, item).1.Ok? ==> NodesBelow(NormalizeCreate(st, item).1.value, |Intern(st, item.ref.name).0.names|)
  {
  }

  /** Any other item creates nothing, and its tuples stay below the bound its handles and entries are below. */
  lemma OtherCreateBelow(st: RegState, item: Item, n: nat)
    requires !((item.Bare? || item.Pair? || item.Tuple?) && item.ref.Named?)
    requires RefOf(item).Some? && RefOf(item).value.Handle? ==> RefOf(item).value.id < n
    requires item.Nested? ==> forall j :: 0 <= j < |item.entries| ==> item.entries[j].node < n
    ensures NormalizeCreate(st, item) == (st, Normalize(item, NoRegistry))
    ensures Normalize(item, NoRegistry).Ok? ==> NodesBelow(Normalize(item, NoRegistry).value, n)
  {
    if item.Nested? && !item.sorted {
      ConsolidateBelow(item.entries, n);
    }
  }

  /** Consolidating a list keeps its nodes below any bound they were below. */
  lemma ConsolidateBelow(es: seq<NodeTuple>, n: nat)
    requires forall j :: 0 <= j < |es| ==> es[j].node < n
    ensures NodesBelow(Consolidate(es), n)
  {
    forall i | 0 <= i < |Consolidate(es)| ensures Consolidate(es)[i].node < n {
      ConsolidateNodes(es, Consolidate(es)[i].node);
      assert NodesOf(Consolidate(es))[i] == Consolidate(es)[i].node;
      var j :| 0 <= j < |es| && NodesOf(es)[j] == Consolidate(es)[i].node;
    }
  }

  lemma {:induction false} TuplateCreateValid(st: RegState, items: seq<Item>)
    requires Valid(st) && ItemsIn(items, |st.names|)
    ensures Valid(TuplateCreate(st, items).0) && Grows(st, TuplateCreate(st, items).0)
    ensures TuplateCreate(st, items).1.Ok? ==> NodesBelow(TuplateCreate(st, items).1.value, |TuplateCreate(st, items).0.names|)
  {
    if items != [] {
      var p := items[..|items| - 1];
      var x := items[|items| - 1];
      TuplateCreateValid(st, p);
      var (s1, r1) := TuplateCreate(st, p);
      if r1.Ok? {
        assert ItemsIn([x], |s1.names|) by {
          assert [x][0] == items[|items| - 1];
          assert |st.names| <= |s1.names|;
        }
        NormalizeCreateValid(s1, x);
        GrowsTrans(st, s1, NormalizeCreate(s1, x).0);
      }
    }
  }

  lemma NormalizeCreateKnown(st: RegState, item: Item)
    requires NamesKnown([item], st.lookup)
    ensures NormalizeCreate(st, item) == (st, Normalize(item, Resolver(st.lookup)))
  {
    assert [item][0] == item;
  }

  /** When every name is already known, tuplate with create changes nothing and is tuplate with lookup. */
  lemma {:induction false} TuplateCreateKnown(st: RegState, items: seq<Item>)
    requires NamesKnown(items, st.lookup)
    ensures TuplateCreate(st, items) == (st, Tuplate(items, Resolver(st.lookup)))
  {
    if items != [] {
      var p := items[..|items| - 1];
      var x := items[|items| - 1];
      assert items == p + [x];
      TuplateCreateKnown(st, p);
      TuplateSnoc(p, x, Resolver(st.lookup));
      assert NamesKnown([x], st.lookup) by {
        assert [x][0] == items[|items| - 1];
      }
      NormalizeCreateKnown(st, x);
    }
  }

  /** relate creates every node its arguments name: after tuplate with create, all names are known. */
  lemma {:induction false} TuplateCreateInterns(st: RegState, items: seq<Item>)
    requires Valid(st) && ItemsIn(items, |st.names|)
    ensures TuplateCreate(st, items).1.Ok? ==> NamesKnown(items, TuplateCreate(st, items).0.lookup)
  {
    if items != [] {
      var p := items[..|items| - 1];
      var x := items[|items| - 1];
      TuplateCreateInterns(st, p);
      TuplateCreateValid(st, p);
      var (s1, r1) := TuplateCreate(st, p);
      if r1.Ok? {
        assert ItemsIn([x], |s1.names|) by {
          assert [x][0] == items[|items| - 1];
        }
        NormalizeCreateValid(s1, x);
        NormalizeCreateKnows(s1, x);
        InternsStep(items, p, x, s1, NormalizeCreate(s1, x).0);
      }
    }
  }

  /** A name normalised with create is in the registry afterwards. */
  lemma NormalizeCreateKnows(st: RegState, x: Item)
    ensures RefOf(x).Some? && RefOf(x).value.Named? ==> Lower(RefOf(x).value.name) in NormalizeCreate(st, x).0.lookup
  {
  }

  /** The names known before one more item is created stay known, and the item's own name joins them. */
  lemma InternsStep(items: seq<Item>, p: seq<Item>, x: Item, s1: RegState, s2: RegState)
    requires items != [] && p == items[..|items| - 1] && x == items[|items| - 1]
    requires NamesKnown(p, s1.lookup) && Grows(s1, s2)
    requires RefOf(x).Some? && RefOf(x).value.Named? ==> Lower(RefOf(x).value.name) in s2.lookup
    ensures NamesKnown(items, s2.lookup)
  {
    forall i | 0 <= i < |items| && RefOf(items[i]).Some? && RefOf(items[i]).value.Named?
      ensures Lower(RefOf(items[i]).value.name) in s2.lookup
    {
      if i < |p| {
        assert items[i] == p[i];
      }
    }
  }

  /** With create every name resolves, so tuplate fails exactly on a tuple whose weight is not an int. */
  lemma {:induction false} TuplateCreateFails(st: RegState, items: seq<Item>)
    ensures TuplateCreate(st, items).1.Err? <==> exists i :: 0 <= i < |items| && items[i].Pair? && !items[i].weight.Int?
    ensures TuplateCreate(st, items).1.Err? ==> TuplateCreate(st, items).1.error == InvalidType
  {
    if items != [] {
      var p := items[..|items| - 1];
      var x := items[|items| - 1];
      TuplateCreateFails(st, p);
      var (s1, r1) := TuplateCreate(st, p);
      if r1.Err? {
        var i :| 0 <= i < |p| && p[i].Pair? && !p[i].weight.Int?;
        assert items[i] == p[i];
      } else {
        forall i | 0 <= i < |p| ensures !(items[i].Pair? && !items[i].weight.Int?) {
          assert items[i] == p[i];
        }
      }
    }
  }

  /** Once an item fails, the items after it are not looked at (nor interned). */
  lemma {:induction false} TuplateCreateStops(st: RegState, p: seq<Item>, q: seq<Item>)
    requires TuplateCreate(st, p).1.Err?
    ensures TuplateCreate(st, p + q) == TuplateCreate(st, p)
  {
    if q == [] {
      assert p + q == p;
    } else {
      assert (p + q)[..|p + q| - 1] == p + q[..|q| - 1];
      TuplateCreateStops(st, p, q[..|q| - 1]);
    }
  }

  // ---------------------------------------------------------------------------
  // relate
  // ---------------------------------------------------------------------------

  /** A relation name's node, created if missing; None for the empty name. */
  function NameNode(st: RegState, name: string): (RegState, Option<NodeId>) {
    if name == [] then (st, None)
    else
      var (s, id) := Intern(st, name);
      (s, Some(id))
  }

  /** Whether a relation of this name is auto-linked under `_connects`. */
  function Linked(manage: bool, name: string): bool {
    manage && name != [] && name[0] != '_'
  }

  /** The normalised endpoints and the resolved relation names of a relate call. */
  datatype Prep = Prep(ls: seq<NodeTuple>, rs: seq<NodeTuple>, roles: Roles)

  /** Both endpoint lists normalised with create (nodeRegistry.py:128-129). */
  function Endpoints(st: RegState, left: seq<Item>, right: seq<Item>): (RegState, Result<(seq<NodeTuple>, seq<NodeTuple>)>) {
    var (s1, lr) := TuplateCreate(st, left);
    if lr.Err? then (s1, Err(lr.error))
    else
      var (s2, rr) := TuplateCreate(s1, right);
      if rr.Err? then (s2, Err(rr.error))
      else (s2, Ok((lr.value, rr.value)))
  }

  /**
   * The relation nodes created (nodeRegistry.py:130-133), and the `_connects`
   * node created when some auto-link will be written.
   */
  function ResolveRoles(st: RegState, ls: seq<NodeTuple>, rs: seq<NodeTuple>, leftward: string, rightward: string, manage: bool): (RegState, Roles) {
    var (s3, lw) := NameNode(st, leftward);
    var (s4, rw) := NameNode(s3, rightward);
    var linkL := Linked(manage, leftward);
    var linkR := Linked(manage, rightward);
    var needs := (linkL && ls != []) || (linkR && ls != [] && rs != []);
    var (s5, c) := if needs then Intern(s4, Connects) else (s4, 0);
    (s5, Roles(lw, rw, linkL, linkR, c))
  }

  /** Everything relate does before its loop. */
  function Prepare(st: RegState, left: seq<Item>, right: seq<Item>, leftward: string, rightward: string, manage: bool): (RegState, Result<Prep>) {
    var (s2, e) := Endpoints(st, left, right);
    if e.Err? then (s2, Err(e.error))
    else
      var (s5, ro) := ResolveRoles(s2, e.value.0, e.value.1, leftward, rightward, manage);
      (s5, Ok(Prep(e.value.0, e.value.1, ro)))
  }

  /** relate (nodeRegistry.py:113-151): the preparation, then every edge of the plan delivered in order. */
  function RelateSpec(st: RegState, left: seq<Item>, right: seq<Item>, leftward: string, rightward: string, accumulate: bool, manage: bool): (RegState, Result<()>) {
    var (s, p) := Prepare(st, left, right, leftward, rightward, manage);
    if p.Err? then (s, Err(p.error))
    else (s.(adj := Apply(s.adj, Plan(p.value.ls, p.value.rs, p.value.roles), accumulate)), Ok(()))
  }

  lemma NameNodeValid(st: RegState, name: string)
    requires Valid(st)
    ensures Valid(NameNode(st, name).0) && Grows(st, NameNode(st, name).0)
    ensures NameNode(st, name).1.Some? ==> NameNode(st, name).1.value < |NameNode(st, name).0.names|
    ensures name == [] <==> NameNode(st, name).1.None?
    ensures name != [] ==> NameNode(st, name).1 == Some(NameNode(st, name).0.lookup[Lower(name)])
  {
    if name != [] {
      InternValid(st, name);
    }
  }

  lemma EndpointsValid(st: RegState, left: seq<Item>, right: seq<Item>)
    requires Valid(st) && ItemsIn(left, |st.names|) && ItemsIn(right, |st.names|)
    ensures var (s, e) := Endpoints(st, left, right);
      Valid(s) && Grows(st, s) &&
      (e.Ok? ==> NodesBelow(e.value.0, |s.names|) && NodesBelow(e.value.1, |s.names|) &&
                 NamesKnown(left, s.lookup) && NamesKnown(right, s.lookup))
  {
    TuplateCreateValid(st, left);
    TuplateCreateInterns(st, left);
    var (s1, lr) := TuplateCreate(st, left);
    if lr.Ok? {
      ItemsInGrow(right, |st.names|, |s1.names|);
      TuplateCreateValid(s1, right);
      TuplateCreateInterns(s1, right);
      var (s2, rr) := TuplateCreate(s1, right);
      GrowsTrans(st, s1, s2);
      assert |s1.names| <= |s2.names|;
      forall i | 0 <= i < |left| && RefOf(left[i]).Some? && RefOf(left[i]).value.Named?
        ensures Lower(RefOf(left[i]).value.name) in s2.lookup
      {
      }
    }
  }

  lemma ResolveRolesValid(st: RegState, ls: seq<NodeTuple>, rs: seq<NodeTuple>, leftward: string, rightward: string, manage: bool)
    requires Valid(st)
    ensures var (s, ro) := ResolveRoles(st, ls, rs, leftward, rightward, manage);
      Valid(s) && Grows(st, s) &&
      (ro.leftward.Some? ==> ro.leftward.value < |s.names|) &&
      (ro.rightward.Some? ==> ro.rightward.value < |s.names|) &&
      (ro.linkLeft && ls != [] ==> ro.connects < |s.names|) &&
      (ro.linkRight && ls != [] && rs != [] ==> ro.connects < |s.names|) &&
      (leftward == [] <==> ro.leftward.None?) && (rightward == [] <==> ro.rightward.None?) &&
      (leftward != [] ==> Lower(leftward) in s.lookup && ro.leftward == Some(s.lookup[Lower(leftward)])) &&
      (rightward != [] ==> Lower(rightward) in s.lookup && ro.rightward == Some(s.lookup[Lower(rightward)])) &&
      ro.linkLeft == Linked(manage, leftward) && ro.linkRight == Linked(manage, rightward)
  {
    NameNodeValid(st, leftward);
    var s3 := NameNode(st, leftward).0;
    NameNodeValid(s3, rightward);
    var s4 := NameNode(s3, rightward).0;
    GrowsTrans(st, s3, s4);
    InternValid(s4, Connects);
    GrowsTrans(st, s4, Intern(s4, Connects).0);
    NameNodeFacts(st, leftward);
    NameNodeFacts(s3, rightward);
  }

  /** Everything relate creates before its loop is a valid node of the grown registry. */
  lemma PrepareValid(st: RegState, left: seq<Item>, right: seq<Item>, leftward: string, rightward: string, manage: bool)
    requires Valid(st) && ItemsIn(left, |st.names|) && ItemsIn(right, |st.names|)
    ensures var (s, p) := Prepare(st, left, right, leftward, rightward, manage);
      Valid(s) && Grows(st, s) &&
      (p.Ok? ==>
         NodesBelow(p.value.ls, |s.names|) && NodesBelow(p.value.rs, |s.names|) &&
         (forall e :: e in Plan(p.value.ls, p.value.rs, p.value.roles) ==> e.owner < |s.names| && e.rel < |s.names| && e.entry.node < |s.names|))
  {
    EndpointsValid(st, left, right);
    var (s2, e) := Endpoints(st, left, right);
    if e.Ok? {
      ResolveRolesValid(s2, e.value.0, e.value.1, leftward, rightward, manage);
      var (s5, ro) := ResolveRoles(s2, e.value.0, e.value.1, leftward, rightward, manage);
      GrowsTrans(st, s2, s5);
      assert |s2.names| <= |s5.names|;
      PlanBounded(e.value.0, e.value.1, ro, |s5.names|);
    }
  }

  lemma PlanBounded(ls: seq<NodeTuple>, rs: seq<NodeTuple>, ro: Roles, n: nat)
    requires NodesBelow(ls, n) && NodesBelow(rs, n)
    requires ro.leftward.Some? ==> ro.leftward.value < n
    requires ro.rightward.Some? ==> ro.rightward.value < n
    requires ro.linkLeft && ls != [] ==> ro.connects < n
    requires ro.linkRight && ls != [] && rs != [] ==> ro.connects < n
    ensures forall e :: e in Plan(ls, rs, ro) ==> e.owner < n && e.rel < n && e.entry.node < n
  {
    PlanSound(ls, rs, ro);
    forall e | e in Plan(ls, rs, ro) ensures e.owner < n && e.rel < n && e.entry.node < n {
      assert Expected(e, ls, rs, ro);
      match e.kind
      case LeftLink =>
        var i :| 0 <= i < |ls| && e.entry == NodeTuple(ls[i].node, 1);
      case RightLink =>
        var j :| 0 <= j < |rs| && e.entry == NodeTuple(rs[j].node, 1);
        assert ls != [] by {
          PlanNonEmptyLeft(ls, rs, ro, e);
        }
      case Forward =>
        var i, j :| 0 <= i < |ls| && 0 <= j < |rs| && e.owner == ls[i].node && e.entry == rs[j];
      case Backward =>
        var i, j :| 0 <= i < |ls| && 0 <= j < |rs| && e.owner == rs[j].node && e.entry == ls[i];
    }
  }

  lemma PlanNonEmptyLeft(ls: seq<NodeTuple>, rs: seq<NodeTuple>, ro: Roles, e: Edge)
    requires e in Plan(ls, rs, ro)
    ensures ls != []
  {
  }

  /** relate keeps the registry valid: in particular no stored list is ever empty. */
  lemma RelateValid(st: RegState, left: seq<Item>, right: seq<Item>, leftward: string, rightward: string, accumulate: bool, manage: bool)
    requires Valid(st) && ItemsIn(left, |st.names|) && ItemsIn(right, |st.names|)
    ensures Valid(RelateSpec(st, left, right, leftward, rightward, accumulate, manage).0)
    ensures |st.names| <= |RelateSpec(st, left, right, leftward, rightward, accumulate, manage).0.names|
    ensures RelateSpec(st, left, right, leftward, rightward, accumulate, manage).0.loaded == st.loaded
  {
    PrepareValid(st, left, right, leftward, rightward, manage);
    var (s, p) := Prepare(st, left, right, leftward, rightward, manage);
    if p.Ok? {
      var es := Plan(p.value.ls, p.value.rs, p.value.roles);
      ApplyWellFormed(s.adj, es, accumulate);
      ApplyBounded(s.adj, es, accumulate, |s.names|);
    }
  }

  lemma NamesKnownGrow(items: seq<Item>, a: RegState, b: RegState)
    requires Grows(a, b) && NamesKnown(items, a.lookup)
    ensures NamesKnown(items, b.lookup)
  {
  }

  /** The loop of relate only writes adjacency: names, lookup and loaded flags are those after the preparation. */
  lemma RelateOnlyLinks(st: RegState, left: seq<Item>, right: seq<Item>, leftward: string, rightward: string, accumulate: bool, manage: bool)
    ensures var s := RelateSpec(st, left, right, leftward, rightward, accumulate, manage).0;
      var s0 := Prepare(st, left, right, leftward, rightward, manage).0;
      s.names == s0.names && s.lookup == s0.lookup && s.loaded == s0.loaded
  {
  }

  /** Interning keeps every existing key, with its node, and the loaded flags. */
  lemma InternKeeps(st: RegState, name: string)
    ensures Intern(st, name).0.loaded == st.loaded
    ensures forall k :: k in st.lookup ==> k in Intern(st, name).0.lookup && Intern(st, name).0.lookup[k] == st.lookup[k]
  {
  }

  /** Resolving one relation name: none for the empty name, else the node of its lowercased name. */
  lemma NameNodeFacts(st: RegState, name: string)
    ensures NameNode(st, name).0.loaded == st.loaded
    ensures forall k :: k in st.lookup ==> k in NameNode(st, name).0.lookup && NameNode(st, name).0.lookup[k] == st.lookup[k]
    ensures name == [] <==> NameNode(st, name).1.None?
    ensures name != [] ==> Lower(name) in NameNode(st, name).0.lookup && NameNode(st, name).1 == Some(NameNode(st, name).0.lookup[Lower(name)])
  {
    if name != [] {
      InternKeeps(st, name);
    }
  }

  /** How the relation names are resolved; the lookup and the loaded flags only grow. */
  lemma ResolveRolesNames(st: RegState, ls: seq<NodeTuple>, rs: seq<NodeTuple>, leftward: string, rightward: string, manage: bool)
    ensures var r := ResolveRoles(st, ls, rs, leftward, rightward, manage);
      var s, ro := r.0, r.1;
      (forall k :: k in st.lookup ==> k in s.lookup) && s.loaded == st.loaded &&
      (leftward == [] <==> ro.leftward.None?) && (rightward == [] <==> ro.rightward.None?) &&
      (leftward != [] ==> Lower(leftward) in s.lookup && ro.leftward == Some(s.lookup[Lower(leftward)])) &&
      (rightward != [] ==> Lower(rightward) in s.lookup && ro.rightward == Some(s.lookup[Lower(rightward)])) &&
      ro.linkLeft == Linked(manage, leftward) && ro.linkRight == Linked(manage, rightward)
  {
    var s3 := NameNode(st, leftward).0;
    var s4 := NameNode(s3, rightward).0;
    NameNodeFacts(st, leftward);
    NameNodeFacts(s3, rightward);
    InternKeeps(s4, Connects);
  }

  /** The `_connects` node is resolved whenever an auto-link will be written. */
  lemma ResolveRolesConnects(st: RegState, ls: seq<NodeTuple>, rs: seq<NodeTuple>, leftward: string, rightward: string, manage: bool)
    ensures var (s, ro) := ResolveRoles(st, ls, rs, leftward, rightward, manage);
      (ro.linkLeft && ls != []) || (ro.linkRight && ls != [] && rs != []) ==>
        Lower(Connects) in s.lookup && s.lookup[Lower(Connects)] == ro.connects
  {
    var s3 := NameNode(st, leftward).0;
    var s4 := NameNode(s3, rightward).0;
    var needs := (Linked(manage, leftward) && ls != []) || (Linked(manage, rightward) && ls != [] && rs != []);
    if needs {
      assert ResolveRoles(st, ls, rs, leftward, rightward, manage).0 == Intern(s4, Connects).0;
    }
  }

  /**
   * relate creates all endpoint and relation nodes, never touches a loaded
   * flag, and resolves each non-empty relation name to its node.
   */
  lemma RelateCreates(st: RegState, left: seq<Item>, right: seq<Item>, leftward: string, rightward: string, manage: bool)
    requires Valid(st) && ItemsIn(left, |st.names|) && ItemsIn(right, |st.names|)
    requires Prepare(st, left, right, leftward, rightward, manage).1.Ok?
    ensures var (s, p) := Prepare(st, left, right, leftward, rightward, manage);
      var ro := p.value.roles;
      NamesKnown(left, s.lookup) && NamesKnown(right, s.lookup) && s.loaded == st.loaded &&
      (leftward == [] <==> ro.leftward.None?) && (rightward == [] <==> ro.rightward.None?) &&
      (leftward != [] ==> Lower(leftward) in s.lookup && ro.leftward == Some(s.lookup[Lower(leftward)])) &&
      (rightward != [] ==> Lower(rightward) in s.lookup && ro.rightward == Some(s.lookup[Lower(rightward)])) &&
      ro.linkLeft == Linked(manage, leftward) && ro.linkRight == Linked(manage, rightward)
  {
    EndpointsValid(st, left, right);
    var (s2, e) := Endpoints(st, left, right);
    ResolveRolesNames(s2, e.value.0, e.value.1, leftward, rightward, manage);
  }

  /** The list stored at node `x` under the relation named `rel` (empty when there is none). */
  function StoredUnder(st: RegState, x: NodeId, rel: string): seq<NodeTuple> {
    if x in st.adj && Lower(rel) in st.lookup then ListAt(st.adj[x], st.lookup[Lower(rel)]) else []
  }

  lemma ConnectsIsLower()
    ensures Lower(Connects) == Connects
  {
    assert forall i :: 0 <= i < |Connects| ==> !('A' <= Connects[i] <= 'Z');
  }

  /**
   * relate (nodeRegistry.py:136-151): for every normalised left node l and
   * right node r, l holds r under `rightward`, r holds l under `leftward`,
   * and each auto-linked relation node holds its side's node under
   * `_connects`. This holds with accumulation on or off: when off, the append
   * is skipped only because the node is already there.
   */
  lemma RelatePlaces(st: RegState, left: seq<Item>, right: seq<Item>, leftward: string, rightward: string, accumulate: bool, manage: bool, i: nat, j: nat)
    requires Valid(st) && ItemsIn(left, |st.names|) && ItemsIn(right, |st.names|)
    requires Prepare(st, left, right, leftward, rightward, manage).1.Ok?
    requires i < |Prepare(st, left, right, leftward, rightward, manage).1.value.ls|
    requires j < |Prepare(st, left, right, leftward, rightward, manage).1.value.rs|
    ensures var s := RelateSpec(st, left, right, leftward, rightward, accumulate, manage).0;
      var l := Prepare(st, left, right, leftward, rightward, manage).1.value.ls[i];
      var r := Prepare(st, left, right, leftward, rightward, manage).1.value.rs[j];
      (rightward != [] ==> ContainsNode(StoredUnder(s, l.node, rightward), r.node)) &&
      (leftward != [] ==> ContainsNode(StoredUnder(s, r.node, leftward), l.node)) &&
      (Linked(manage, rightward) ==>
         Lower(rightward) in s.lookup && ContainsNode(StoredUnder(s, s.lookup[Lower(rightward)], Connects), r.node)) &&
      (Linked(manage, leftward) ==>
         Lower(leftward) in s.lookup && ContainsNode(StoredUnder(s, s.lookup[Lower(leftward)], Connects), l.node))
  {
    PrepareValid(st, left, right, leftward, rightward, manage);
    RelateCreates(st, left, right, leftward, rightward, manage);
    PrepareConnects(st, left, right, leftward, rightward, manage);
    var sp := Prepare(st, left, right, leftward, rightward, manage);
    PlacedAfterPrepare(sp.0, sp.1.value, leftward, rightward, accumulate, manage, i, j);
  }

  /** The `_connects` node of a successful preparation is the node of that name. */
  lemma PrepareConnects(st: RegState, left: seq<Item>, right: seq<Item>, leftward: string, rightward: string, manage: bool)
    requires Prepare(st, left, right, leftward, rightward, manage).1.Ok?
    ensures var sp := Prepare(st, left, right, leftward, rightward, manage);
      var pr := sp.1.value;
      (pr.roles.linkLeft && pr.ls != []) || (pr.roles.linkRight && pr.ls != [] && pr.rs != []) ==>
        Lower(Connects) in sp.0.lookup && sp.0.lookup[Lower(Connects)] == pr.roles.connects
  {
    var e := Endpoints(st, left, right);
    ResolveRolesConnects(e.0, e.1.value.0, e.1.value.1, leftward, rightward, manage);
  }

  /** The placement of RelatePlaces, stated over the prepared registry and endpoints. */
  lemma PlacedAfterPrepare(s0: RegState, pr: Prep, leftward: string, rightward: string, accumulate: bool, manage: bool, i: nat, j: nat)
    requires Valid(s0) && NodesBelow(pr.ls, |s0.names|) && NodesBelow(pr.rs, |s0.names|)
    requires i < |pr.ls| && j < |pr.rs|
    requires (leftward == [] <==> pr.roles.leftward.None?) && (rightward == [] <==> pr.roles.rightward.None?)
    requires leftward != [] ==> Lower(leftward) in s0.lookup && pr.roles.leftward == Some(s0.lookup[Lower(leftward)])
    requires rightward != [] ==> Lower(rightward) in s0.lookup && pr.roles.rightward == Some(s0.lookup[Lower(rightward)])
    requires pr.roles.linkLeft == Linked(manage, leftward) && pr.roles.linkRight == Linked(manage, rightward)
    requires (pr.roles.linkLeft && pr.ls != []) || (pr.roles.linkRight && pr.ls != [] && pr.rs != []) ==>
      Lower(Connects) in s0.lookup && s0.lookup[Lower(Connects)] == pr.roles.connects
    ensures var s := s0.(adj := Apply(s0.adj, Plan(pr.ls, pr.rs, pr.roles), accumulate));
      var l := pr.ls[i];
      var r := pr.rs[j];
      (rightward != [] ==> ContainsNode(StoredUnder(s, l.node, rightward), r.node)) &&
      (leftward != [] ==> ContainsNode(StoredUnder(s, r.node, leftward), l.node)) &&
      (Linked(manage, rightward) ==>
         Lower(rightward) in s.lookup && ContainsNode(StoredUnder(s, s.lookup[Lower(rightward)], Connects), r.node)) &&
      (Linked(manage, leftward) ==>
         Lower(leftward) in s.lookup && ContainsNode(StoredUnder(s, s.lookup[Lower(leftward)], Connects), l.node))
  {
    var ro := pr.roles;
    assert pr.ls[i].node in s0.adj && pr.rs[j].node in s0.adj;
    PlanHolds(s0.adj, pr.ls, pr.rs, ro, accumulate, i, j);
    ConnectsIsLower();
  }

  /** With accumulation on, the entries are appended with their weights. */
  lemma RelateAppends(st: RegState, left: seq<Item>, right: seq<Item>, leftward: string, rightward: string, manage: bool, i: nat, j: nat)
    requires Valid(st) && ItemsIn(left, |st.names|) && ItemsIn(right, |st.names|)
    requires Prepare(st, left, right, leftward, rightward, manage).1.Ok?
    requires i < |Prepare(st, left, right, leftward, rightward, manage).1.value.ls|
    requires j < |Prepare(st, left, right, leftward, rightward, manage).1.value.rs|
    ensures var s := RelateSpec(st, left, right, leftward, rightward, true, manage).0;
      var l := Prepare(st, left, right, leftward, rightward, manage).1.value.ls[i];
      var r := Prepare(st, left, right, leftward, rightward, manage).1.value.rs[j];
      (rightward != [] ==> r in StoredUnder(s, l.node, rightward)) &&
      (leftward != [] ==> l in StoredUnder(s, r.node, leftward))
  {
    PrepareValid(st, left, right, leftward, rightward, manage);
    EndpointsValid(st, left, right);
    var (s2, e) := Endpoints(st, left, right);
    ResolveRolesNames(s2, e.value.0, e.value.1, leftward, rightward, manage);
    var (s0, p) := Prepare(st, left, right, leftward, rightward, manage);
    PlanAppends(s0.adj, p.value.ls, p.value.rs, p.value.roles, i, j);
  }

  /**
   * biject (graph.py:31-32) relates both ways under one relation: each left
   * node holds each right node, and each right node each left node.
   */
  lemma BijectSymmetric(st: RegState, left: seq<Item>, right: seq<Item>, rel: string, accumulate: bool, manage: bool, i: nat, j: nat)
    requires Valid(st) && ItemsIn(left, |st.names|) && ItemsIn(right, |st.names|) && rel != []
    requires Prepare(st, left, right, rel, rel, manage).1.Ok?
    requires i < |Prepare(st, left, right, rel, rel, manage).1.value.ls|
    requires j < |Prepare(st, left, right, rel, rel, manage).1.value.rs|
    ensures var s := RelateSpec(st, left, right, rel, rel, accumulate, manage).0;
      var l := Prepare(st, left, right, rel, rel, manage).1.value.ls[i];
      var r := Prepare(st, left, right, rel, rel, manage).1.value.rs[j];
      ContainsNode(StoredUnder(s, l.node, rel), r.node) && ContainsNode(StoredUnder(s, r.node, rel), l.node)
  {
    RelatePlaces(st, left, right, rel, rel, accumulate, manage, i, j);
  }

  /**
   * direct (graph.py:34-35) is one-way: it writes only at the right nodes
   * (under `rel`) and at the relation node (under `_connects`); every other
   * node, left nodes included, keeps its relations.
   */
  lemma DirectOneWay(st: RegState, left: seq<Item>, right: seq<Item>, rel: string, accumulate: bool, manage: bool, x: NodeId)
    requires Valid(st) && ItemsIn(left, |st.names|) && ItemsIn(right, |st.names|)
    requires Prepare(st, left, right, rel, "", manage).1.Ok?
    requires x in st.adj && x !in NodesOf(Prepare(st, left, right, rel, "", manage).1.value.rs)
    ensures var s := RelateSpec(st, left, right, rel, "", accumulate, manage).0;
      x in s.adj && (rel != [] ==> Lower(rel) in s.lookup) &&
      ((rel != [] && x == s.lookup[Lower(rel)]) || s.adj[x] == st.adj[x])
  {
    PrepareValid(st, left, right, rel, "", manage);
    EndpointsValid(st, left, right);
    var (s2, e) := Endpoints(st, left, right);
    ResolveRolesNames(s2, e.value.0, e.value.1, rel, "", manage);
    var (s0, p) := Prepare(st, left, right, rel, "", manage);
    var ro := p.value.roles;
    PlanOneWay(p.value.ls, p.value.rs, ro);
    if !(rel != [] && x == s0.lookup[Lower(rel)]) {
      ApplyUntouched(s0.adj, Plan(p.value.ls, p.value.rs, ro), x, accumulate);
    }
  }

  /**
   * The auto-link relate writes for a left node l, the nested call
   * relate(leftward, l, "", "_connects") (nodeRegistry.py:137-139), is exactly
   * one append of (l, 1) to the relation node's `_connects` list: `_connects`
   * starts with '_' and so is never linked itself.
   */
  lemma NestedLinkIsOneEdge(st: RegState, x: NodeId, n: NodeId, accumulate: bool, manage: bool)
    requires Connects in st.lookup
    ensures RelateSpec(st, [Bare(Handle(x))], [Bare(Handle(n))], "", Connects, accumulate, manage) ==
      (st.(adj := Deliver(st.adj, Edge(x, st.lookup[Connects], NodeTuple(n, 1), LeftLink), accumulate)), Ok(()))
  {
    var c := st.lookup[Connects];
    var ro := Roles(None, Some(c), false, false, 0);
    HandleEndpoints(st, x, n);
    ConnectsRoles(st, [NodeTuple(x, 1)], [NodeTuple(n, 1)], manage);
    assert Prepare(st, [Bare(Handle(x))], [Bare(Handle(n))], "", Connects, manage) ==
      (st, Ok(Prep([NodeTuple(x, 1)], [NodeTuple(n, 1)], ro)));
    OnePairPlan(x, n, ro, st.adj, accumulate);
  }

  /** With only a rightward relation and no auto-link, one pair is one forward edge. */
  lemma OnePairPlan(x: NodeId, n: NodeId, ro: Roles, adj: Adj, accumulate: bool)
    requires ro.leftward.None? && ro.rightward.Some? && !ro.linkRight
    ensures Apply(adj, Plan([NodeTuple(x, 1)], [NodeTuple(n, 1)], ro), accumulate) ==
      Deliver(adj, Edge(x, ro.rightward.value, NodeTuple(n, 1), LeftLink), accumulate)
  {
    var e := Edge(x, ro.rightward.value, NodeTuple(n, 1), Forward);
    assert Plan([NodeTuple(x, 1)], [NodeTuple(n, 1)], ro) == [e] by {
      assert [NodeTuple(x, 1)][..0] == [] && [NodeTuple(n, 1)][..0] == [];
      assert Cell(NodeTuple(x, 1), NodeTuple(n, 1), ro) == [e];
      assert Row(NodeTuple(x, 1), [NodeTuple(n, 1)], ro) == [e];
      assert Head(NodeTuple(x, 1), ro) == [];
    }
    ApplySnoc(adj, [], e, accumulate);
    assert [] + [e] == [e];
  }

  lemma TuplateCreateHandle(st: RegState, x: NodeId)
    ensures TuplateCreate(st, [Bare(Handle(x))]) == (st, Ok([NodeTuple(x, 1)]))
  {
    assert [Bare(Handle(x))][..0] == [];
    assert NormalizeCreate(st, Bare(Handle(x))) == (st, Ok([NodeTuple(x, 1)]));
    assert [] + [NodeTuple(x, 1)] == [NodeTuple(x, 1)];
  }

  lemma HandleEndpoints(st: RegState, x: NodeId, n: NodeId)
    ensures Endpoints(st, [Bare(Handle(x))], [Bare(Handle(n))]) == (st, Ok(([NodeTuple(x, 1)], [NodeTuple(n, 1)])))
  {
    TuplateCreateHandle(st, x);
    TuplateCreateHandle(st, n);
  }

  lemma ConnectsRoles(st: RegState, ls: seq<NodeTuple>, rs: seq<NodeTuple>, manage: bool)
    requires Connects in st.lookup
    ensures ResolveRoles(st, ls, rs, "", Connects, manage) == (st, Roles(None, Some(st.lookup[Connects]), false, false, 0))
  {
    ConnectsIsLower();
    assert !Linked(manage, Connects);
  }
}
