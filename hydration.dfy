/**
 * DBC.load (dbc.py:119-167): the names that are not yet loaded are looked up
 * in the store, every stored relationship whose left node is one of them is
 * related into the registry, and the requested nodes are marked loaded.
 *
 * The store is a value: NODES as a sequence of names indexed by ID (the
 * unique index on NAME makes them distinct), RELATIONSHIPS as a sequence of
 * rows of IDs. Rows come back in stored order.
 */
module Hydration {
  import opened Wrappers
  import opened Seqs
  import opened Nodes
  import opened Adjacency
  import opened RegistryState
  import Common

  /** One RELATIONSHIPS row: NODELEFT, NODERIGHT, RELATION and WEIGHT. */
  datatype StoredRow = StoredRow(left: nat, right: nat, relation: nat, weight: int)

  datatype Store = Store(names: seq<string>, rows: seq<StoredRow>)

  /** The unique index on NODES(NAME). */
  predicate StoreValid(db: Store) {
    Distinct(db.names)
  }

  /** isLoaded of a NodeList (nodes.py:99-113): non-empty and every node loaded. */
  predicate IsLoaded(st: RegState, ids: seq<NodeId>) {
    ids != [] && forall i :: 0 <= i < |ids| ==> ids[i] in st.loaded
  }

  /** Name `n` resolves to a node whose loaded flag is set. */
  predicate Loaded(st: RegState, n: string) {
    Lower(n) in st.lookup && st.lookup[Lower(n)] in st.loaded
  }

  lemma LookupOne(st: RegState, n: string)
    ensures LookupIds(st, [n]) == if Lower(n) in st.lookup then [st.lookup[Lower(n)]] else []
  {
    assert [n][..0] == [];
  }

  /** `nex` (dbc.py:130): the names whose get(n, load=0) is not loaded, in order. */
  function Pending(st: RegState, names: seq<string>): seq<string> {
    if names == [] then []
    else
      var n := names[|names| - 1];
      Pending(st, names[..|names| - 1]) + (if IsLoaded(st, LookupIds(st, [n])) then [] else [n])
  }

  lemma {:induction false} PendingIff(st: RegState, names: seq<string>, n: string)
    ensures n in Pending(st, names) <==> n in names && !Loaded(st, n)
  {
    if names != [] {
      var p := names[..|names| - 1];
      var x := names[|names| - 1];
      PendingIff(st, p, n);
      LookupOne(st, x);
      assert names == p + [x];
    }
  }

  /** `res` (dbc.py:137-138): the IDs of the stored nodes whose name is pending, in ID order. */
  function StoredIds(db: Store, nex: seq<string>): seq<nat> {
    IdsBelow(db, nex, |db.names|)
  }

  function IdsBelow(db: Store, nex: seq<string>, k: nat): seq<nat>
    requires k <= |db.names|
  {
    if k == 0 then []
    else IdsBelow(db, nex, k - 1) + (if db.names[k - 1] in nex then [k - 1] else [])
  }

  lemma {:induction false} IdsBelowIff(db: Store, nex: seq<string>, k: nat, id: nat)
    requires k <= |db.names|
    ensures id in IdsBelow(db, nex, k) <==> id < k && db.names[id] in nex
  {
    if k > 0 {
      IdsBelowIff(db, nex, k - 1, id);
    }
  }

  /** The rows of the join (dbc.py:143-159): left node among `res`, every ID a stored node. */
  function Fetched(db: Store, res: seq<nat>): seq<StoredRow> {
    FetchedFrom(db, db.rows, res)
  }

  function FetchedFrom(db: Store, rows: seq<StoredRow>, res: seq<nat>): seq<StoredRow> {
    if rows == [] then []
    else
      var r := rows[|rows| - 1];
      FetchedFrom(db, rows[..|rows| - 1], res) +
        (if r.left in res && r.left < |db.names| && r.right < |db.names| && r.relation < |db.names| then [r] else [])
  }

  predicate RowIn(db: Store, r: StoredRow) {
    r.left < |db.names| && r.right < |db.names| && r.relation < |db.names|
  }

  lemma {:induction false} FetchedFromIff(db: Store, rows: seq<StoredRow>, res: seq<nat>, r: StoredRow)
    ensures r in FetchedFrom(db, rows, res) <==> r in rows && r.left in res && RowIn(db, r)
  {
    if rows != [] {
      var p := rows[..|rows| - 1];
      FetchedFromIff(db, p, res, r);
      assert rows == p + [rows[|rows| - 1]];
    }
  }

  /** A row is fetched exactly when it is stored, its IDs are nodes, and its left node's name is pending. */
  lemma FetchedIff(db: Store, nex: seq<string>, r: StoredRow)
    ensures r in Fetched(db, StoredIds(db, nex)) <==> r in db.rows && RowIn(db, r) && db.names[r.left] in nex
  {
    FetchedFromIff(db, db.rows, StoredIds(db, nex), r);
    IdsBelowIff(db, nex, |db.names|, r.left);
  }

  lemma {:induction false} FetchedFromRowsIn(db: Store, rows: seq<StoredRow>, res: seq<nat>)
    ensures forall i :: 0 <= i < |FetchedFrom(db, rows, res)| ==> RowIn(db, FetchedFrom(db, rows, res)[i])
  {
    if rows != [] {
      FetchedFromRowsIn(db, rows[..|rows| - 1], res);
    }
  }

  // ---------------------------------------------------------------------------
  // Relating the fetched rows
  // ---------------------------------------------------------------------------

  /** relate((RGT.NAME, WEIGHT), LFT.NAME, R.NAME, "") (dbc.py:162-163), argument by argument. */
  function RowLeft(db: Store, r: StoredRow): seq<Item>
    requires RowIn(db, r)
  {
    [Pair(Named(db.names[r.right]), Common.Int(r.weight))]
  }

  function RowRight(db: Store, r: StoredRow): seq<Item>
    requires RowIn(db, r)
  {
    [Bare(Named(db.names[r.left]))]
  }

  predicate RowsIn(db: Store, rows: seq<StoredRow>) {
    forall i :: 0 <= i < |rows| ==> RowIn(db, rows[i])
  }

  function RelateRow(st: RegState, db: Store, r: StoredRow, accumulate: bool, manage: bool): RegState
    requires RowIn(db, r)
  {
    RelateSpec(st, RowLeft(db, r), RowRight(db, r), db.names[r.relation], "", accumulate, manage).0
  }

  /** The registry after each row has been related in turn. */
  function FoldRows(st: RegState, db: Store, rows: seq<StoredRow>, accumulate: bool, manage: bool): RegState
    requires RowsIn(db, rows)
  {
    if rows == [] then st
    else RelateRow(FoldRows(st, db, rows[..|rows| - 1], accumulate, manage), db, rows[|rows| - 1], accumulate, manage)
  }

  /**
   * load as written: the query for the rows has one placeholder per pending
   * name but binds one value per stored ID, so sqlite3 refuses it unless
   * every pending name is stored exactly once.
   */
  function LoadAsWritten(st: RegState, db: Store, names: seq<string>, accumulate: bool, manage: bool): (RegState, Result<seq<NodeId>>)
    requires StoreValid(db)
  {
    var nex := Pending(st, names);
    if nex == [] then (st, Ok(LookupIds(st, names)))
    else
      var res := StoredIds(db, nex);
      if res == [] then (st, Ok(LookupIds(st, names)))
      else if |res| != |nex| then (st, Err(BindingError))
      else Hydrated(st, db, names, res, accumulate, manage)
  }

  /** load with the row query's placeholders counted from the IDs it binds. */
  function Load(st: RegState, db: Store, names: seq<string>, accumulate: bool, manage: bool): (RegState, Result<seq<NodeId>>)
    requires StoreValid(db)
  {
    var nex := Pending(st, names);
    if nex == [] then (st, Ok(LookupIds(st, names)))
    else
      var res := StoredIds(db, nex);
      if res == [] then (st, Ok(LookupIds(st, names)))
      else Hydrated(st, db, names, res, accumulate, manage)
  }

  /**
   * The two readings of load differ only where the as-written one raises:
   * whenever it succeeds, and whenever every pending name has exactly one
   * stored ID, both give the same registry and result.
   */
  lemma LoadReadings(st: RegState, db: Store, names: seq<string>, accumulate: bool, manage: bool)
    requires StoreValid(db)
    ensures LoadAsWritten(st, db, names, accumulate, manage).1.Ok? ==>
      LoadAsWritten(st, db, names, accumulate, manage) == Load(st, db, names, accumulate, manage)
    ensures |StoredIds(db, Pending(st, names))| == |Pending(st, names)| ==>
      LoadAsWritten(st, db, names, accumulate, manage) == Load(st, db, names, accumulate, manage)
    ensures LoadAsWritten(st, db, names, accumulate, manage).1.Err? ==>
      LoadAsWritten(st, db, names, accumulate, manage) == (st, Err(BindingError)) &&
      Load(st, db, names, accumulate, manage).1.Ok?
  {
  }

  /** The fetched rows related, then every requested node that exists marked loaded (dbc.py:161-167). */
  function Hydrated(st: RegState, db: Store, names: seq<string>, res: seq<nat>, accumulate: bool, manage: bool): (RegState, Result<seq<NodeId>>) {
    FetchedFromRowsIn(db, db.rows, res);
    var s := FoldRows(st, db, Fetched(db, res), accumulate, manage);
    var s' := s.(loaded := s.loaded + (set id | id in LookupIds(s, names)));
    (s', Ok(LookupIds(s', names)))
  }

  // ---------------------------------------------------------------------------
  // Properties
  // ---------------------------------------------------------------------------

  /** When every requested name is loaded, the store is not consulted and nothing changes. */
  lemma LoadAllLoaded(st: RegState, db: Store, names: seq<string>, accumulate: bool, manage: bool)
    requires StoreValid(db) && forall n :: n in names ==> Loaded(st, n)
    ensures Load(st, db, names, accumulate, manage) == (st, Ok(LookupIds(st, names)))
    ensures LoadAsWritten(st, db, names, accumulate, manage) == (st, Ok(LookupIds(st, names)))
  {
    if Pending(st, names) != [] {
      var n := Pending(st, names)[0];
      PendingIff(st, names, n);
    }
  }

  /** The result of load is always the plain lookup of the names in the new registry. */
  lemma LoadResult(st: RegState, db: Store, names: seq<string>, accumulate: bool, manage: bool)
    requires StoreValid(db)
    ensures var (s, r) := Load(st, db, names, accumulate, manage); r == Ok(LookupIds(s, names))
  {
  }

  /** The registry only grows; relationships are the only thing a row adds. */
  ghost predicate Extends(a: RegState, b: RegState) {
    (forall k :: k in a.lookup ==> k in b.lookup && b.lookup[k] == a.lookup[k]) &&
    (forall x :: x in a.adj ==> x in b.adj) &&
    (forall x, k :: x in a.adj ==> ListAt(a.adj[x], k) <= ListAt(b.adj[x], k)) &&
    |a.names| <= |b.names| && a.loaded <= b.loaded
  }

  lemma ExtendsTrans(a: RegState, b: RegState, c: RegState)
    requires Extends(a, b) && Extends(b, c)
    ensures Extends(a, c)
  {
    forall x, k | x in a.adj ensures ListAt(a.adj[x], k) <= ListAt(c.adj[x], k) {
      assert ListAt(a.adj[x], k) <= ListAt(b.adj[x], k);
    }
  }

  lemma RowValid(st: RegState, db: Store, r: StoredRow, accumulate: bool, manage: bool)
    requires Valid(st) && RowIn(db, r)
    ensures Valid(RelateRow(st, db, r, accumulate, manage)) && Extends(st, RelateRow(st, db, r, accumulate, manage))
    ensures RelateRow(st, db, r, accumulate, manage).loaded == st.loaded
  {
    var left := RowLeft(db, r);
    var right := RowRight(db, r);
    var lw := db.names[r.relation];
    RelateValid(st, left, right, lw, "", accumulate, manage);
    PrepareValid(st, left, right, lw, "", manage);
    var (s0, p) := Prepare(st, left, right, lw, "", manage);
    var s := RelateRow(st, db, r, accumulate, manage);
    if p.Ok? {
      forall x, k | x in st.adj ensures ListAt(st.adj[x], k) <= ListAt(s.adj[x], k) {
        ApplyExtends(s0.adj, Plan(p.value.ls, p.value.rs, p.value.roles), accumulate, x, k);
      }
    }
  }

  lemma {:induction false} FoldRowsValid(st: RegState, db: Store, rows: seq<StoredRow>, accumulate: bool, manage: bool)
    requires Valid(st) && RowsIn(db, rows)
    ensures Valid(FoldRows(st, db, rows, accumulate, manage)) && Extends(st, FoldRows(st, db, rows, accumulate, manage))
    ensures FoldRows(st, db, rows, accumulate, manage).loaded == st.loaded
  {
    if rows != [] {
      var p := rows[..|rows| - 1];
      FoldRowsValid(st, db, p, accumulate, manage);
      var s := FoldRows(st, db, p, accumulate, manage);
      RowValid(s, db, rows[|rows| - 1], accumulate, manage);
      ExtendsTrans(st, s, FoldRows(st, db, rows, accumulate, manage));
    }
  }

  /** The stored relationship a row denotes: LFT holds RGT under R. */
  predicate Holds(st: RegState, db: Store, r: StoredRow)
    requires RowIn(db, r)
  {
    Lower(db.names[r.left]) in st.lookup && Lower(db.names[r.right]) in st.lookup &&
    ContainsNode(StoredUnder(st, st.lookup[Lower(db.names[r.left])], db.names[r.relation]), st.lookup[Lower(db.names[r.right])])
  }

  lemma HoldsExtends(a: RegState, b: RegState, db: Store, r: StoredRow)
    requires Valid(a) && RowIn(db, r) && Holds(a, db, r) && Extends(a, b)
    ensures Holds(b, db, r)
  {
    var x := a.lookup[Lower(db.names[r.left])];
    var rel := db.names[r.relation];
    assert Lower(rel) in a.lookup;
    var l := StoredUnder(a, x, rel);
    var l2 := StoredUnder(b, x, rel);
    assert l <= l2;
    assert l2 == l + l2[|l|..];
    ContainsNodeExtends(l, l2[|l|..], a.lookup[Lower(db.names[r.right])]);
  }

  /** A relationship relate created for a row: the row's relationship holds afterwards. */
  lemma RowHolds(st: RegState, db: Store, r: StoredRow, accumulate: bool, manage: bool)
    requires Valid(st) && RowIn(db, r) && db.names[r.relation] != []
    ensures Holds(RelateRow(st, db, r, accumulate, manage), db, r)
  {
    var left := RowLeft(db, r);
    var right := RowRight(db, r);
    var lw := db.names[r.relation];
    RowPrepared(st, db, r, manage);
    RelatePlaces(st, left, right, lw, "", accumulate, manage, 0, 0);
    RelateOnlyLinks(st, left, right, lw, "", accumulate, manage);
  }

  /** The prepared relate of a row: its right node's entry on the left, its left node's on the right, both named in the registry. */
  lemma RowPrepared(st: RegState, db: Store, r: StoredRow, manage: bool)
    requires Valid(st) && RowIn(db, r)
    ensures var p := Prepare(st, RowLeft(db, r), RowRight(db, r), db.names[r.relation], "", manage);
      p.1.Ok? && Lower(db.names[r.right]) in p.0.lookup && Lower(db.names[r.left]) in p.0.lookup &&
      p.1.value.ls == [NodeTuple(p.0.lookup[Lower(db.names[r.right])], r.weight)] &&
      p.1.value.rs == [NodeTuple(p.0.lookup[Lower(db.names[r.left])], 1)]
  {
    RowEndpoints(st, db, r);
    var s1 := Intern(st, db.names[r.right]).0;
    InternKeeps(s1, db.names[r.left]);
    RowPrepareGrows(st, db, r, manage);
  }

  /** Resolving a row's roles only adds to the registry its endpoints were interned into. */
  lemma RowPrepareGrows(st: RegState, db: Store, r: StoredRow, manage: bool)
    requires Valid(st) && RowIn(db, r)
    ensures Grows(Intern(Intern(st, db.names[r.right]).0, db.names[r.left]).0,
                  Prepare(st, RowLeft(db, r), RowRight(db, r), db.names[r.relation], "", manage).0)
  {
    RowEndpoints(st, db, r);
    var s1 := Intern(st, db.names[r.right]).0;
    InternValid(st, db.names[r.right]);
    InternValid(s1, db.names[r.left]);
    ResolveRolesValid(Intern(s1, db.names[r.left]).0, [NodeTuple(Intern(st, db.names[r.right]).1, r.weight)],
      [NodeTuple(Intern(s1, db.names[r.left]).1, 1)], db.names[r.relation], "", manage);
  }

  /** The endpoints of a row's relate: its right node with the row's weight, its left node with weight 1. */
  lemma RowEndpoints(st: RegState, db: Store, r: StoredRow)
    requires RowIn(db, r)
    ensures var s1 := Intern(st, db.names[r.right]).0;
      var s2 := Intern(s1, db.names[r.left]).0;
      Endpoints(st, RowLeft(db, r), RowRight(db, r)) ==
        (s2, Ok(([NodeTuple(Intern(st, db.names[r.right]).1, r.weight)], [NodeTuple(Intern(s1, db.names[r.left]).1, 1)])))
  {
    TuplateCreatePair(st, db.names[r.right], r.weight);
    TuplateCreateName(Intern(st, db.names[r.right]).0, db.names[r.left]);
  }

  lemma TuplateCreatePair(st: RegState, name: string, w: int)
    ensures TuplateCreate(st, [Pair(Named(name), Common.Int(w))]) == (Intern(st, name).0, Ok([NodeTuple(Intern(st, name).1, w)]))
  {
    var item := Pair(Named(name), Common.Int(w));
    assert [item][..0] == [];
    assert [] + [NodeTuple(Intern(st, name).1, w)] == [NodeTuple(Intern(st, name).1, w)];
  }

  lemma TuplateCreateName(st: RegState, name: string)
    ensures TuplateCreate(st, [Bare(Named(name))]) == (Intern(st, name).0, Ok([NodeTuple(Intern(st, name).1, 1)]))
  {
    var item := Bare(Named(name));
    assert [item][..0] == [];
    assert [] + [NodeTuple(Intern(st, name).1, 1)] == [NodeTuple(Intern(st, name).1, 1)];
  }

  lemma {:induction false} FoldRowsHolds(st: RegState, db: Store, rows: seq<StoredRow>, accumulate: bool, manage: bool, k: nat)
    requires Valid(st) && RowsIn(db, rows) && k < |rows| && db.names[rows[k].relation] != []
    ensures Holds(FoldRows(st, db, rows, accumulate, manage), db, rows[k])
  {
    var p := rows[..|rows| - 1];
    FoldRowsValid(st, db, p, accumulate, manage);
    var s := FoldRows(st, db, p, accumulate, manage);
    if k == |rows| - 1 {
      RowHolds(s, db, rows[k], accumulate, manage);
    } else {
      assert rows[k] == p[k];
      FoldRowsHolds(st, db, p, accumulate, manage, k);
      RowValid(s, db, rows[|rows| - 1], accumulate, manage);
      HoldsExtends(s, FoldRows(st, db, rows, accumulate, manage), db, rows[k]);
    }
  }

  /** load keeps the registry valid and only ever adds to it. */
  lemma LoadValid(st: RegState, db: Store, names: seq<string>, accumulate: bool, manage: bool)
    requires Valid(st) && StoreValid(db)
    ensures Valid(Load(st, db, names, accumulate, manage).0) && Extends(st, Load(st, db, names, accumulate, manage).0)
  {
    var nex := Pending(st, names);
    if nex != [] && StoredIds(db, nex) != [] {
      var res := StoredIds(db, nex);
      FetchedFromRowsIn(db, db.rows, res);
      FoldRowsValid(st, db, Fetched(db, res), accumulate, manage);
      var s := FoldRows(st, db, Fetched(db, res), accumulate, manage);
      var s' := Load(st, db, names, accumulate, manage).0;
      assert s'.loaded == s.loaded + (set id | id in LookupIds(s, names));
      forall id | id in s'.loaded ensures id < |s'.names| {
        if id !in s.loaded {
          assert id in s.lookup.Values;
        }
      }
    }
  }

  /**
   * Hydration: every stored relationship whose left node is a requested,
   * not yet loaded name is in the registry after load, as that node holding
   * the right node under the relation.
   */
  lemma LoadHydrates(st: RegState, db: Store, names: seq<string>, accumulate: bool, manage: bool, r: StoredRow)
    requires Valid(st) && StoreValid(db)
    requires r in db.rows && RowIn(db, r) && db.names[r.relation] != []
    requires db.names[r.left] in names && !Loaded(st, db.names[r.left])
    ensures Holds(Load(st, db, names, accumulate, manage).0, db, r)
  {
    var nex := Pending(st, names);
    PendingIff(st, names, db.names[r.left]);
    var res := StoredIds(db, nex);
    IdsBelowIff(db, nex, |db.names|, r.left);
    FetchedIff(db, nex, r);
    var rows := Fetched(db, res);
    FetchedFromRowsIn(db, db.rows, res);
    var k :| 0 <= k < |rows| && rows[k] == r;
    FoldRowsHolds(st, db, rows, accumulate, manage, k);
  }

  /**
   * Once anything is fetched, every requested name that exists afterwards is
   * loaded (dbc.py:166); when no pending name is stored nothing changes.
   */
  lemma LoadMarks(st: RegState, db: Store, names: seq<string>, accumulate: bool, manage: bool)
    requires StoreValid(db)
    ensures var s := Load(st, db, names, accumulate, manage).0;
      var nex := Pending(st, names);
      (nex != [] && StoredIds(db, nex) != [] ==> forall n :: n in names && Lower(n) in s.lookup ==> Loaded(s, n)) &&
      (StoredIds(db, nex) == [] ==> s == st)
  {
    var nex := Pending(st, names);
    if nex != [] && StoredIds(db, nex) != [] {
      var res := StoredIds(db, nex);
      FetchedFromRowsIn(db, db.rows, res);
      var s := FoldRows(st, db, Fetched(db, res), accumulate, manage);
      var ids := LookupIds(s, names);
      var s' := s.(loaded := s.loaded + (set id | id in ids));
      forall n | n in names && Lower(n) in s'.lookup ensures Loaded(s', n) {
        var id := s.lookup[Lower(n)];
        assert id in ids;
      }
    }
  }

  // ---------------------------------------------------------------------------
  // The placeholder count of the row query
  // ---------------------------------------------------------------------------

  function Empty(): RegState {
    RegState([], map[], map[], {})
  }

  /**
   * As written, loading ["a", "b"] from a store that holds node "a" (related
   * to "x" by "likes") but not "b" raises: one ID is bound to a query with
   * two placeholders. With the placeholders counted from the IDs, "a" is
   * hydrated with its relationship and marked loaded.
   */
  lemma LoadBindingMismatch()
    ensures var db := Store(["a", "x", "likes"], [StoredRow(0, 1, 2, 3)]);
      LoadAsWritten(Empty(), db, ["a", "b"], true, true) == (Empty(), Err(BindingError)) &&
      var s := Load(Empty(), db, ["a", "b"], true, true).0;
      Holds(s, db, StoredRow(0, 1, 2, 3)) && Loaded(s, "a")
  {
    var db := Store(["a", "x", "likes"], [StoredRow(0, 1, 2, 3)]);
    MismatchStoreValid(db);
    MismatchFetch();
    assert Valid(Empty()) by {
      assert AllWellFormed(Empty().adj);
      assert Bounded(Empty().adj, 0);
      assert Empty().adj.Keys == {};
    }
    MismatchCorrected(db);
  }

  /** In the mismatch example both names are pending and only "a" is stored. */
  lemma MismatchFetch()
    ensures Pending(Empty(), ["a", "b"]) == ["a", "b"]
    ensures StoredIds(Store(["a", "x", "likes"], [StoredRow(0, 1, 2, 3)]), ["a", "b"]) == [0]
  {
    PendingIff(Empty(), ["a", "b"], "a");
    PendingIff(Empty(), ["a", "b"], "b");
    LookupOne(Empty(), "a");
    LookupOne(Empty(), "b");
    assert ["a", "b"][..1] == ["a"];
    assert ["a"][..0] == [];
    assert "x" !in ["a", "b"] && "likes" !in ["a", "b"];
  }

  /** The mismatch example's table holds three distinct names. */
  lemma MismatchStoreValid(db: Store)
    requires db == Store(["a", "x", "likes"], [StoredRow(0, 1, 2, 3)])
    ensures StoreValid(db)
  {
    assert db.names[0][0] == 'a' && db.names[1][0] == 'x' && |db.names[0]| == 1 && |db.names[2]| == 5;
  }

  /** The corrected load of the mismatch example relates the stored row and marks "a" loaded. */
  lemma MismatchCorrected(db: Store)
    requires db == Store(["a", "x", "likes"], [StoredRow(0, 1, 2, 3)]) && StoreValid(db)
    requires Valid(Empty()) && Pending(Empty(), ["a", "b"]) == ["a", "b"] && StoredIds(db, ["a", "b"]) == [0]
    ensures var s := Load(Empty(), db, ["a", "b"], true, true).0;
      Holds(s, db, StoredRow(0, 1, 2, 3)) && Loaded(s, "a")
  {
    var r := StoredRow(0, 1, 2, 3);
    assert r in db.rows && RowIn(db, r) && db.names[r.relation] != [];
    assert db.names[r.left] in ["a", "b"] && !Loaded(Empty(), db.names[r.left]);
    LoadRelatesAndMarks(Empty(), db, ["a", "b"], r, Load(Empty(), db, ["a", "b"], true, true).0);
  }

  /** A fetched row's left name ends up related and loaded. */
  lemma LoadRelatesAndMarks(st: RegState, db: Store, names: seq<string>, r: StoredRow, s: RegState)
    requires Valid(st) && StoreValid(db)
    requires r in db.rows && RowIn(db, r) && db.names[r.relation] != []
    requires db.names[r.left] in names && !Loaded(st, db.names[r.left])
    requires Pending(st, names) != [] && StoredIds(db, Pending(st, names)) != []
    requires s == Load(st, db, names, true, true).0
    ensures Holds(s, db, r) && Loaded(s, db.names[r.left])
  {
    LoadHydrates(st, db, names, true, true, r);
    LoadMarks(st, db, names, true, true);
  }

  /** A requested name listed twice is pending twice but stored once: as written this raises too. */
  lemma LoadDuplicateName()
    ensures LoadAsWritten(Empty(), Store(["a"], []), ["a", "a"], true, true) == (Empty(), Err(BindingError))
  {
    DuplicateFetch();
  }

  /** In the duplicate example the name is pending twice and stored once. */
  lemma DuplicateFetch()
    ensures Pending(Empty(), ["a", "a"]) == ["a", "a"]
    ensures StoredIds(Store(["a"], []), ["a", "a"]) == [0]
  {
    LookupOne(Empty(), "a");
    assert ["a", "a"][..1] == ["a"];
    assert ["a"][..0] == [];
  }
}
