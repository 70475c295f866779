/**
 * The value layer of nodes.py: weighted node references (NodeTuple), the
 * normalisation of user arguments into them (tuplate), and the algebra that
 * NodeList applies to its entries: consolidating sort, weight scaling,
 * slicing, limit/exclude and the accumulate-or-skip append.
 *
 * Nodes are identified by their position in the registry's arena.
 */
module Nodes {
  import opened Wrappers
  import opened Seqs
  import Common

  type NodeId = nat

  /** A node paired with an integer weight. */
  datatype NodeTuple = NodeTuple(node: NodeId, weight: int)

  function WeightOf(t: NodeTuple): int {
    t.weight
  }

  function NodeOf(t: NodeTuple): NodeId {
    t.node
  }

  /** NodeTuple.__init__: the weight must be exactly an `int`, anything else raises. */
  function MakeTuple(node: NodeId, weight: Common.Value): (r: Result<NodeTuple>)
    ensures r.Ok? <==> weight.Int?
    ensures r.Ok? ==> r.value.node == node && Common.Int(r.value.weight) == weight
    ensures r.Err? ==> r.error == InvalidType
  {
    var _ :- Common.EnforceType(weight, Common.Type(Common.IntType));
    Ok(NodeTuple(node, weight.i))
  }

  function NodesOf(s: seq<NodeTuple>): (r: seq<NodeId>)
    ensures |r| == |s| && forall i :: 0 <= i < |s| ==> r[i] == s[i].node
  {
    if s == [] then [] else [s[0].node] + NodesOf(s[1..])
  }

  lemma NodesOfAppend(a: seq<NodeTuple>, b: seq<NodeTuple>)
    ensures NodesOf(a + b) == NodesOf(a) + NodesOf(b)
  {
  }

  /** Every entry refers to one of the first `n` nodes. */
  predicate NodesBelow(ts: seq<NodeTuple>, n: nat) {
    forall i :: 0 <= i < |ts| ==> ts[i].node < n
  }

  predicate DistinctNodes(s: seq<NodeTuple>) {
    DistinctBy(s, NodeOf)
  }

  // ---------------------------------------------------------------------------
  // tuplate
  // ---------------------------------------------------------------------------

  /** A node reference in an argument: a name still to resolve, or a Node. */
  datatype Ref = Named(name: string) | Handle(id: NodeId)

  /** One element of an argument that tuplate normalises. */
  datatype Item =
    | Bare(ref: Ref)                                  // a string or a Node: weight 1
    | Pair(ref: Ref, weight: Common.Value)            // a hand-written tuple (x, w)
    | Tuple(ref: Ref, tweight: int)                   // an existing NodeTuple
    | Nested(entries: seq<NodeTuple>, sorted: bool)   // a NodeList
    | Unsupported                                     // any other value

  /** The resolver of a call made without a registry: no name resolves. */
  function NoRegistry(name: string): Option<NodeId> {
    None
  }

  function Deref(ref: Ref, resolve: string -> Option<NodeId>): Option<NodeId> {
    match ref
    case Named(n) => resolve(n)
    case Handle(id) => Some(id)
  }

  /** The entries a NodeList yields when iterated: iteration sorts it first. */
  function Iterated(entries: seq<NodeTuple>, sorted: bool): seq<NodeTuple> {
    if sorted then entries else Consolidate(entries)
  }

  /** Whether normalising `item` raises: a resolvable tuple whose weight is not an int. */
  predicate BadWeight(item: Item, resolve: string -> Option<NodeId>) {
    item.Pair? && Deref(item.ref, resolve).Some? && !item.weight.Int?
  }

  /** The NodeTuples one item contributes (`p` of tuplate followed by the flattening). */
  function Normalize(item: Item, resolve: string -> Option<NodeId>): (r: Result<seq<NodeTuple>>)
    ensures r.Err? <==> BadWeight(item, resolve)
    ensures r.Err? ==> r.error == InvalidType
  {
    match item
    case Bare(ref) =>
      Ok(if Deref(ref, resolve).Some? then [NodeTuple(Deref(ref, resolve).value, 1)] else [])
    case Pair(ref, w) =>
      if Deref(ref, resolve).None? then Ok([])
      else
        var t :- MakeTuple(Deref(ref, resolve).value, w);
        Ok([t])
    case Tuple(ref, w) =>
      Ok(if Deref(ref, resolve).Some? then [NodeTuple(Deref(ref, resolve).value, w)] else [])
    case Nested(es, s) => Ok(Iterated(es, s))
    case Unsupported => Ok([])
  }

  /**
   * tuplate (nodes.py:298-339): every item normalised in order, unresolvable
   * names and unsupported values dropped, nested NodeLists spliced in.
   */
  function Tuplate(items: seq<Item>, resolve: string -> Option<NodeId>): (r: Result<seq<NodeTuple>>)
    ensures r.Err? <==> exists i :: 0 <= i < |items| && BadWeight(items[i], resolve)
    ensures r.Err? ==> r.error == InvalidType
  {
    if items == [] then Ok([])
    else
      var h :- Normalize(items[0], resolve);
      var t :- Tuplate(items[1..], resolve);
      assert forall i :: 1 <= i < |items| ==> items[i] == items[1..][i - 1];
      Ok(h + t)
  }

  /** The first item is normalised first, then the rest; the first error wins. */
  lemma TuplateCons(items: seq<Item>, resolve: string -> Option<NodeId>)
    requires items != []
    ensures Tuplate(items, resolve) ==
      if Normalize(items[0], resolve).Err? then Err(InvalidType)
      else if Tuplate(items[1..], resolve).Err? then Err(InvalidType)
      else Ok(Normalize(items[0], resolve).value + Tuplate(items[1..], resolve).value)
  {
  }

  /** The law of TuplateSnoc for one list of items. */
  ghost predicate SnocLaw(items: seq<Item>, x: Item, resolve: string -> Option<NodeId>) {
    Tuplate(items + [x], resolve) ==
      if Tuplate(items, resolve).Err? then Err(InvalidType)
      else if Normalize(x, resolve).Err? then Err(InvalidType)
      else Ok(Tuplate(items, resolve).value + Normalize(x, resolve).value)
  }

  lemma SnocLawNil(x: Item, resolve: string -> Option<NodeId>)
    ensures SnocLaw([], x, resolve)
  {
    assert [] + [x] == [x];
    TuplateSingle(x, resolve);
    var n := Normalize(x, resolve);
    if n.Ok? {
      assert [] + n.value == n.value;
    } else {
      assert n == Err(InvalidType);
    }
  }

  lemma SnocLawCons(items: seq<Item>, x: Item, resolve: string -> Option<NodeId>)
    requires items != [] && SnocLaw(items[1..], x, resolve)
    ensures SnocLaw(items, x, resolve)
  {
    var ys := items + [x];
    assert ys[0] == items[0];
    assert ys[1..] == items[1..] + [x];
    TuplateCons(items, resolve);
    TuplateCons(ys, resolve);
    SnocCombine(Normalize(items[0], resolve), Tuplate(items[1..], resolve), Normalize(x, resolve),
      Tuplate(items, resolve), Tuplate(ys[1..], resolve), Tuplate(ys, resolve));
  }

  /** The error and concatenation bookkeeping of SnocLawCons, on plain results. */
  lemma SnocCombine(h: Result<seq<NodeTuple>>, t: Result<seq<NodeTuple>>, n: Result<seq<NodeTuple>>,
                    whole: Result<seq<NodeTuple>>, tail: Result<seq<NodeTuple>>, longer: Result<seq<NodeTuple>>)
    requires whole == if h.Err? then Err(InvalidType) else if t.Err? then Err(InvalidType) else Ok(h.value + t.value)
    requires tail == if t.Err? then Err(InvalidType) else if n.Err? then Err(InvalidType) else Ok(t.value + n.value)
    requires longer == if h.Err? then Err(InvalidType) else if tail.Err? then Err(InvalidType) else Ok(h.value + tail.value)
    ensures longer == if whole.Err? then Err(InvalidType) else if n.Err? then Err(InvalidType) else Ok(whole.value + n.value)
  {
    if whole.Ok? && n.Ok? {
      assert h.value + (t.value + n.value) == (h.value + t.value) + n.value;
    }
  }

  /** Normalising one more item: the first error wins, otherwise the tuples are appended. */
  lemma {:induction false} TuplateSnoc(items: seq<Item>, x: Item, resolve: string -> Option<NodeId>)
    ensures Tuplate(items + [x], resolve) ==
      if Tuplate(items, resolve).Err? then Err(InvalidType)
      else if Normalize(x, resolve).Err? then Err(InvalidType)
      else Ok(Tuplate(items, resolve).value + Normalize(x, resolve).value)
  {
    if items == [] {
      SnocLawNil(x, resolve);
    } else {
      TuplateSnoc(items[1..], x, resolve);
      SnocLawCons(items, x, resolve);
    }
  }

  /** A single argument is normalised on its own. */
  lemma TuplateSingle(item: Item, resolve: string -> Option<NodeId>)
    ensures Tuplate([item], resolve) == Normalize(item, resolve)
  {
    assert [item][1..] == [];
    if Normalize(item, resolve).Ok? {
      assert Normalize(item, resolve).value + [] == Normalize(item, resolve).value;
    }
  }

  /** Items that name nothing by string: what the engine itself passes to append. */
  predicate Unnamed(items: seq<Item>) {
    forall i :: 0 <= i < |items| ==> !(items[i].Bare? || items[i].Pair? || items[i].Tuple?) || items[i].ref.Handle?
  }

  /** Without names to resolve, the resolver does not matter. */
  lemma {:induction false} TuplateUnnamed(items: seq<Item>, r1: string -> Option<NodeId>, r2: string -> Option<NodeId>)
    requires Unnamed(items)
    ensures Tuplate(items, r1) == Tuplate(items, r2)
  {
    if items != [] {
      assert Unnamed(items[1..]) by {
        forall i | 0 <= i < |items[1..]| ensures !(items[1..][i].Bare? || items[1..][i].Pair? || items[1..][i].Tuple?) || items[1..][i].ref.Handle? {
          assert items[1..][i] == items[i + 1];
        }
      }
      TuplateUnnamed(items[1..], r1, r2);
    }
  }

  /** Bare names and Nodes weigh 1; a tuple's weight is taken from its second component. */
  lemma TuplateWeights(id: NodeId, w: int, resolve: string -> Option<NodeId>)
    ensures Tuplate([Bare(Handle(id))], resolve) == Ok([NodeTuple(id, 1)])
    ensures Tuplate([Pair(Handle(id), Common.Int(w))], resolve) == Ok([NodeTuple(id, w)])
    ensures Tuplate([Pair(Handle(id), Common.Bool(true))], resolve) == Err(InvalidType)
  {
    TuplateSingle(Bare(Handle(id)), resolve);
    TuplateSingle(Pair(Handle(id), Common.Int(w)), resolve);
    TuplateSingle(Pair(Handle(id), Common.Bool(true)), resolve);
  }

  // ---------------------------------------------------------------------------
  // sort: consolidation
  // ---------------------------------------------------------------------------

  /** The summed weight of the entries for node `n`. */
  function SumOf(s: seq<NodeTuple>, n: NodeId): int {
    if s == [] then 0 else (if s[0].node == n then s[0].weight else 0) + SumOf(s[1..], n)
  }

  function Total(s: seq<NodeTuple>): int {
    if s == [] then 0 else s[0].weight + Total(s[1..])
  }

  lemma {:induction false} SumOfAppend(a: seq<NodeTuple>, b: seq<NodeTuple>, n: NodeId)
    ensures SumOf(a + b, n) == SumOf(a, n) + SumOf(b, n)
  {
    if a == [] {
      assert a + b == b;
    } else {
      assert (a + b)[1..] == a[1..] + b;
      SumOfAppend(a[1..], b, n);
    }
  }

  lemma {:induction false} TotalAppend(a: seq<NodeTuple>, b: seq<NodeTuple>)
    ensures Total(a + b) == Total(a) + Total(b)
  {
    if a == [] {
      assert a + b == b;
    } else {
      assert (a + b)[1..] == a[1..] + b;
      TotalAppend(a[1..], b);
    }
  }

  lemma {:induction false} SumOfAbsent(s: seq<NodeTuple>, n: NodeId)
    requires n !in NodesOf(s)
    ensures SumOf(s, n) == 0
  {
    if s != [] {
      assert NodesOf(s[1..]) == NodesOf(s)[1..];
      SumOfAbsent(s[1..], n);
    }
  }

  /** In a list without duplicates a node's summed weight is its one entry's weight. */
  lemma {:induction false} SumOfUnique(s: seq<NodeTuple>, i: nat)
    requires DistinctNodes(s) && i < |s|
    ensures SumOf(s, s[i].node) == s[i].weight
  {
    var rest := s[1..];
    assert DistinctNodes(rest) by {
      forall a, b | 0 <= a < b < |rest| ensures NodeOf(rest[a]) != NodeOf(rest[b]) {
        assert rest[a] == s[a + 1] && rest[b] == s[b + 1];
      }
    }
    if i == 0 {
      assert s[0].node !in NodesOf(rest) by {
        forall k | 0 <= k < |rest| ensures rest[k].node != s[0].node {
          assert rest[k] == s[k + 1];
        }
      }
      SumOfAbsent(rest, s[0].node);
    } else {
      assert rest[i - 1] == s[i];
      assert s[0].node != s[i].node by {
        assert NodeOf(s[0]) != NodeOf(s[i]);
      }
      SumOfUnique(rest, i - 1);
    }
  }

  /** One entry per key, carrying the summed weight of that key in `s`. */
  function Tally(keys: seq<NodeId>, s: seq<NodeTuple>): (r: seq<NodeTuple>)
    ensures |r| == |keys|
    ensures forall i :: 0 <= i < |keys| ==> r[i] == NodeTuple(keys[i], SumOf(s, keys[i]))
  {
    if keys == [] then [] else [NodeTuple(keys[0], SumOf(s, keys[0]))] + Tally(keys[1..], s)
  }

  /**
   * The dictionary that sort builds: one entry per node, in order of first
   * occurrence, with the summed weight.
   */
  function Accumulated(s: seq<NodeTuple>): seq<NodeTuple> {
    Tally(Dedup(NodesOf(s)), s)
  }

  /** NodeList.sort (nodes.py:79-94): consolidate, then stable sort by weight, highest first. */
  function Consolidate(s: seq<NodeTuple>): seq<NodeTuple> {
    SortDesc(Accumulated(s), WeightOf)
  }

  /** The dictionary of sort after the tuples `p`: its keys in insertion order and its sums. */
  ghost predicate Tallied(p: seq<NodeTuple>, keys: seq<NodeId>, reg: map<NodeId, int>) {
    keys == Dedup(NodesOf(p)) &&
    (forall k :: k in reg <==> k in keys) &&
    (forall k :: k in reg ==> reg[k] == SumOf(p, k))
  }

  /** One more tuple: its node joins the dict-ordered keys if it is new. */
  lemma DedupSnoc(p: seq<NodeTuple>)
    requires p != []
    ensures var q, t := p[..|p| - 1], p[|p| - 1];
      Dedup(NodesOf(p)) == Dedup(NodesOf(q)) + (if t.node in NodesOf(q) then [] else [t.node])
  {
    var q, t := p[..|p| - 1], p[|p| - 1];
    assert p == q + [t];
    NodesOfAppend(q, [t]);
    var ns := NodesOf(p);
    assert ns[..|ns| - 1] == NodesOf(q);
  }

  /** One more tuple: its weight joins its node's sum. */
  lemma SumOfSnoc(p: seq<NodeTuple>, k: NodeId)
    requires p != []
    ensures SumOf(p, k) == SumOf(p[..|p| - 1], k) + (if p[|p| - 1].node == k then p[|p| - 1].weight else 0)
  {
    assert p == p[..|p| - 1] + [p[|p| - 1]];
    SumOfAppend(p[..|p| - 1], [p[|p| - 1]], k);
  }

  /** The sums of the dictionary after one more tuple. */
  lemma TalliedSums(p: seq<NodeTuple>, reg: map<NodeId, int>, reg2: map<NodeId, int>)
    requires p != []
    requires forall k :: k in reg ==> reg[k] == SumOf(p[..|p| - 1], k)
    requires p[|p| - 1].node !in reg ==> p[|p| - 1].node !in NodesOf(p[..|p| - 1])
    requires var t := p[|p| - 1];
      reg2 == reg[t.node := (if t.node in reg then reg[t.node] else 0) + t.weight]
    ensures forall k :: k in reg2 ==> reg2[k] == SumOf(p, k)
  {
    var q, t := p[..|p| - 1], p[|p| - 1];
    if t.node !in reg {
      SumOfAbsent(q, t.node);
    }
    forall k | k in reg2 ensures reg2[k] == SumOf(p, k) {
      SumOfSnoc(p, k);
      if k != t.node {
        assert reg2[k] == reg[k];
      }
    }
  }

  /** One pass of the dictionary loop (nodes.py:87-91) keeps the dictionary in step with the tuples seen. */
  lemma TalliedNext(p: seq<NodeTuple>, keys: seq<NodeId>, reg: map<NodeId, int>, keys2: seq<NodeId>, reg2: map<NodeId, int>)
    requires p != [] && Tallied(p[..|p| - 1], keys, reg)
    requires var t := p[|p| - 1];
      keys2 == (if t.node in reg then keys else keys + [t.node]) &&
      reg2 == reg[t.node := (if t.node in reg then reg[t.node] else 0) + t.weight]
    ensures Tallied(p, keys2, reg2)
  {
    var q, t := p[..|p| - 1], p[|p| - 1];
    DedupSnoc(p);
    assert t.node in reg <==> t.node in NodesOf(q);
    assert keys2 == Dedup(NodesOf(p));
    forall k ensures k in reg2 <==> k in keys2 {
    }
    TalliedSums(p, reg, reg2);
  }

  /** The dictionary's entries, listed in key order (nodes.py:92). */
  function Entries(keys: seq<NodeId>, reg: map<NodeId, int>): seq<NodeTuple>
    requires forall k :: k in keys ==> k in reg
  {
    if keys == [] then [] else [NodeTuple(keys[0], reg[keys[0]])] + Entries(keys[1..], reg)
  }

  /** A dictionary holding every key's sum lists the tuples Tally gives. */
  lemma {:induction false} EntriesTally(s: seq<NodeTuple>, keys: seq<NodeId>, reg: map<NodeId, int>)
    requires forall k :: k in keys ==> k in reg && reg[k] == SumOf(s, k)
    ensures Entries(keys, reg) == Tally(keys, s)
  {
    if keys != [] {
      EntriesTally(s, keys[1..], reg);
    }
  }

  /** The dictionary's keys after the tuples `p`, in insertion order. */
  function DictKeys(p: seq<NodeTuple>): seq<NodeId> {
    if p == [] then []
    else
      var q := p[..|p| - 1];
      var t := p[|p| - 1];
      if t.node in DictSums(q) then DictKeys(q) else DictKeys(q) + [t.node]
  }

  /** The dictionary's sums after the tuples `p`. */
  function DictSums(p: seq<NodeTuple>): map<NodeId, int> {
    if p == [] then map[]
    else
      var q := p[..|p| - 1];
      var t := p[|p| - 1];
      var m := DictSums(q);
      m[t.node := (if t.node in m then m[t.node] else 0) + t.weight]
  }

  /** One more tuple: the dictionary gains its node as a key if new, and its weight. */
  lemma DictStep(p: seq<NodeTuple>, q: seq<NodeTuple>, t: NodeTuple)
    requires p != [] && q == p[..|p| - 1] && t == p[|p| - 1]
    ensures DictKeys(p) == (if t.node in DictSums(q) then DictKeys(q) else DictKeys(q) + [t.node])
    ensures DictSums(p) == DictSums(q)[t.node := (if t.node in DictSums(q) then DictSums(q)[t.node] else 0) + t.weight]
  {
  }

  /** The dictionary built by the loop keys each node once, in first-occurrence order, with its summed weight. */
  lemma {:induction false} DictTallied(p: seq<NodeTuple>)
    ensures Tallied(p, DictKeys(p), DictSums(p))
  {
    if p == [] {
      assert NodesOf(p) == [];
    } else {
      var q := p[..|p| - 1];
      DictTallied(q);
      DictStep(p, q, p[|p| - 1]);
      TalliedNext(p, DictKeys(q), DictSums(q), DictKeys(p), DictSums(p));
    }
  }

  /**
   * The loop of sort (nodes.py:86-91) that fills the dictionary: a node's
   * first tuple creates its entry, every tuple adds its weight.
   */
  method AccumulateWeights(s: seq<NodeTuple>) returns (acc: seq<NodeTuple>)
    ensures acc == Accumulated(s)
  {
    var keys: seq<NodeId> := [];
    var reg: map<NodeId, int> := map[];
    var i := 0;
    while i < |s|
      invariant 0 <= i <= |s|
      invariant keys == DictKeys(s[..i]) && reg == DictSums(s[..i])
    {
      var t := s[i];
      assert s[..i + 1][..i] == s[..i];
      if t.node !in reg {
        keys := keys + [t.node];
        reg := reg[t.node := 0];
      }
      reg := reg[t.node := reg[t.node] + t.weight];
      i := i + 1;
    }
    assert s[..i] == s;
    DictTallied(s);
    EntriesTally(s, keys, reg);
    acc := Entries(keys, reg);
  }

  lemma AccumulatedNodes(s: seq<NodeTuple>)
    ensures NodesOf(Accumulated(s)) == Dedup(NodesOf(s))
  {
  }

  lemma {:induction false} TallyTotalStep(keys: seq<NodeId>, s: seq<NodeTuple>, t: NodeTuple)
    requires Distinct(keys)
    ensures Total(Tally(keys, s + [t])) == Total(Tally(keys, s)) + (if t.node in keys then t.weight else 0)
  {
    if keys != [] {
      assert Distinct(keys[1..]) by {
        forall a, b | 0 <= a < b < |keys[1..]| ensures keys[1..][a] != keys[1..][b] {
          assert keys[1..][a] == keys[a + 1] && keys[1..][b] == keys[b + 1];
        }
      }
      TallyTotalStep(keys[1..], s, t);
      SumOfAppend(s, [t], keys[0]);
      assert t.node in keys <==> t.node == keys[0] || t.node in keys[1..];
      assert keys[0] !in keys[1..] by {
        forall k | 0 <= k < |keys[1..]| ensures keys[1..][k] != keys[0] {
          assert keys[1..][k] == keys[k + 1];
        }
      }
    }
  }

  lemma {:induction false} TallySnoc(keys: seq<NodeId>, x: NodeId, s: seq<NodeTuple>)
    ensures Tally(keys + [x], s) == Tally(keys, s) + [NodeTuple(x, SumOf(s, x))]
  {
  }

  /** Consolidation keeps the total weight. */
  lemma {:induction false} AccumulatedTotal(s: seq<NodeTuple>)
    ensures Total(Accumulated(s)) == Total(s)
  {
    if s != [] {
      var p := s[..|s| - 1];
      var t := s[|s| - 1];
      assert s == p + [t];
      AccumulatedTotal(p);
      NodesOfAppend(p, [t]);
      var ns := NodesOf(p);
      assert NodesOf(s) == ns + [t.node];
      assert NodesOf(s)[..|s| - 1] == ns;
      var d := Dedup(ns);
      TotalAppend(p, [t]);
      if t.node in ns {
        assert Dedup(NodesOf(s)) == d;
        TallyTotalStep(d, p, t);
      } else {
        assert Dedup(NodesOf(s)) == d + [t.node];
        TallySnoc(d, t.node, s);
        TallyTotalStep(d, p, t);
        SumOfAppend(p, [t], t.node);
        SumOfAbsent(p, t.node);
        TotalAppend(Tally(d, s), [NodeTuple(t.node, SumOf(s, t.node))]);
      }
    }
  }

  lemma {:induction false} InsertDescTotal(x: NodeTuple, s: seq<NodeTuple>)
    ensures Total(InsertDesc(x, s, WeightOf)) == x.weight + Total(s)
  {
    if s != [] && s[0].weight > x.weight {
      InsertDescTotal(x, s[1..]);
    }
  }

  lemma {:induction false} SortDescTotal(s: seq<NodeTuple>)
    ensures Total(SortDesc(s, WeightOf)) == Total(s)
  {
    if s != [] {
      SortDescTotal(s[1..]);
      InsertDescTotal(s[0], SortDesc(s[1..], WeightOf));
    }
  }

  lemma AccumulatedDistinct(s: seq<NodeTuple>)
    ensures DistinctNodes(Accumulated(s))
  {
    var acc := Accumulated(s);
    var d := Dedup(NodesOf(s));
    forall i, j | 0 <= i < j < |acc| ensures NodeOf(acc[i]) != NodeOf(acc[j]) {
      assert acc[i].node == d[i] && acc[j].node == d[j];
    }
  }

  /** sort reorders the consolidated entries: the same entries, in a new order. */
  lemma ConsolidateMember(s: seq<NodeTuple>, t: NodeTuple)
    ensures t in Consolidate(s) <==> t in Accumulated(s)
  {
    var acc := Accumulated(s);
    assert multiset(Consolidate(s)) == multiset(acc);
    assert t in Consolidate(s) <==> t in multiset(Consolidate(s));
    assert t in acc <==> t in multiset(acc);
  }

  lemma ConsolidateNodes(s: seq<NodeTuple>, n: NodeId)
    ensures n in NodesOf(Consolidate(s)) <==> n in NodesOf(s)
  {
    var acc := Accumulated(s);
    var r := Consolidate(s);
    var d := Dedup(NodesOf(s));
    if n in NodesOf(r) {
      var i :| 0 <= i < |r| && NodesOf(r)[i] == n;
      ConsolidateMember(s, r[i]);
      var k :| 0 <= k < |acc| && acc[k] == r[i];
      assert n == d[k];
    }
    if n in NodesOf(s) {
      assert n in d;
      var k :| 0 <= k < |d| && d[k] == n;
      assert acc[k].node == n;
      ConsolidateMember(s, acc[k]);
      var i :| 0 <= i < |r| && r[i] == acc[k];
      assert NodesOf(r)[i] == n;
    }
  }

  lemma ConsolidateWeight(s: seq<NodeTuple>, i: nat)
    requires i < |Consolidate(s)|
    ensures Consolidate(s)[i].weight == SumOf(s, Consolidate(s)[i].node)
  {
    var acc := Accumulated(s);
    var r := Consolidate(s);
    ConsolidateMember(s, r[i]);
    var k :| 0 <= k < |acc| && acc[k] == r[i];
  }

  /**
   * What sort promises: each node once, carrying the sum of its weights; the
   * same nodes as before; highest weight first; equal weights in the order in
   * which their nodes first occurred.
   */
  lemma ConsolidateSpec(s: seq<NodeTuple>)
    ensures DistinctNodes(Consolidate(s))
    ensures forall n :: n in NodesOf(Consolidate(s)) <==> n in NodesOf(s)
    ensures forall i :: 0 <= i < |Consolidate(s)| ==> Consolidate(s)[i].weight == SumOf(s, Consolidate(s)[i].node)
    ensures NonIncreasing(Consolidate(s), WeightOf)
    ensures NodesOf(Accumulated(s)) == Dedup(NodesOf(s))
    ensures forall w :: WithKey(Consolidate(s), WeightOf, w) == WithKey(Accumulated(s), WeightOf, w)
  {
    AccumulatedDistinct(s);
    SortDescDistinctBy(Accumulated(s), WeightOf, NodeOf);
    forall n ensures n in NodesOf(Consolidate(s)) <==> n in NodesOf(s) {
      ConsolidateNodes(s, n);
    }
    forall i | 0 <= i < |Consolidate(s)| ensures Consolidate(s)[i].weight == SumOf(s, Consolidate(s)[i].node) {
      ConsolidateWeight(s, i);
    }
    forall w ensures WithKey(Consolidate(s), WeightOf, w) == WithKey(Accumulated(s), WeightOf, w) {
      SortDescStable(Accumulated(s), WeightOf, w);
    }
  }

  /** sort keeps the total weight of the list. */
  lemma ConsolidateTotal(s: seq<NodeTuple>)
    ensures Total(Consolidate(s)) == Total(s)
  {
    AccumulatedTotal(s);
    SortDescTotal(Accumulated(s));
  }

  /** sort keeps every node's summed weight. */
  lemma ConsolidateSumOf(s: seq<NodeTuple>, n: NodeId)
    ensures SumOf(Consolidate(s), n) == SumOf(s, n)
  {
    var r := Consolidate(s);
    ConsolidateSpec(s);
    if n in NodesOf(r) {
      var i :| 0 <= i < |r| && NodesOf(r)[i] == n;
      SumOfUnique(r, i);
    } else {
      SumOfAbsent(r, n);
      assert n !in NodesOf(s);
      SumOfAbsent(s, n);
    }
  }

  /** A list that is already consolidated and in order is left as it is by sort. */
  lemma ConsolidateFixpoint(r: seq<NodeTuple>)
    requires DistinctNodes(r) && NonIncreasing(r, WeightOf)
    ensures Consolidate(r) == r
  {
    assert Distinct(NodesOf(r)) by {
      forall i, j | 0 <= i < j < |r| ensures NodesOf(r)[i] != NodesOf(r)[j] {
        assert NodeOf(r[i]) != NodeOf(r[j]);
      }
    }
    DedupOfDistinct(NodesOf(r));
    var acc := Accumulated(r);
    forall i | 0 <= i < |r| ensures acc[i] == r[i] {
      SumOfUnique(r, i);
    }
    assert acc == r;
    SortDescOfSorted(r, WeightOf);
  }

  /** Sorting twice is sorting once. */
  lemma ConsolidateIdempotent(s: seq<NodeTuple>)
    ensures Consolidate(Consolidate(s)) == Consolidate(s)
  {
    ConsolidateSpec(s);
    ConsolidateFixpoint(Consolidate(s));
  }

  // ---------------------------------------------------------------------------
  // Scaling
  // ---------------------------------------------------------------------------

  /** Every weight multiplied by `k`. */
  function Scale(s: seq<NodeTuple>, k: int): (r: seq<NodeTuple>)
    ensures |r| == |s| && NodesOf(r) == NodesOf(s)
  {
    if s == [] then [] else [NodeTuple(s[0].node, s[0].weight * k)] + Scale(s[1..], k)
  }

  lemma {:induction false} ScaleAt(s: seq<NodeTuple>, k: int, i: nat)
    requires i < |s|
    ensures Scale(s, k)[i] == NodeTuple(s[i].node, s[i].weight * k)
  {
    if i > 0 {
      ScaleAt(s[1..], k, i - 1);
    }
  }

  lemma {:induction false} ScaleSumOf(s: seq<NodeTuple>, k: int, n: NodeId)
    ensures SumOf(Scale(s, k), n) == k * SumOf(s, n)
  {
    if s != [] {
      ScaleSumOf(s[1..], k, n);
      assert Scale(s, k)[1..] == Scale(s[1..], k);
      var h := if s[0].node == n then s[0].weight else 0;
      assert (if s[0].node == n then s[0].weight * k else 0) == k * h;
      assert k * (h + SumOf(s[1..], n)) == k * h + k * SumOf(s[1..], n);
    }
  }

  lemma {:induction false} ScaleTotal(s: seq<NodeTuple>, k: int)
    ensures Total(Scale(s, k)) == k * Total(s)
  {
    if s != [] {
      ScaleTotal(s[1..], k);
      assert Scale(s, k)[1..] == Scale(s[1..], k);
      assert k * (s[0].weight + Total(s[1..])) == k * s[0].weight + k * Total(s[1..]);
    }
  }

  lemma MulMonotone(a: int, b: int, k: int)
    requires a >= b && k >= 0
    ensures a * k >= b * k
  {
  }

  /** A non-negative factor keeps a list in order; a positive one keeps equal weights together. */
  lemma ScaleKeepsOrder(s: seq<NodeTuple>, k: int)
    requires k >= 0 && NonIncreasing(s, WeightOf)
    ensures NonIncreasing(Scale(s, k), WeightOf)
    ensures DistinctNodes(s) ==> DistinctNodes(Scale(s, k))
  {
    var r := Scale(s, k);
    forall i, j | 0 <= i < j < |r| ensures WeightOf(r[i]) >= WeightOf(r[j]) {
      ScaleAt(s, k, i);
      ScaleAt(s, k, j);
      assert WeightOf(s[i]) >= WeightOf(s[j]);
      MulMonotone(s[i].weight, s[j].weight, k);
    }
    if DistinctNodes(s) {
      forall i, j | 0 <= i < j < |r| ensures NodeOf(r[i]) != NodeOf(r[j]) {
        ScaleAt(s, k, i);
        ScaleAt(s, k, j);
        assert NodeOf(s[i]) != NodeOf(s[j]);
      }
    }
  }

  /**
   * `L * k` (nodes.py:47-51): a consolidated copy of the entries with every
   * weight multiplied by `k`.
   */
  function Product(s: seq<NodeTuple>, k: int): seq<NodeTuple> {
    Scale(Consolidate(s), k)
  }

  /** `L * k` holds each node once, with `k` times its summed weight, and `k` times the total. */
  lemma ProductSpec(s: seq<NodeTuple>, k: int)
    ensures DistinctNodes(Product(s, k))
    ensures forall n :: n in NodesOf(Product(s, k)) <==> n in NodesOf(s)
    ensures forall n :: SumOf(Product(s, k), n) == k * SumOf(s, n)
    ensures Total(Product(s, k)) == k * Total(s)
  {
    var c := Consolidate(s);
    ConsolidateSpec(s);
    var r := Product(s, k);
    forall i, j | 0 <= i < j < |r| ensures NodeOf(r[i]) != NodeOf(r[j]) {
      assert NodesOf(r)[i] == NodesOf(c)[i] && NodesOf(r)[j] == NodesOf(c)[j];
      assert NodeOf(c[i]) != NodeOf(c[j]);
    }
    forall n ensures SumOf(r, n) == k * SumOf(s, n) {
      ScaleSumOf(c, k, n);
      ConsolidateSumOf(s, n);
    }
    ScaleTotal(c, k);
    ConsolidateTotal(s);
  }

  // ---------------------------------------------------------------------------
  // limit / exclude
  // ---------------------------------------------------------------------------

  /** The entries whose node is among `ns`, in order (limit's comprehension). */
  function Keep(s: seq<NodeTuple>, ns: seq<NodeId>): (r: seq<NodeTuple>)
    ensures forall t :: t in r ==> t in s && t.node in ns
  {
    if s == [] then [] else (if s[0].node in ns then [s[0]] else []) + Keep(s[1..], ns)
  }

  /** The entries whose node is not among `ns`, in order (exclude's comprehension). */
  function Drop(s: seq<NodeTuple>, ns: seq<NodeId>): (r: seq<NodeTuple>)
    ensures forall t :: t in r ==> t in s && t.node !in ns
  {
    if s == [] then [] else (if s[0].node in ns then [] else [s[0]]) + Drop(s[1..], ns)
  }

  /** limit and exclude split the list: every entry lands in exactly one of them. */
  lemma {:induction false} KeepDropPartition(s: seq<NodeTuple>, ns: seq<NodeId>)
    ensures |Keep(s, ns)| + |Drop(s, ns)| == |s|
    ensures multiset(Keep(s, ns)) + multiset(Drop(s, ns)) == multiset(s)
  {
    if s != [] {
      KeepDropPartition(s[1..], ns);
      assert s == [s[0]] + s[1..];
    }
  }

  /** Excluding the same nodes twice is excluding them once. */
  lemma {:induction false} DropIdempotent(s: seq<NodeTuple>, ns: seq<NodeId>)
    ensures Drop(Drop(s, ns), ns) == Drop(s, ns)
  {
    if s != [] {
      DropIdempotent(s[1..], ns);
      var d := Drop(s[1..], ns);
      if s[0].node !in ns {
        assert Drop(s, ns) == [s[0]] + d;
        assert ([s[0]] + d)[1..] == d;
      } else {
        assert Drop(s, ns) == [] + d == d;
      }
    }
  }

  /** Dropping the head keeps the shape of a list. */
  lemma TailKeepsShape(s: seq<NodeTuple>)
    requires s != [] && DistinctNodes(s) && NonIncreasing(s, WeightOf)
    ensures DistinctNodes(s[1..]) && NonIncreasing(s[1..], WeightOf)
    ensures forall t :: t in s[1..] ==> t.node != s[0].node && t.weight <= s[0].weight
  {
    var rest := s[1..];
    forall a, b | 0 <= a < b < |rest| ensures NodeOf(rest[a]) != NodeOf(rest[b]) && rest[a].weight >= rest[b].weight {
      assert rest[a] == s[a + 1] && rest[b] == s[b + 1];
      assert NodeOf(s[a + 1]) != NodeOf(s[b + 1]);
    }
    forall t | t in rest ensures t.node != s[0].node && t.weight <= s[0].weight {
      var k :| 0 <= k < |rest| && rest[k] == t;
      assert rest[k] == s[k + 1];
      assert NodeOf(s[0]) != NodeOf(s[k + 1]);
    }
  }

  /** A head that is distinct from and at least as heavy as every entry keeps the shape. */
  lemma ConsKeepsShape(x: NodeTuple, d: seq<NodeTuple>)
    requires DistinctNodes(d) && NonIncreasing(d, WeightOf)
    requires forall t :: t in d ==> t.node != x.node && t.weight <= x.weight
    ensures DistinctNodes([x] + d) && NonIncreasing([x] + d, WeightOf)
  {
    var r := [x] + d;
    forall a, b | 0 <= a < b < |r| ensures NodeOf(r[a]) != NodeOf(r[b]) && r[a].weight >= r[b].weight {
      assert r[b] == d[b - 1];
      assert r[b] in d;
      if a > 0 {
        assert r[a] == d[a - 1];
      }
    }
  }

  /** A sub-list taken in order keeps the list's order and its distinct nodes. */
  lemma {:induction false} DropKeepsShape(s: seq<NodeTuple>, ns: seq<NodeId>)
    requires DistinctNodes(s) && NonIncreasing(s, WeightOf)
    ensures DistinctNodes(Drop(s, ns)) && NonIncreasing(Drop(s, ns), WeightOf)
  {
    if s != [] {
      TailKeepsShape(s);
      DropKeepsShape(s[1..], ns);
      if s[0].node !in ns {
        ConsKeepsShape(s[0], Drop(s[1..], ns));
      }
    }
  }

  /**
   * `L.exclude(Y).exclude(Y)` has the entries of `L.exclude(Y)`: the second
   * call sorts an already consolidated list, which changes nothing.
   */
  lemma ExcludeTwice(s: seq<NodeTuple>, ns: seq<NodeId>)
    ensures Drop(Consolidate(Drop(Consolidate(s), ns)), ns) == Drop(Consolidate(s), ns)
  {
    var c := Consolidate(s);
    ConsolidateSpec(s);
    DropKeepsShape(c, ns);
    ConsolidateFixpoint(Drop(c, ns));
    DropIdempotent(c, ns);
  }

  // ---------------------------------------------------------------------------
  // append
  // ---------------------------------------------------------------------------

  function ContainsNode(s: seq<NodeTuple>, n: NodeId): bool {
    n in NodesOf(s)
  }

  /**
   * contains (nodes.py:72-77): whether the list holds the node of the first
   * tuple its argument normalises to (without a registry); IndexError when
   * there is none.
   */
  function Contains(entries: seq<NodeTuple>, items: seq<Item>): (r: Result<bool>)
    ensures Tuplate(items, NoRegistry).Err? ==> r == Err(InvalidType)
    ensures Tuplate(items, NoRegistry).Ok? ==>
      var ts := Tuplate(items, NoRegistry).value;
      (r.Err? <==> ts == []) && (r.Err? ==> r.error == IndexError) &&
      (r.Ok? ==> (r.value <==> exists i :: 0 <= i < |entries| && entries[i].node == ts[0].node))
  {
    var ts :- Tuplate(items, NoRegistry);
    if ts == [] then Err(IndexError)
    else
      assert ContainsNode(entries, ts[0].node) <==> exists i :: 0 <= i < |entries| && entries[i].node == ts[0].node by {
        if ContainsNode(entries, ts[0].node) {
          var i :| 0 <= i < |NodesOf(entries)| && NodesOf(entries)[i] == ts[0].node;
        }
      }
      Ok(ContainsNode(entries, ts[0].node))
  }

  /**
   * The list effect of append once its argument is normalised to `ts`:
   * appended, unless accumulation is off and the first given node is present.
   */
  function Absorb(entries: seq<NodeTuple>, ts: seq<NodeTuple>, accumulate: bool): (r: seq<NodeTuple>)
    ensures r == entries || r == entries + ts
    ensures !accumulate && ts != [] && ContainsNode(entries, ts[0].node) ==> r == entries
    ensures accumulate || (ts != [] && !ContainsNode(entries, ts[0].node)) ==> r == entries + ts
  {
    if accumulate || (ts != [] && !ContainsNode(entries, ts[0].node)) then entries + ts else entries
  }

  /**
   * append (nodes.py:58-69) as written: the argument is normalised without a
   * registry, because the registry is passed where `create` is expected.
   * The result is the new entries and the returned flag.
   */
  function AppendAsWritten(entries: seq<NodeTuple>, items: seq<Item>, accumulate: bool): (r: Result<(seq<NodeTuple>, bool)>)
    ensures Tuplate(items, NoRegistry).Err? ==> r == Err(InvalidType)
    ensures Tuplate(items, NoRegistry).Ok? ==>
      var ts := Tuplate(items, NoRegistry).value;
      (r.Err? <==> !accumulate && ts == []) &&
      (r.Err? ==> r.error == IndexError) &&
      (r.Ok? ==> r.value.0 == Absorb(entries, ts, accumulate) &&
                 (r.value.1 <==> accumulate || !ContainsNode(entries, ts[0].node)))
  {
    AppendWith(entries, items, accumulate, NoRegistry)
  }

  /**
   * append with line 67 reading `tuplate(node, registry=self.parent)`: the
   * appended entries are normalised through `resolve`, while the presence
   * test is still contains, which normalises without a registry. contains
   * is only consulted when accumulation is off (the `or` short-circuits).
   */
  function AppendWith(entries: seq<NodeTuple>, items: seq<Item>, accumulate: bool, resolve: string -> Option<NodeId>): (r: Result<(seq<NodeTuple>, bool)>)
    ensures !accumulate && Contains(entries, items).Err? ==> r == Err(Contains(entries, items).error)
    ensures !accumulate && Contains(entries, items) == Ok(true) ==> r == Ok((entries, false))
    ensures accumulate || Contains(entries, items) == Ok(false) ==>
      (Tuplate(items, resolve).Err? ==> r == Err(InvalidType)) &&
      (Tuplate(items, resolve).Ok? ==> r == Ok((entries + Tuplate(items, resolve).value, true)))
  {
    if !accumulate && Contains(entries, items).Err? then Err(Contains(entries, items).error)
    else if !accumulate && Contains(entries, items).value then Ok((entries, false))
    else
      var ts :- Tuplate(items, resolve);
      Ok((entries + ts, true))
  }

  /** As written, a string name given to append is silently dropped and True is still returned. */
  lemma AppendAsWrittenDropsNames(entries: seq<NodeTuple>, name: string)
    ensures AppendAsWritten(entries, [Bare(Named(name))], true) == Ok((entries, true))
    ensures AppendAsWritten(entries, [Bare(Named(name))], false) == Err(IndexError)
  {
    TuplateSingle(Bare(Named(name)), NoRegistry);
    assert entries + [] == entries;
  }

  /**
   * Resolving through the registry, a known name is appended with weight 1
   * when accumulating; without accumulation contains still sees no node in a
   * bare name and raises IndexError.
   */
  lemma AppendResolvesNames(entries: seq<NodeTuple>, name: string, id: NodeId, resolve: string -> Option<NodeId>)
    requires resolve(name) == Some(id)
    ensures AppendWith(entries, [Bare(Named(name))], true, resolve) == Ok((entries + [NodeTuple(id, 1)], true))
    ensures AppendWith(entries, [Bare(Named(name))], false, resolve) == Err(IndexError)
  {
    TuplateSingle(Bare(Named(name)), resolve);
    TuplateSingle(Bare(Named(name)), NoRegistry);
  }

  /** For the arguments the engine itself passes (no names), both readings agree. */
  lemma AppendUnnamedAgrees(entries: seq<NodeTuple>, items: seq<Item>, accumulate: bool, resolve: string -> Option<NodeId>)
    requires Unnamed(items)
    ensures AppendWith(entries, items, accumulate, resolve) == AppendAsWritten(entries, items, accumulate)
  {
    TuplateUnnamed(items, resolve, NoRegistry);
  }

  // ---------------------------------------------------------------------------
  // flatten
  // ---------------------------------------------------------------------------

  /** flatten (nodes.py:341-356): the leaves of a nested list, depth first. */
  method Flatten<T>(arr: seq<Nested<T>>) returns (out: seq<T>)
    ensures out == Leaves(arr)
    decreases arr
  {
    out := [];
    for i := 0 to |arr|
      invariant out == Leaves(arr[..i])
    {
      assert arr[..i + 1] == arr[..i] + [arr[i]];
      LeavesAppend(arr[..i], [arr[i]]);
      assert Leaves([arr[i]]) == LeavesOf(arr[i]) + Leaves([]);
      match arr[i]
      case Leaf(v) =>
        out := out + [v];
      case Group(xs) =>
        var inner := Flatten(xs);
        out := out + inner;
    }
    assert arr[..|arr|] == arr;
  }

  /** After a successful append the list contains what was appended. */
  lemma ContainsAfterAppend(entries: seq<NodeTuple>, items: seq<Item>, accumulate: bool)
    requires Unnamed(items) && AppendAsWritten(entries, items, accumulate).Ok?
    requires Tuplate(items, NoRegistry).value != []
    ensures Contains(AppendAsWritten(entries, items, accumulate).value.0, items) == Ok(true)
  {
    var ts := Tuplate(items, NoRegistry).value;
    var e := AppendAsWritten(entries, items, accumulate).value.0;
    if e == entries + ts {
      assert e[|entries|].node == ts[0].node;
    } else {
      assert ContainsNode(entries, ts[0].node);
      var i :| 0 <= i < |NodesOf(entries)| && NodesOf(entries)[i] == ts[0].node;
      assert e[i].node == ts[0].node;
    }
  }
}
