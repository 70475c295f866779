# pylog in Dafny

A verified model of the core of pylog, a small in-memory graph database for
Python in which named nodes are connected by named relations.

The project models two generations of the engine.

- The weighted registry engine (`nodes.py`, `nodeRegistry.py`, `common.py`,
  the `load` method of `dbc.py`, and `biject`/`direct` of `graph.py`). A
  `NodeRegistry` interns nodes case-insensitively by name; each node keeps,
  per relation node, an ordered list of weighted entries (`NodeTuple`s).
  `relate` normalises both sides with `tuplate`, creates the relation nodes,
  and writes forward, backward and `_connects` edges under an
  accumulate-or-skip rule. A `NodeList` is a weighted list that can be
  consolidated (`sort`), scaled, sliced, limited, excluded and traversed
  (`rel`), which sums path weights. `DBC.load` hydrates not-yet-loaded nodes
  from a relational store, which is modelled as a value: a table of names and
  a table of relationship rows.
- The legacy graph (`pylog.py`). A `Graph` holds nodes by exact name, a list
  of `Relation`s found by lowercased name, and per-node maps from relation
  to node lists. `createRelationship` links every pair of the two sides, and
  `NodeList.rel`/`merge` rank results by frequency (`flatten`,
  `sortByFrequency`).

Modules:

- `Wrappers` holds Option, Result and the error kinds.
- `Seqs` holds Python list, slice, index, lower-casing, dict-key order and
  stable sorting.
- `Common` models `common.py`.
- `Nodes` holds NodeTuple, tuplate and the value-level NodeList algebra.
- `RegistryState` holds the registry as a value: interning and relate.
- `Adjacency` holds the ordered relation dictionaries and relate's plan of
  edges.
- `Traversal` models NodeList.rel and its path weights.
- `Hydration` models DBC.load over a store given as a value.
- `Registry` holds the classes `NodeRegistry` and `NodeList`, whose methods
  mutate state in place and are proved against the value-level functions.
- `Frequency` models flatten and sortByFrequency.
- `LegacyState` holds the legacy graph as a value.
- `Legacy` holds the classes `Graph` and `NodeList` of `pylog.py`.

Nodes and relations are identified by their index in the registry's (or
graph's) arena, so object identity becomes index equality.

## Model

| member | source | states |
|---|---|---|
| Common.Enlist | common.py:8-9 | a list argument comes back unchanged; any other value becomes the one-element list holding it |
| Common.EnlistIdempotent | common.py:8-9 | enlist applied to its own result changes nothing |
| Common.EnforceType | common.py:3-6 | raises InvalidType exactly when the exact type of the value is not among the allowed types (after enlisting them); otherwise succeeds |
| Common.BoolIsNotInt | common.py:3-6 | subtypes are not accepted: a bool is refused where only int is allowed |
| Common.CoerceType | common.py:11-13 | the value itself when its exact type is allowed, the default otherwise |
| Nodes.MakeTuple | nodes.py:278-282 | a NodeTuple is built only when the weight's exact type is int; any other weight raises InvalidType |
| Nodes.Normalize | nodes.py:312-337 | one item's tuples: a name resolves to weight 1 or is dropped, a Node weighs 1, a tuple takes its second component (an ill-typed weight raises), a NodeTuple with a name is re-resolved, a NodeList is spliced in, anything else is dropped |
| Nodes.Tuplate | nodes.py:298-339 | every item normalised in order and the results concatenated; the first failing item's error is the result |
| Nodes.TuplateSnoc | nodes.py:339 | one more item: an earlier error stays, else the new item's error wins, else its tuples are appended |
| Nodes.TuplateSingle | nodes.py:310 | a single non-list argument is normalised as a one-element list |
| Nodes.TuplateUnnamed | nodes.py:312-317 | for items that hold no string names the resolver makes no difference |
| Nodes.TuplateWeights | nodes.py:322-329 | bare names and Nodes get weight 1; a tuple's entry carries the tuple's second component |
| Nodes.Consolidate | nodes.py:79-94 | sort's result: each node once, weights summed, in non-increasing weight order |
| Nodes.AccumulateWeights | nodes.py:86-91 | the dictionary loop of sort yields one entry per node in first-occurrence order, carrying the node's summed weight |
| Nodes.AccumulatedTotal | nodes.py:86-91 | consolidating keeps the total weight of the list |
| Nodes.ConsolidateSpec | nodes.py:79-94 | after sort: every node at most once, each with the sum of its earlier weights, the same set of nodes, non-increasing weights, ties in order of first occurrence |
| Nodes.ConsolidateTotal | nodes.py:79-94 | sort keeps the total weight |
| Nodes.ConsolidateSumOf | nodes.py:79-94 | sort keeps every node's summed weight |
| Nodes.ConsolidateFixpoint | nodes.py:79-94 | a list that is already consolidated and ordered is returned unchanged |
| Nodes.ConsolidateIdempotent | nodes.py:79-94 | sorting a sorted list changes nothing |
| Nodes.Scale | nodes.py:49-50 | every weight is multiplied by the factor and the nodes stay in place |
| Nodes.ScaleSumOf | nodes.py:49-50 | scaling multiplies every node's summed weight by the factor |
| Nodes.ScaleTotal | nodes.py:49-50 | scaling multiplies the total weight by the factor |
| Nodes.ScaleKeepsOrder | nodes.py:53-56 | a non-negative factor keeps a weight-ordered list ordered |
| Nodes.Product | nodes.py:47-51 | `L * k` is the consolidated copy with every weight multiplied by k |
| Nodes.ProductSpec | nodes.py:47-51 | `L * k` holds each node once with k times its summed weight, and k times the total |
| Nodes.Keep | nodes.py:222 | the entries whose node is among the given nodes, in order |
| Nodes.Drop | nodes.py:234 | the entries whose node is not among the given nodes, in order |
| Nodes.KeepDropPartition | nodes.py:211-234 | limit and exclude split the list: every entry lands in exactly one of them, with its weight |
| Nodes.DropIdempotent | nodes.py:224-234 | excluding the same nodes twice is excluding them once |
| Nodes.DropKeepsShape | nodes.py:224-234 | a sub-list taken in order keeps the weight order and distinct nodes |
| Nodes.ExcludeTwice | nodes.py:224-234 | `L.exclude(Y).exclude(Y)` has the entries of `L.exclude(Y)` |
| Nodes.Contains | nodes.py:72-77 | true exactly when the list holds the node of the argument's first normalised tuple; IndexError when the argument normalises to nothing |
| Nodes.Absorb | nodes.py:65-69 | the list effect of append on the normalised argument: unchanged when accumulation is off and its first node is present; the entries appended when accumulating or when that node is absent |
| Nodes.AppendAsWritten | nodes.py:58-69 | as written, with the argument normalised without a registry: IndexError exactly when accumulation is off and the argument yields no entry; otherwise the list Absorb prescribes, and True exactly when accumulating or the first node is absent |
| Nodes.AppendWith | nodes.py:58-69 | (corrected line 67) contains, which normalises without a registry, decides presence and is consulted only without accumulation; what is appended is the argument resolved through the registry |
| Nodes.AppendAsWrittenDropsNames | nodes.py:67 | as written, appending a known name adds nothing and still returns True |
| Nodes.AppendResolvesNames | nodes.py:65-69 | (corrected line 67) a known name is appended with weight 1 when accumulating; without accumulation contains still raises IndexError on a bare name |
| Nodes.AppendUnnamedAgrees | nodes.py:65-69 | for arguments without names both readings agree |
| Nodes.ContainsAfterAppend | nodes.py:58-77 | after a successful append the list contains what was appended |
| Nodes.Flatten | nodes.py:341-356 | the leaves of a nested list, depth first, left to right |
| Seqs.Lower | nodeRegistry.py:32 | ASCII lower-casing, length kept, letter by letter |
| Seqs.LowerIdempotent | nodeRegistry.py:32 | lower-casing twice is lower-casing once |
| Seqs.Dedup | pylog.py:286-290 | a dict's keys filled from a list: every element once, nothing else |
| Seqs.DedupFirstOccurrenceOrder | pylog.py:286-290 | dict keys come out in the order of their first occurrence |
| Seqs.SortDesc | pylog.py:291 | `sorted(..., reverse=True)` returns a permutation in non-increasing key order |
| Seqs.SortDescStable | pylog.py:291 | among equal keys the sorted order is the input order |
| Seqs.SortDescOfSorted | nodes.py:92 | sorting an already ordered list changes nothing |
| Seqs.PySlice | nodes.py:192-209 | Python slicing with negative and missing bounds clamped to the list |
| Seqs.SliceTop | nodes.py:186-192 | `s[:n]` with `0 <= n <= len(s)` is the first n elements |
| Seqs.SliceBottomAll | nodes.py:194-200 | `s[-0:]` is the whole list, so bottom(0) returns every entry |
| Seqs.SliceBottom | nodes.py:194-200 | `s[-n:]` with `0 < n <= len(s)` is the last n elements |
| Seqs.SliceInside | nodes.py:202-209 | `s[a:b]` with `0 <= a <= b <= len(s)` is the plain subsequence |
| Seqs.SliceEmpty | nodes.py:202-209 | `s[a:b]` with `0 <= b <= a` is empty, also when `a` is past the end |
| Seqs.PyIndex | pylog.py:218-219 | Python indexing: succeeds exactly for -len <= i < len, counting negative positions from the end; IndexError otherwise |
| Adjacency.Put | nodeRegistry.py:143-146 | storing a list under a relation: a new key goes to the end of the dictionary's order |
| Adjacency.PutWellFormed | nodeRegistry.py:143-146 | storing a non-empty list keeps the dictionary well formed |
| Adjacency.Deliver | nodeRegistry.py:143-151 | one write of relate: the slot is created empty when new, then the entry is appended under the accumulate-or-skip rule |
| Adjacency.ApplyAccumulates | nodeRegistry.py:136-151 | with accumulation on, every stored list becomes its old contents followed by exactly the entries written to it, in order |
| Adjacency.ApplyUntouched | nodeRegistry.py:136-151 | a node that owns no written edge keeps its relations |
| Adjacency.ApplyExtends | nodeRegistry.py:136-151 | later writes only append: every stored list is a prefix of what it becomes |
| Adjacency.ApplyHolds | nodeRegistry.py:143-151 | once an edge is written its target list holds the entry's node, whatever the accumulation setting |
| Adjacency.ApplyWellFormed | nodeRegistry.py:143-151 | every slot relate creates is appended to at once, so no stored list is ever empty |
| Adjacency.ApplyKeepsDistinct | nodeRegistry.py:143-151 | with accumulation off every stored list holds each node at most once |
| Adjacency.PlanSound | nodeRegistry.py:136-151 | relate's loops write nothing but the four kinds of edges, each with the owner, relation and entry its kind prescribes |
| Adjacency.PlanComplete | nodeRegistry.py:136-151 | for every left node l and right node r the plan holds the forward, backward and auto-link edges whose names are given |
| Adjacency.PlanHolds | nodeRegistry.py:136-151 | after the loops l holds r under rightward, r holds l under leftward, and relation nodes hold their auto-linked nodes under `_connects` |
| Adjacency.PlanAppends | nodeRegistry.py:143-151 | with accumulation on the entries are appended with their weights |
| Adjacency.PlanOneWay | nodeRegistry.py:140-151 | without a rightward name every edge is a backward edge under a right node or the leftward relation node's link; nothing is written under any left node |
| Adjacency.PlanOneWayLeft | nodeRegistry.py:140-151 | without a leftward name every edge is a forward edge under a left node or the rightward relation node's link; nothing is written under any right node |
| Adjacency.PlanKindCount | nodeRegistry.py:136-151 | each left node is auto-linked once per call, each right node once per left node, and one forward and one backward edge per pair |
| Adjacency.PlanWithoutNames | nodeRegistry.py:136-151 | with neither name given relate writes no edge |
| Traversal.CollectAccumulates | nodes.py:146-163 | with accumulation on, the output list is every gathered list, concatenated in loop order |
| Traversal.PathWeight | nodes.py:148-163 | the reference weight of a node c: the sum over receiver entries (n, w) of w times c's weight in n's matching lists |
| Traversal.ReachedSum | nodes.py:148-163 | the weight of c gathered by rel's loops equals the reference path weight |
| Traversal.RelWeight | nodes.py:137-165 | with accumulation on the sorted result holds c at most once, with the path weight |
| Traversal.HopExpandsAll | nodes.py:147-150 | without a relation name every key of a node is expanded, `_connects` included |
| Traversal.HopMissing | nodes.py:161-163 | a named relation that a node does not have contributes nothing |
| Traversal.ReachedNothing | nodes.py:154-156 | no matching relation node: nothing is gathered |
| Traversal.GatheredBelow | nodes.py:148-163 | everything rel gathers from a registry of n nodes is one of those nodes |
| RegistryState.Intern | nodeRegistry.py:31-38 | the node of the lowercased name, created with the given spelling when missing |
| RegistryState.InternIdempotent | nodeRegistry.py:31-38 | `_add` is idempotent and case-insensitive: a second spelling finds the same node, changes nothing, and the node keeps its first spelling |
| RegistryState.InternFresh | nodeRegistry.py:34-35 | a new node starts with an empty adjacency map and not loaded; other nodes are untouched |
| RegistryState.InternAll | nodeRegistry.py:57-71 | addAll interns every name in order and returns their nodes |
| RegistryState.LookupIds | nodeRegistry.py:98 | get without create or load: the nodes of the names found in lookup (lowercased), in input order, unknown names dropped |
| RegistryState.AddAllThenGet | nodeRegistry.py:95-98 | after addAll, a plain get of the same names finds exactly the nodes addAll returned |
| RegistryState.TuplateCreate | nodes.py:298-339 | tuplate with create: names are interned in order; the first ill-typed weight aborts after the earlier items' nodes exist |
| RegistryState.TuplateCreateKnown | nodes.py:298-339 | when every name is known, tuplate with create changes nothing and equals tuplate with lookup |
| RegistryState.TuplateCreateInterns | nodeRegistry.py:128-129 | after tuplate with create every name the items give is known |
| RegistryState.TuplateCreateFails | nodes.py:325-329 | with create, tuplate fails exactly on a tuple whose weight is not an int |
| RegistryState.TuplateCreateStops | nodes.py:339 | once an item fails, later items are neither looked at nor interned |
| RegistryState.RelateSpec | nodeRegistry.py:113-151 | relate: both sides normalised with create, the relation and `_connects` nodes created, then every edge of the plan delivered in order |
| RegistryState.PrepareValid | nodeRegistry.py:128-133 | every node relate creates before its loop is a valid node of the grown registry |
| RegistryState.RelateValid | nodeRegistry.py:113-151 | relate keeps the registry valid; in particular no stored list is ever empty |
| RegistryState.RelateOnlyLinks | nodeRegistry.py:136-151 | relate's loop writes only adjacency: names, lookup and loaded flags stay as the preparation left them |
| RegistryState.ResolveRolesNames | nodeRegistry.py:130-133 | each non-empty relation name resolves to the node of its lowercased name; lookup and flags only grow |
| RegistryState.ResolveRolesConnects | nodeRegistry.py:130-142 | the `_connects` node exists whenever an auto-link will be written |
| RegistryState.RelateCreates | nodeRegistry.py:128-133 | relate creates every endpoint and relation node, never consults the store, and never changes a loaded flag |
| RegistryState.StoredUnder | nodeRegistry.py:143-151 | the list stored at a node under the relation of a given name, empty when there is none |
| RegistryState.RelatePlaces | nodeRegistry.py:136-151 | for every normalised left node l and right node r: l holds r under rightward, r holds l under leftward, each auto-linked relation node holds its side's node under `_connects` |
| RegistryState.RelateAppends | nodeRegistry.py:143-151 | with accumulation on the entries are stored with their weights |
| RegistryState.BijectSymmetric | graph.py:31-32 | biject relates both ways under one relation: each left node holds each right node and vice versa |
| RegistryState.DirectOneWay | graph.py:34-35 | direct writes only at the right nodes and at the relation node; every other node keeps its relations |
| RegistryState.NestedLinkIsOneEdge | nodeRegistry.py:137-142 | the nested relate(rel, node, "", "_connects") is exactly one append to the relation node's `_connects` list and never recurses further |
| Hydration.PendingIff | dbc.py:130 | a name is pending exactly when it does not resolve to a loaded node |
| Hydration.IdsBelowIff | dbc.py:137-138 | the fetched IDs are exactly the stored nodes whose name is pending, compared verbatim |
| Hydration.FetchedIff | dbc.py:143-159 | a row is fetched exactly when it is stored, its IDs are nodes, and its left node's name is pending |
| Hydration.Hydrated | dbc.py:161-166 | the fetched rows related in order, then every requested node that exists marked loaded |
| Hydration.LoadAllLoaded | dbc.py:130-132 | when every requested name is loaded, the store is not consulted and nothing changes |
| Hydration.LoadResult | dbc.py:167 | the result is always the plain lookup of the names in the new registry: unknown names dropped, never created |
| Hydration.RowHolds | dbc.py:162-163 | after a row's relate, its left node holds its right node under the row's relation |
| Hydration.RowEndpoints | dbc.py:163 | a row's relate has its right node (with the row's weight) as left argument and its left node (weight 1) as right argument |
| Hydration.LoadValid | dbc.py:119-167 | load keeps the registry valid and only adds to it; loaded flags are never cleared |
| Hydration.LoadHydrates | dbc.py:137-163 | every stored relationship whose left node is a requested, not yet loaded name is in the registry afterwards |
| Hydration.LoadMarks | dbc.py:140-166 | once anything is fetched, every requested name that exists afterwards is loaded; when no pending name is stored nothing changes |
| Hydration.LoadBindingMismatch | dbc.py:137-159 | as written, load(["a","b"]) with only "a" stored raises BindingError; the corrected load hydrates "a" |
| Hydration.LoadDuplicateName | dbc.py:130-159 | a requested name listed twice is pending twice but stored once, so as written load raises |
| Hydration.LoadReadings | dbc.py:119-167 | load as written and the corrected load agree whenever the as-written one succeeds or every pending name has exactly one stored ID; otherwise as written raises BindingError with nothing changed |
| Registry.NodeRegistry.constructor | nodeRegistry.py:13-23 | an empty registry with the two settings given as parameters |
| Registry.NodeRegistry.Intern | nodeRegistry.py:31-38 | the registry afterwards and the node returned are those of Intern |
| Registry.NodeRegistry.Add | nodeRegistry.py:44-55 | a new list holding the interned node with weight 1 |
| Registry.NodeRegistry.AddAll | nodeRegistry.py:57-71 | every name interned in order, as InternAll prescribes |
| Registry.NodeRegistry.Lookup | nodeRegistry.py:98 | the known names' nodes, as LookupIds prescribes, registry unchanged |
| Registry.NodeRegistry.TuplateCreate | nodes.py:298-339 | the registry and tuples that TuplateCreate prescribes |
| Registry.NodeRegistry.Write | nodeRegistry.py:143-151 | one write: the adjacency becomes Deliver of the old adjacency |
| Registry.NodeRegistry.Get | nodeRegistry.py:74-98 | (corrected load) with load and a store: DBC.load; else with create: addAll; else the lookup |
| Registry.NodeRegistry.PendingNames | dbc.py:130 | the pending names, as Pending prescribes |
| Registry.NodeRegistry.RelateRows | dbc.py:161-163 | the registry after every fetched row is related in turn |
| Registry.NodeRegistry.LoadNames | dbc.py:119-167 | the registry and result of the corrected Load |
| Registry.NodeRegistry.Rel | nodeRegistry.py:101-110 | (corrected load) get with load, then rel of the result under `_connects`; empty when `_connects` does not exist |
| Registry.NodeRegistry.Relate | nodeRegistry.py:113-151 | the registry and result of RelateSpec, and the registry stays valid |
| Registry.NodeRegistry.Biject | graph.py:31-32 | relate with the same relation in both directions |
| Registry.NodeRegistry.Direct | graph.py:34-35 | relate with an empty rightward relation |
| Registry.NodeRegistry.RelateAll | nodeRegistry.py:136-151 | the adjacency becomes the plan's edges applied in order |
| Registry.NodeRegistry.RelateRow | nodeRegistry.py:139-151 | the inner loop applies the row's edges in order |
| Registry.NodeRegistry.RelatePair | nodeRegistry.py:140-151 | one pair applies exactly its cell's edges; names, lookup and flags unchanged |
| Registry.NodeList.Sort | nodes.py:79-94 | the entries become their consolidation and the sorted flag is set; a list already marked sorted is left alone |
| Registry.NodeList.IsLoaded | nodes.py:99-113 | False on an empty list, otherwise True exactly when every node is loaded |
| Registry.NodeList.SetLoaded | nodes.py:115-123 | every node of the list gets the given flag; other nodes keep theirs |
| Registry.NodeList.Contains | nodes.py:72-77 | the answer Contains prescribes |
| Registry.NodeList.Append | nodes.py:58-69 | (corrected line 67) the result of AppendWith with the registry's lookup: presence decided by contains without a registry, appended entries resolved through the registry; sorted is cleared when it appends |
| Registry.NodeList.IMul | nodes.py:53-56 | the receiver's sorted entries with every weight multiplied |
| Registry.NodeList.Mul | nodes.py:47-51 | a new list equal to Product; the receiver's entries are untouched |
| Registry.NodeList.Eq | nodes.py:167-175 | None when the index is at or past the end, otherwise the node at that Python index of the sorted list |
| Registry.NodeList.First | nodes.py:177-184 | the heaviest node, None for an empty list |
| Registry.NodeList.Top | nodes.py:186-192 | `nodes[:n]` of the current, unsorted entries |
| Registry.NodeList.Bottom | nodes.py:194-200 | `nodes[-n:]`, so bottom(0) is every entry |
| Registry.NodeList.Sublist | nodes.py:202-209 | `nodes[start:end]` |
| Registry.NodeList.Limit | nodes.py:211-222 | the sorted entries whose node the argument names |
| Registry.NodeList.Exclude | nodes.py:224-234 | the sorted entries whose node the argument does not name |
| Registry.NodeList.Load | nodes.py:125-135 | (corrected load) when not every node of the list is loaded and a store is connected, the names of the list's nodes are loaded; otherwise nothing changes |
| Registry.NodeList.Rel | nodes.py:137-165 | (corrected load) the gathered lists merged, sorted and loaded; no relation (None or an empty list, the falsy `name`) expands every key; an unknown relation name gives an empty list |
| Registry.NodeList.Names | nodes.py:250-258 | the nodes' first spellings in weight order |
| Registry.NodeList.Tuples | nodes.py:260-269 | (name, weight) pairs in weight order |
| Registry.ListLoadHydrates | nodes.py:125-135 | (corrected load) after a list's load every stored relationship of a not yet loaded node of the list is in the registry |
| Registry.ListLoadLoaded | nodes.py:133 | a list whose nodes are all loaded is not loaded again |
| Registry.ConnectsKeys | nodeRegistry.py:110 | the relation rel expands is the `_connects` node, when it exists |
| Frequency.ByFrequencyElements | pylog.py:285-291 | sortByFrequency returns each distinct value once and nothing else, in non-increasing order of occurrence count |
| Frequency.ByFrequencyTieOrder | pylog.py:285-291 | values with equal counts come out in the order of their first occurrence |
| Frequency.Flatten | pylog.py:271-272 | flatten's result is duplicate-free and holds exactly the leaves of the nested input |
| Frequency.SortByFrequency | pylog.py:285-291 | the dictionary-counting loop and the stable sort give ByFrequency |
| Frequency.FlattenInto | pylog.py:275-283 | _flatten appends the leaves of the nested list to out, depth first |
| Frequency.FlattenList | pylog.py:271-272 | _flatten then sortByFrequency gives Flatten |
| LegacyState.EmptyValid | pylog.py:10-15 | a new Graph satisfies the graph invariant |
| LegacyState.NewNodeValid | pylog.py:22-25 | creating a node keeps the graph valid, only adds, and registers the name |
| LegacyState.NewNodeFresh | pylog.py:23-24 | a new node starts with an empty relation map |
| LegacyState.CreateNodeFacts | pylog.py:17-29 | createNode keeps the graph valid, only adds nodes, and returns the nodes of the names given |
| LegacyState.CreateNodeIdempotent | pylog.py:17-29 | createNode is idempotent per exact, case-sensitive name: a second call changes nothing and returns the same nodes |
| LegacyState.CreateThenGet | pylog.py:36-47 | after createNode, get of the same names without create returns the same nodes and changes nothing |
| LegacyState.GetReadOnly | pylog.py:44-45 | get without create never changes the graph |
| LegacyState.GetFacts | pylog.py:36-47 | get keeps the graph valid, only adds nodes, and returns nodes of the graph |
| LegacyState.FindRelation | pylog.py:52-55 | the first relation whose stored name equals the key, else None |
| LegacyState.AsWrittenDuplicates | pylog.py:50-66 | as written, a name with an upper-case letter is never found again: two calls append two relations |
| LegacyState.AsWrittenFriendsTwice | pylog.py:50-66 | createRelationByName("Friends") twice leaves two relations |
| LegacyState.CreateRelationByNameFacts | pylog.py:62-66 | the relation found or made carries the lowercased name; at most one relation is appended and nothing else changes |
| LegacyState.CreateRelationByNameIdempotent | pylog.py:62-66 | a second call finds the relation the first returned and changes nothing |
| LegacyState.CreateRelationByNameReadings | pylog.py:62-66 | both readings agree on lower-case names and on names already present; on a miss they differ only in storing the name as given or lowercased |
| LegacyState.AddNodeDedup | pylog.py:254-256 | addNode keeps the list duplicate-free in insertion order: it is the dict-key order of the list with the node appended |
| LegacyState.LinkPlaces | pylog.py:100-112 | after the loops, for every right r and left l, nodes[r][rightRel] holds l and nodes[l][leftRel] holds r |
| LegacyState.LinkValid | pylog.py:100-112 | the loops keep the graph valid: each relation's list holds every node stored under it |
| LegacyState.PrepareFacts | pylog.py:82-98 | (corrected createRelationByName) the set-up leaves a valid graph, node lists of the graph, and the relations named (lowercased) exactly for the non-empty names |
| LegacyState.CreateRelationshipPlaces | pylog.py:81-112 | (corrected createRelationByName) createRelationship keeps the graph valid and places every pair in both named directions |
| LegacyState.BijectionSymmetric | pylog.py:70-71 | (corrected createRelationByName) with the relation created once under its lowercased name and used both ways, every pair is linked in both directions under it |
| LegacyState.OneWayOnlyRight | pylog.py:74-75 | createOneWay names no right-to-left relation: only the right nodes' relation maps change |
| LegacyState.NoRelationNoEdges | pylog.py:90-112 | with both names empty the loops write no relation entry |
| LegacyState.ListRelElements | pylog.py:213-215 | NodeList.rel gives each node reached from any of the list's nodes once, ranked by how often it is reached |
| LegacyState.Limit | pylog.py:226-227 | the nodes also in the argument, in order |
| LegacyState.Exclude | pylog.py:230-231 | the nodes not in the argument, in order |
| LegacyState.LimitExcludePartition | pylog.py:226-231 | limit and exclude split the list: together they hold exactly its elements |
| LegacyState.MergeUnion | pylog.py:234-235 | merge is the duplicate-free union, ranked by occurrences in the two lists |
| LegacyState.FilterByName | pylog.py:222-223 | the nodes whose name is the given one, in order |
| LegacyState.FilterByNameCopies | pylog.py:222-223 | names are unique in a graph, so filterByName keeps exactly the copies of the named node |
| LegacyState.RemoveFirst | pylog.py:206-207 | list.remove drops one occurrence, the first: earlier elements stay, later ones move up |
| Legacy.Graph.constructor | pylog.py:10-15 | an empty, valid graph |
| Legacy.Graph.AddName | pylog.py:22-27 | the node of the exact name, registered with an empty relation map when new |
| Legacy.Graph.CreateNode | pylog.py:17-29 | the graph and nodes that CreateNode prescribes; validity is kept |
| Legacy.Graph.CreateEach | pylog.py:20 | createNode of each item in order |
| Legacy.Graph.Get | pylog.py:36-47 | the graph and nodes that Get prescribes |
| Legacy.Graph.GetEach | pylog.py:40 | get of each item in order |
| Legacy.Graph.CreateRelation | pylog.py:31-33 | one new empty relation appended and returned |
| Legacy.Graph.GetRelationByName | pylog.py:50-55 | the search loop returns the first relation whose stored name is the lowercased query, else None |
| Legacy.Graph.Rel | pylog.py:58-59 | the named relation's nodes; AttributeError exactly when no relation has that name |
| Legacy.Graph.CreateRelationByName | pylog.py:62-66 | the graph and relation of the corrected createRelationByName |
| Legacy.Graph.AddToRelation | pylog.py:254-256 | Relation.addNode on one relation of the graph |
| Legacy.Graph.AddEdge | pylog.py:106-112 | the list under the relation is created when missing, then the node appended; no node is added |
| Legacy.Graph.LinkPair | pylog.py:104-112 | the inner loop body, as LinkPair prescribes |
| Legacy.Graph.LinkRow | pylog.py:103-112 | the inner loop, as LinkRow prescribes |
| Legacy.Graph.Link | pylog.py:100-112 | the outer loop, as Link prescribes |
| Legacy.Graph.Prepare | pylog.py:82-98 | (corrected createRelationByName) the set-up, as Prepare prescribes |
| Legacy.Graph.CreateRelationship | pylog.py:81-112 | (corrected createRelationByName) the graph that CreateRelationship prescribes; validity is kept |
| Legacy.Graph.CreateBijection | pylog.py:70-71 | (corrected createRelationByName) createRelationship with the same relation both ways |
| Legacy.Graph.CreateOneWay | pylog.py:74-75 | (corrected createRelationByName) createRelationship with no right-to-left relation |
| Legacy.Graph.NodeRel | pylog.py:165-171 | the list stored at the node under the named relation, or an empty list |
| Legacy.NodeList.Append | pylog.py:203-204 | the node appended at the end |
| Legacy.NodeList.Remove | pylog.py:206-207 | the first occurrence removed; ValueError and no change when the node is absent |
| Legacy.NodeList.IsEmpty | pylog.py:209-210 | true exactly when the list holds no node |
| Legacy.NodeList.Eq | pylog.py:218-219 | the node at a Python index; IndexError exactly outside -len..len-1 |
| Legacy.NodeList.Rel | pylog.py:213-215 | Node.rel of every node, flattened: ListRel |
| Legacy.NodeList.FilterByName | pylog.py:222-223 | the nodes whose name matches, as FilterByName prescribes |
| Legacy.NodeList.Limit | pylog.py:226-227 | a new list of the nodes also in the argument |
| Legacy.NodeList.Exclude | pylog.py:230-231 | a new list of the nodes not in the argument |
| Legacy.NodeList.Merge | pylog.py:234-235 | a new list equal to Merge: the ranked, duplicate-free union |

## Left out

- `Graph.eval`, `readSource` and `reader.py`: the legacy query language is regex-driven text parsing plus file input, and it is outside the modelled core.
- SQLite access (`connect`, `dump`, `convert`, `initialize` of `dbc.py`): the store is a value (a name table and a relationship-row table), and `load` is modelled over it. No SQL text, cursor or file is modelled.
- Printing, `__str__`, `__repr__`, `format` and `info`: presentation only.
- The NodeList constructor's printed type error: a constructor argument of the wrong kind is excluded by the Dafny types.
- `Node.data` and other free-form per-node payload: it is never read by the modelled operations.
- Object identity: nodes and relations are indices into an arena, and NodeTuple objects are values. Aliasing between a list returned by `Node.rel`/`Graph.rel` and the list stored in the graph, or between `NodeList(NodeList)` and its argument, is therefore not modelled; the returned lists are copies.
- Registry.NodeRegistry.Get: built on the corrected load, which binds one value per placeholder. As written, a load whose pending names are not each stored exactly once raises a binding error and leaves the registry unchanged; Hydration.LoadReadings states exactly when the two agree.
- Registry.NodeRegistry.Rel: built on the corrected load, so it does not reproduce the binding error that `get` with load raises as written (see Hydration.LoadReadings).
- Registry.NodeList.Load: built on the corrected load, so it does not reproduce the binding error that `dbc.load` raises as written (see Hydration.LoadReadings).
- Registry.NodeList.Rel: built on the corrected load for its final `load()`, so it does not reproduce the binding error raised as written (see Hydration.LoadReadings). A relation argument of None or an empty list stands for every falsy `name`, including `""`.
- Registry.ListLoadHydrates: states the corrected load's effect; as written the same call may raise a binding error instead (see Hydration.LoadReadings).
- Registry.NodeList.Append: built on line 67 corrected to pass the registry as the registry; as written, string names are dropped (Nodes.AppendAsWritten, Nodes.AppendAsWrittenDropsNames).
- LegacyState.PrepareFacts: built on the corrected createRelationByName, which stores the lowercased name. As written a name with an upper-case letter is stored as given and never found again, so createBijection("arin", ["ross"], "Friends") creates two relations named "Friends" and `rel("Friends")` finds neither (LegacyState.AsWrittenFriendsTwice).
- LegacyState.CreateRelationshipPlaces: built on the corrected createRelationByName; as written, with an upper-case relation name the pairs are placed under relations that later lookups never find.
- LegacyState.BijectionSymmetric: built on the corrected createRelationByName; as written, a name with an upper-case letter yields two distinct relations, one per direction.
- Legacy.Graph.Prepare: calls the corrected createRelationByName; LegacyState.CreateRelationByNameReadings states where the two readings agree.
- Legacy.Graph.CreateRelationship: calls the corrected createRelationByName, so relation names are stored lowercased.
- Legacy.Graph.CreateBijection: calls the corrected createRelationByName, so one relation serves both directions even for a name with upper-case letters.
- Legacy.Graph.CreateOneWay: calls the corrected createRelationByName, so the relation is stored under its lowercased name.
- Legacy.Graph.CreateRelationship, Legacy.Graph.CreateBijection, Legacy.Graph.CreateOneWay: a node list argument must belong to the graph (`ArgIn`); the KeyError the source raises when a NodeList of another Graph is passed (pylog.py:106) is not modelled.
- Hydration.Load: the stored relationship rows are fetched in the order they are stored. SQL gives no order without `ORDER BY`, so a different row order, which can change list order and accumulated weights, is not modelled.
- Registry.NodeRegistry.Get: the `data` argument and the `coerceType` calls on the flags are left out. The flags are booleans in the model, and node payload is not modelled.
- Seqs.Lower: only ASCII letters are lowercased; Python's full Unicode case mapping is not modelled.
- Settings: `ACCUMULATE_RELATIONSHIPS` and the load flag are plain booleans given to the registry. The copying of the settings object is not modelled.
- Arguments Python would refuse as unhashable (a list used as a dictionary key in `get`) are excluded by the Dafny types.
- Frequency.Flatten: nesting is a datatype of leaves and groups. Flattening an arbitrary object that defines `__iter__` is not modelled.
- RegistryState.RelateSpec: the `_connects` node is interned just before the loop that first needs it. The source interns it inside the nested call, so a relate that fails part-way could leave different interning orders. Relate never fails part-way after preparation, so the end states agree.
- LegacyState.Limit, LegacyState.Exclude: that the order of the list is kept is stated by their definitions as in-order filters, and no separate lemma restates it.
- Integer weights are unbounded, like Python's `int`; floating point weights are refused by `enforceType` just as in the source.

## Findings

| source | as written | input that shows it | evidently intended | confidence | as-written member | corrected member |
|---|---|---|---|---|---|---|
| nodes.py:58-69 | `append` calls `tuplate(node, self.parent)`, so the registry lands in the `create` parameter and string names are never resolved | appending the known name `"a"` to any list with accumulation on: nothing is appended, yet `True` is returned | names resolve through the list's registry and are appended with weight 1 (the presence test, `contains`, still normalises without a registry) | not executed | Nodes.AppendAsWrittenDropsNames | Nodes.AppendResolvesNames |
| dbc.py:137-159 | the relationship query has one placeholder per pending name (`nameMask`) but is bound to the list of stored IDs | `load(["a","b"])` with only `"a"` stored: 2 placeholders, 1 value, so SQLite raises a binding error | one placeholder per stored ID, so every stored relationship of a pending node is loaded | not executed | Hydration.LoadBindingMismatch | Hydration.LoadHydrates |
| pylog.py:50-66 | `getRelationByName` lowercases its query, but `createRelationByName` stores the name as given | `createRelationByName("Friends")` twice: the first call stores `"Friends"`, the second misses and appends a second relation | the relation is created under the lowercased name, so a second call finds it | not executed | LegacyState.AsWrittenFriendsTwice | LegacyState.CreateRelationByNameIdempotent |
