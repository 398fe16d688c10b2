# databeakers `Recipe` engine and `Retry` wrapper in Dafny

This project models the pipeline engine of databeakers: a `Recipe` holds a directed graph
whose nodes are named beakers (stores of items keyed by id) and whose edges carry
transforms. Seeds fill beakers; `run_once` walks the graph in topological order and
pushes every item of a beaker through each out-edge into the target beaker under the same
id, routing exceptions to error beakers. It also models the `Retry` edge wrapper.

Layout, one module per file:

- `values.dfy` (`Values`): Python-level values and their truthiness, exceptions with their
  base classes, so that `isinstance` and `except Exception` can be modelled, and callables.
- `text.dfy` (`Text`): Python string ordering (for the `(rank, name)` sort) and `str(int)`
  (for the wrapper name).
- `beakers.dfy` (`Beakers`): a beaker as ids in insertion order plus an id-to-item map.
  It covers `add_item` (with and without an id), `id_set`, `len` and `reset`.
- `graphs.dfy` (`Graphs`): the networkx `DiGraph` as insertion-ordered nodes and edges,
  with `add_node`, `add_edge`, `in_edges`, `out_edges` and "is a topological order".
- `pass.dfy` (`Pass`): one `run_once` pass as functions, built up per item, per edge, per
  node and over the start/end window. Also the lemmas about what a pass does.
- `display.dfy` (`Display`): the records `graph_data` returns, their `(rank, name)` sort,
  and the ranking invariant.
- `recipe.dfy` (`Recipes`): `if_cond_true`/`if_cond_false`, the `Transform` defaults, and
  the seed bookkeeping. Also the `Recipe` class, whose methods update its graph, beakers,
  seeds and `_seeds` table in place.
- `retry.dfy` (`Retrying`): the `Retry` attempt loop and the wrapper name.

Each loop of a `Recipe` method is a method proved against a specification function:

- `RunOnce` and `RunNodeEdges` loop over the recipe's own beakers, against
  `Pass.RunOnceSpec` and `Pass.RunEdges`;
- `RunItems` hands the item loop to `ItemLoop`, proved against `Pass.EdgeItems`;
- `GraphData` hands its loops to `CollectGraphData`, proved against `Display.Ranked` and the sort;
- `RunSeed` is proved against `Beakers.AddAll`;
- `ListSeeds` hands its loop to `GroupSeeds`, proved against `SeedsOf`.

`ItemLoop`, `CollectGraphData` and `GroupSeeds` work on the values of the recipe's fields.
The class method passes the fields in and assigns any new beakers back.

The lemmas about those functions carry the behavioural claims.

One `run_once` call is one pass. "Already processed" means the id is present in both
beakers. An exception either goes to the first matching error beaker or aborts the pass.

Seeded items get their ids from a recipe-wide counter `nextId`, standing in for uuids. The
class invariant keeps the counter above every id in every beaker, so a seeded id is new in
the whole recipe, not only in the beaker being seeded. A pass never creates an id: it only
copies ids from a source beaker into targets and error beakers.

## Model

| member | source | states |
|---|---|---|
| Recipes.IfCondTrue | src/beakers/recipe.py:45-46 | a truthy result is the item itself, and only when the condition held |
| Recipes.IfCondFalse | src/beakers/recipe.py:49-50 | a truthy result is the item itself, and only when the condition failed |
| Recipes.BranchesSplit | src/beakers/recipe.py:45-50 | for any `(data, cond)`, exactly one of `if_cond_true` / `if_cond_false` returns `data` and the other returns None |
| Recipes.ConditionalRoutes | src/beakers/recipe.py:120-144 | the condition edge produces `(data, cond(data))` or re-raises; the if-true branch then passes exactly the truthy-condition items and the if-false branch exactly the others |
| Recipes.CondWrapper | src/beakers/recipe.py:128 | the condition edge's function is a lambda; it raises exactly when the condition raises, and otherwise returns a pair whose first part is the item |
| Recipes.CondName | src/beakers/recipe.py:120-123 | the condition beaker's name starts with `cond-` and the source beaker's name, so it differs from the source beaker |
| Recipes.MakeTransform | src/beakers/recipe.py:97-105 | the stored transform keeps the function; its name is the explicit name, else the function's name, with `"<lambda>"` turned into `"λ"`; a missing error map becomes empty |
| Recipes.Recipe.constructor | src/beakers/recipe.py:54-68 | empty graph, beakers and seeds; the `_seeds` table holds whatever the database already stored |
| Recipes.Recipe.AddBeaker | src/beakers/recipe.py:75-86 | the name becomes a graph node and maps to a fresh beaker (temporary when the datatype is None), which is returned; edges, seeds and the table are untouched |
| Recipes.Recipe.AddTransform | src/beakers/recipe.py:88-110 | the edge from -> to carries exactly the new transform; every other node pair's edge data is unchanged; the graph stays well formed |
| Recipes.Recipe.AddConditional | src/beakers/recipe.py:112-144 | adds temporary beakers `cond-…` and `if_true`, the condition edge named after the condition beaker, and the if-true edge; adds the if-false edge only for a non-empty `if_false` (which replaces the if-true edge when both name the same beaker); every other node pair's edge is unchanged and the old nodes keep their order |
| Recipes.Recipe.AddSeed | src/beakers/recipe.py:148-154 | registers or replaces the seed under its name; a new name is listed last |
| Recipes.InfoFor | src/beakers/recipe.py:159-161 | a seed's record is its `_seeds` row (count and import time) or a blank record with 0 items and no import time |
| Recipes.SeedsOf | src/beakers/recipe.py:156-163 | the list for a beaker holds exactly the records of the registered seeds of that beaker |
| Recipes.SeedsOfListsOnce | src/beakers/recipe.py:158-162 | each seed appears at most once in its beaker's list |
| Recipes.GroupSeeds | src/beakers/recipe.py:156-163 | the grouping loop has an entry exactly for beakers with at least one seed, and that entry is the beaker's `SeedsOf` list |
| Recipes.SeedsOfSnoc | src/beakers/recipe.py:158-162 | one more registered seed appends its record to its own beaker's list and leaves every other list as it was |
| Recipes.Recipe.ListSeeds | src/beakers/recipe.py:156-163 | the result has an entry exactly for beakers with at least one seed, and that entry is the beaker's seed list in registration order |
| Recipes.SeedRefusal | src/beakers/recipe.py:175-182 | `run_seed` proceeds exactly when the seed is known, its beaker exists and it has no row; otherwise it gives SeedError "Seed … not found", KeyError for the beaker, or SeedError "… already run at …", checked in that order |
| Recipes.SeedItems | src/beakers/recipe.py:185-187 | the `add_item` loop over the yielded items ends with exactly the beaker `AddAll` describes, and counts exactly the yielded items |
| Recipes.Recipe.RunSeed | src/beakers/recipe.py:174-195 | a refused seed changes nothing and raises the refusal; otherwise every yielded item is added and a row recorded with `num_items` equal to the number yielded; the k-th item is stored under the k-th new counter id, and no other beaker holds any of the new ids; a seed function that raises keeps its added items and records no row; other rows never change; after a success the same seed is refused as already run |
| Recipes.SeedingFresh | src/beakers/recipe.py:185-187 | seeding one beaker from the counter keeps every beaker well formed, leaves every id below the advanced counter, stores the items in order under the new ids and leaves every other beaker's ids below the old counter |
| Beakers.AddAll | src/beakers/recipe.py:185-187 | seeding yields a well-formed beaker with the same name and type |
| Beakers.AddFirstStep | src/beakers/recipe.py:186-187 | one more `add_item` of the next item under the next counter id goes at the end of the ids, extending the seeded beaker by exactly that item |
| Beakers.AddAllHoldsAll | src/beakers/recipe.py:185-187 | after seeding, the ids are the old ones followed by `next`, `next + 1`, ..., and the id `next + k` holds the k-th yielded item |
| Beakers.AddAllKeeps | src/beakers/recipe.py:185-187 | seeding keeps every item already in the beaker |
| Beakers.AddAllBelow | src/beakers/recipe.py:185-187 | after seeding, every id in the beaker is below the advanced counter |
| Recipes.Recipe.Reset | src/beakers/recipe.py:199-209 | the `_seeds` table is empty, every beaker keeps its name and type with length 0, and every seed whose beaker exists can be run again |
| Recipes.MaxSourceRank | src/beakers/recipe.py:249-252 | the rank loop yields the largest rank among the predecessors, or 0 without any |
| Recipes.CollectedStep | src/beakers/recipe.py:239-257 | giving the next node of the topological order rank `1 + max(predecessor ranks)` keeps every edge rising in rank and every rank either 1 or one above a predecessor |
| Recipes.RankedStep | src/beakers/recipe.py:249-253 | a record for the next node with rank one above the largest rank among its sources keeps the records ranked |
| Recipes.DescribeNext | src/beakers/recipe.py:239-257 | one pass of the node loop appends a record for the next node of the order, ranked and described from its beaker, and the collected records stay ranked |
| Recipes.CollectGraphData | src/beakers/recipe.py:236-260 | the loops of `graph_data`: KeyError exactly when some node has no beaker, and then for the first such node in the order; otherwise each node once, sorted by `(rank, name)`, ranked, with its temp flag, length and out-edges |
| Recipes.RankedExtend | src/beakers/recipe.py:249-253 | a node placed after all its predecessors, above each of them and 1 or one above one of them, keeps the ranking valid |
| Recipes.NoEdgeBack | src/beakers/recipe.py:239 | in a topological order no edge leads back to the same or an earlier node |
| Recipes.CollectedAll | src/beakers/recipe.py:239-257 | after the loop every graph node has exactly one record, built from its beaker's type and length and its out-edges in order |
| Display.Insert | src/beakers/recipe.py:260 | inserting a record with a new name into a sorted list gives a sorted list of the same records plus that one |
| Display.SortByRankName | src/beakers/recipe.py:260 | the sort returns the same records ordered strictly by `(rank, name)` |
| Display.NodeLtTransitive | src/beakers/recipe.py:260 | tuple order on `(rank, name)` is transitive |
| Display.NodeLtTotal | src/beakers/recipe.py:260 | two records with different names are ordered one way or the other |
| Recipes.SortedKeeps | src/beakers/recipe.py:260 | sorting keeps the ranking and the per-node contents |
| Recipes.Recipe.GraphData | src/beakers/recipe.py:236-260 | raises KeyError exactly when some node has no beaker, and then for the first such node in the order; otherwise lists each node once, sorted by `(rank, name)`, with every edge going to a strictly higher rank, each rank 1 or one above a predecessor, and the right temp flag, length and out-edges |
| Text.StrLtTransitive | src/beakers/recipe.py:260 | Python string `<` is transitive |
| Text.StrLtTotal | src/beakers/recipe.py:260 | different Python strings are ordered one way or the other |
| Text.StrLtIrreflexive | src/beakers/recipe.py:260 | no string is below itself |
| Graphs.AddNode | src/beakers/recipe.py:81 | `add_node` keeps the edges and the earlier nodes in order, and the name is a node afterwards |
| Graphs.AddEdge | src/beakers/recipe.py:106-110 | `add_edge` keeps the earlier nodes, makes both endpoints nodes, and the edge with its transform is present, with at most one edge added |
| Graphs.AddEdgeSets | src/beakers/recipe.py:106-110 | after `add_edge(u, v, t)` the edge u -> v carries exactly `t` and every other pair's data is unchanged |
| Graphs.AddEdgeShape | src/beakers/recipe.py:106-110 | `add_edge` adds missing endpoints after the existing nodes and keeps one edge per node pair |
| Graphs.AddNodeKeeps | src/beakers/recipe.py:81 | `add_node` leaves edges and earlier nodes as they were |
| Graphs.OutEdges | src/beakers/recipe.py:287 | the out-edges of u are exactly the edges starting at u |
| Graphs.InEdges | src/beakers/recipe.py:250 | the in-edges of v are exactly the edges ending at v |
| Pass.Handler | src/beakers/recipe.py:321-339 | an exception is handled exactly when `except Exception` catches it and some error-map entry's classes match it; it then goes to the beaker of the first matching entry |
| Pass.FirstMatchFrom | src/beakers/recipe.py:322-326 | the chosen entry matches and no earlier entry does; no match means no entry matches |
| Pass.HandleRaised | src/beakers/recipe.py:321-339 | an exception is swallowed exactly when a handler matches and its error beaker exists; then that beaker holds the item's `ErrorType` record under the item's id and every other beaker is unchanged; otherwise nothing changes and the raised exception is the original one when no handler matches, or a KeyError for the missing error beaker |
| Values.ErrorFor | src/beakers/recipe.py:329-333 | the `ErrorType` record is truthy and keeps the item and `str(e)` |
| Pass.ItemStep | src/beakers/recipe.py:317-339 | one item keeps every beaker name and keeps every beaker well formed |
| Pass.ItemStepGrows | src/beakers/recipe.py:317-339 | one item removes no id from any beaker |
| Pass.EdgeItems | src/beakers/recipe.py:314-339 | the item loop keeps every beaker name and keeps every beaker well formed |
| Pass.EdgeItemsGrows | src/beakers/recipe.py:314-339 | the item loop removes no id from any beaker |
| Pass.RunEdge | src/beakers/recipe.py:290-339 | one edge keeps every beaker name and keeps every beaker well formed |
| Pass.RunEdgeGrows | src/beakers/recipe.py:290-339 | one edge removes no id from any beaker |
| Pass.RunEdges | src/beakers/recipe.py:287-289 | a node's out-edges keep every beaker name and keep every beaker well formed |
| Pass.RunEdgesGrows | src/beakers/recipe.py:287-289 | a node's out-edges remove no id from any beaker |
| Pass.RunNodes | src/beakers/recipe.py:273-289 | the selected nodes keep every beaker name and keep every beaker well formed |
| Pass.RunNodesGrows | src/beakers/recipe.py:273-289 | the selected nodes remove no id from any beaker |
| Pass.RunOnceSpec | src/beakers/recipe.py:264-339 | a pass keeps every beaker name and keeps every beaker well formed |
| Pass.RunOnceGrows | src/beakers/recipe.py:264-339 | a pass removes no item id from any beaker |
| Pass.ItemStepBelow | src/beakers/recipe.py:317-339 | one item writes only under its own id, so every id stays below the counter |
| Pass.EdgeItemsBelow | src/beakers/recipe.py:314-339 | the item loop creates no id: every id stays below the counter |
| Pass.RunOnceBelow | src/beakers/recipe.py:264-339 | a pass creates no id: every id stays below the counter, so the recipe's invariant survives `run_once` |
| Recipes.Recipe.RunOnce | src/beakers/recipe.py:264-339 | the beakers after the pass and the exception that stopped it are exactly those of `RunOnceSpec` on the beakers before it; graph, seeds and table are unchanged |
| Recipes.Recipe.RunNodeEdges | src/beakers/recipe.py:287-289 | one node's out-edges run in order, stopping at the first exception |
| Recipes.Recipe.RunOneEdge | src/beakers/recipe.py:290-294 | a missing source or target raises KeyError (source first); otherwise the item loop runs over the source as it was, skipping ids in both beakers |
| Recipes.Recipe.RunItems | src/beakers/recipe.py:314-339 | the item loop's beakers and exception are exactly those of `EdgeItems` |
| Recipes.ItemLoop | src/beakers/recipe.py:314-339 | the loop over a snapshot of the source items, skipping the given ids and stopping at the first escaping exception, ends with exactly the beakers and exception of `EdgeItems` |
| Pass.SelectNodes | src/beakers/recipe.py:270-284 | the processed nodes are nodes of the order, no more of them than the order has, and never the end beaker when one is given (None and "" count as not given) |
| Pass.NeverStarted | src/beakers/recipe.py:270-281 | a start beaker that never occurs selects no node |
| Pass.NeverStartedNoChange | src/beakers/recipe.py:270-284 | if the start beaker never occurs the pass changes nothing and raises nothing |
| Pass.SkipsToStart | src/beakers/recipe.py:273-281 | nodes before the first occurrence of the start beaker are skipped, and the pass runs from there as if started |
| Pass.StopsAtEnd | src/beakers/recipe.py:282-284 | once started, the pass takes exactly the nodes before the first occurrence of the end beaker |
| Pass.EdgeRecordsOutcomes | src/beakers/recipe.py:314-336 | after an edge that did not abort, every source id not yet in the target holds the transform's truthy result in the target, or its `ErrorType` record in the first matching error beaker, or nothing when the result was falsy |
| Pass.EdgeItemsRecords | src/beakers/recipe.py:314-336 | the same, for every unskipped id of the item loop |
| Pass.EdgeLeavesAlone | src/beakers/recipe.py:294-316 | an id already in both beakers, or one whose item writes nothing, holds the same in every beaker after the edge |
| Pass.EdgeItemsElsewhere | src/beakers/recipe.py:314-320 | the item loop changes no id it skips or that writes nothing |
| Pass.EdgeItemsOnlyTargets | src/beakers/recipe.py:318-335 | the item loop changes only the target beaker and the error beakers |
| Pass.EdgeAborts | src/beakers/recipe.py:292-339 | an edge that stops raises KeyError for a missing source (checked first) or target beaker, or the exception of a source item not yet in the target that no error-map entry handles (or whose error beaker is missing); every unprocessed item before that one keeps its recorded outcome (nothing is rolled back), and the items after it are untouched |
| Pass.EdgeItemsAborts | src/beakers/recipe.py:321-339 | an item loop that stops does so at an unskipped item whose exception is unhandled; every unskipped item before it keeps its recorded outcome in the final beakers, and the items after it are untouched |
| Pass.EdgeIdempotent | src/beakers/recipe.py:294-316 | running an edge a second time with the same deterministic transform changes nothing and raises nothing, provided the first run completed, the edge is not a self-loop and no error beaker is its source |
| Pass.EdgeItemsQuiet | src/beakers/recipe.py:314-316 | an item loop in which every unskipped item is already recorded changes nothing |
| Pass.ItemStepQuiet | src/beakers/recipe.py:317-336 | re-processing an item whose outcome is already recorded changes nothing |
| Beakers.AddItem | src/beakers/recipe.py:320 | `add_item(item, id)` stores the item under the id and appends the id unless it was already there |
| Beakers.AddItemSame | src/beakers/recipe.py:320 | re-adding the item an id already holds changes nothing |
| Beakers.NewBeaker | src/beakers/recipe.py:82-85 | a new beaker has the given name and type and no items |
| Beakers.Emptied | src/beakers/recipe.py:206 | `reset()` leaves the beaker's name and type with no items |
| Values.Truthy | src/beakers/recipe.py:45-50 | Python truthiness of the values an edge sees: None and False are falsy; pydantic models, `ErrorType` records and pairs are truthy (the value domain has no numbers, strings or containers) |
| Values.IsInstance | src/beakers/recipe.py:326 | `isinstance(e, error_types)`: the exception's class or one of its bases is in the tuple |
| Values.IsException | src/beakers/recipe.py:321 | `except Exception` catches exactly the exceptions with `Exception` among their classes |
| Values.TypeErrorFor | src/beakers/recipe.py:45-50 | the TypeError raised by subscripting a non-tuple is caught by `except Exception` and keeps its message |
| Recipes.IfCondTrueCall | src/beakers/recipe.py:45-46 | `if_cond_true` raises a TypeError exactly when its argument is not a pair; a truthy result is the pair's item and its condition is truthy |
| Recipes.IfCondFalseCall | src/beakers/recipe.py:49-50 | `if_cond_false` raises a TypeError exactly when its argument is not a pair; a truthy result is the pair's item and its condition is falsy |
| Recipes.Describe | src/beakers/recipe.py:242-257 | a node's record has its name, the given rank, the beaker's length and temporariness, and only edges leaving the node, each shown with its target and transform |
| Display.EdgeViews | src/beakers/recipe.py:255-257 | one view per out-edge, in order, each with the edge's target and transform |
| Graphs.IsTopologicalOrder | src/beakers/recipe.py:239 | an order with every node exactly once and every edge's source before its target |
| Graphs.EdgeData | src/beakers/recipe.py:287-290 | the edge's transform exists exactly when the graph has an edge u -> v, and that edge carries it |
| Beakers.LenIsIdCount | src/beakers/recipe.py:244-245 | `len(beaker)` is the number of ids `id_set()` reports |
| Beakers.IsTemp | src/beakers/recipe.py:244 | a beaker registered without a model is a `TempBeaker` |
| Values.KeyErrorFor | src/beakers/recipe.py:179 | a missing dictionary key raises a KeyError, which `except Exception` catches |
| Retrying.Retry | src/databeakers/wrappers.py:103-120 | at most `retries + 1` calls; every call before the last was caught; the result is the last call's outcome; fewer calls happen only when the last one returned or raised an uncaught exception; a negative count makes no call and returns None |
| Retrying.RetryAllFail | src/databeakers/wrappers.py:110-120 | when every attempt fails, exactly `retries + 1` calls are made and the last attempt's exception is raised |
| Retrying.RetryFirstSuccess | src/databeakers/wrappers.py:111-113 | the first success at attempt k is returned after exactly k + 1 calls |
| Retrying.RetryName | src/databeakers/wrappers.py:122 | the name starts with `Retry(`, the wrapped name and `, `, and ends with `)`; that the count between them can be read back is stated by `RetryNameDeterminesRetries` |
| Retrying.RetryNameDeterminesRetries | src/databeakers/wrappers.py:122 | the name `"Retry(<name>, <retries>)"` determines the retry count |
| Text.IntToStringInjective | src/databeakers/wrappers.py:122 | different integers print differently |
| Text.NatToStringRoundTrip | src/databeakers/wrappers.py:122 | reading back the printed digits of n gives n |

## Left out

- `cli.py`, `show`, `__repr__` and every `typer.secho` and log message: these are output only.
- SQLite: `_seeds` is an in-memory map from seed name to its row. `CURRENT_TIMESTAMP` is the
  `now` parameter of `RunSeed`. `_db_get_seed` reads that map.
- `SqliteBeaker` and `TempBeaker` are not part of this model. A beaker is an abstract
  insertion-ordered id-to-item store. The ids of seeded items come from the recipe-wide
  counter `nextId` instead of uuid generation: like a uuid, each is new in every beaker.
- Recipes.Recipe.AddBeaker: returns a value copy of the new beaker, not the live object
  the source returns. Items the caller adds through that object are not modelled; items
  reach beakers only through `RunSeed` and `RunOnce`.
- Recipes.Recipe.AddBeaker: every registration starts empty, the first one included. A
  `SqliteBeaker` opened over a table that already holds rows would see them, as a recipe
  reopened over an existing database does (its seeds table is the constructor's `stored`).
- The node attribute `datatype` on the graph is not modelled. Only the beaker's type is.
- `networkx.topological_sort` is an `order` parameter that must be a topological order of
  the graph. A cyclic graph, where networkx raises, is outside the model. The `DiGraph`
  itself (`add_node`, `add_edge`, `in_edges`, `out_edges`) is modelled in `graphs.dfy`.
- Recipes.Recipe.GraphData: the side effect of writing `"to_beaker"` into each edge's
  attribute dictionary is replaced by a separate `EdgeView` record.
- Recipes.Recipe.ListSeeds: the result is a map, so the key order of the Python dictionary
  (first appearance of each beaker) is not stated. The order within each list is stated.
- `from_beaker.items()` is taken as a snapshot when an edge starts. A store iterated live
  could also yield items that the edge itself adds to its own source.
- Transforms are deterministic functions of the item. asyncio and the wrapping of
  coroutines into plain calls (`recipe.py:268`, `306-312`) are left out.
- Retrying.Retry: `edge_func` is assumed to be awaitable. A plain function's `TypeError` on
  `await` is not modelled. `callable_name` (in `_utils`, which is not part of this model) is
  taken to be the callable's name.
- `RateLimit` and `AdaptiveRateLimit` are left out: they depend on wall-clock time,
  sleeping and float rate arithmetic.
- Pydantic validation and `Seed.__str__` are left out.
- Pass.EdgeIdempotent: idempotence is proved per edge, not for a whole second pass, and a
  whole second pass is not always quiet. An error beaker can have an out-edge that comes
  earlier in the order than the edge that fills it. Take the order [E, X, A, B], an edge
  A -> B that always raises into error beaker E, and an identity edge E -> X. The first
  pass puts E's records there only after E -> X has run, so the second pass copies them
  into X.
