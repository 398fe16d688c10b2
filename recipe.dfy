/** The `Recipe` pipeline engine: a graph of beakers joined by transforms, seeds that fill
    beakers, and the pass that pushes items along every edge. */
module Recipes {
  import opened Values
  import opened Beakers
  import opened Graphs
  import opened Pass
  import opened Display

  // ---------------------------------------------------------------------------
  // Conditional routing

  /** `if_cond_true((data, cond))`: only an item whose condition held can come out truthy,
      and then it comes out unchanged. */
  function IfCondTrue(data: Value, cond: Value): (r: Value)
    ensures Truthy(r) ==> r == data && Truthy(cond)
  {
    if Truthy(cond) then data else NoneValue
  }

  /** `if_cond_false((data, cond))`: only an item whose condition failed can come out
      truthy, and then it comes out unchanged. */
  function IfCondFalse(data: Value, cond: Value): (r: Value)
    ensures Truthy(r) ==> r == data && !Truthy(cond)
  {
    if !Truthy(cond) then data else NoneValue
  }

  /** Exactly one of the two branches passes the data on; the other yields None. */
  lemma BranchesSplit(data: Value, cond: Value)
    ensures IfCondTrue(data, cond) == data <==> Truthy(cond) || data == NoneValue
    ensures IfCondFalse(data, cond) == data <==> !Truthy(cond) || data == NoneValue
    ensures (IfCondTrue(data, cond) == data && IfCondFalse(data, cond) == NoneValue)
         || (IfCondFalse(data, cond) == data && IfCondTrue(data, cond) == NoneValue)
  {
  }

  /** Subscripting a value that is not a tuple. */
  const NotSubscriptable: Exc := TypeErrorFor("object is not subscriptable")

  /** `if_cond_true` as a callable, taking the `(data, cond)` pair the condition edge
      produced: subscripting anything but a pair raises a TypeError. */
  function IfCondTrueCall(v: Value): (o: Outcome)
    ensures o.Raised? <==> !v.Tuple2?
    ensures o.Raised? ==> IsInstance(o.exc, {"TypeError"}) && IsException(o.exc)
    ensures o.Returned? && Truthy(o.value) ==> o.value == v.fst && Truthy(v.snd)
  {
    if v.Tuple2? then Returned(IfCondTrue(v.fst, v.snd)) else Raised(NotSubscriptable)
  }

  /** `if_cond_false` as a callable: subscripting anything but a pair raises a TypeError. */
  function IfCondFalseCall(v: Value): (o: Outcome)
    ensures o.Raised? <==> !v.Tuple2?
    ensures o.Raised? ==> IsInstance(o.exc, {"TypeError"}) && IsException(o.exc)
    ensures o.Returned? && Truthy(o.value) ==> o.value == v.fst && !Truthy(v.snd)
  {
    if v.Tuple2? then Returned(IfCondFalse(v.fst, v.snd)) else Raised(NotSubscriptable)
  }

  const IfCondTrueFunc: Callable := Callable("if_cond_true", IfCondTrueCall)

  const IfCondFalseFunc: Callable := Callable("if_cond_false", IfCondFalseCall)

  /** `lambda data: (data, condition_func(data))`: it raises exactly when the condition
      raises, and otherwise pairs the item with the condition's result. */
  function CondWrapper(cond: Callable): (w: Callable)
    ensures w.name == LambdaName
    ensures forall data :: w.call(data).Raised? <==> cond.call(data).Raised?
    ensures forall data :: w.call(data).Returned? ==>
      w.call(data).value.Tuple2? && w.call(data).value.fst == data
  {
    Callable(LambdaName, data =>
      match cond.call(data)
      case Returned(c) => Returned(Tuple2(data, c))
      case Raised(e) => Raised(e))
  }

  /** An item the condition accepts reaches the if-true beaker and not the if-false one,
      and the other way round; a condition that raises makes the first edge raise. */
  lemma ConditionalRoutes(cond: Callable, data: Value)
    ensures cond.call(data).Raised? ==> CondWrapper(cond).call(data) == cond.call(data)
    ensures cond.call(data).Returned? ==>
      var pair := Tuple2(data, cond.call(data).value);
      && CondWrapper(cond).call(data) == Returned(pair)
      && (Truthy(cond.call(data).value) ==>
            IfCondTrueFunc.call(pair) == Returned(data) && IfCondFalseFunc.call(pair) == Returned(NoneValue))
      && (!Truthy(cond.call(data).value) ==>
            IfCondFalseFunc.call(pair) == Returned(data) && IfCondTrueFunc.call(pair) == Returned(NoneValue))
  {
  }

  /** The beaker name `add_conditional` creates for the condition's results. */
  function CondName(from: string, cond: Callable): (n: string)
    ensures n != from && "cond-" + from <= n
  {
    if cond.name == LambdaName then "cond-" + from else "cond-" + from + "-" + cond.name
  }

  /** The graph `add_conditional` builds: the condition beaker `c` fed from `from` by `t0`,
      then `c -> ifTrue` by `t1` and, when `ifFalse` is given, `c -> ifFalse` by `t2`. */
  ghost function ConditionalGraph(g: Graph, from: string, c: string, ifTrue: string, ifFalse: string,
                                  t0: Transform, t1: Transform, t2: Transform): Graph
  {
    BranchGraph(FeedGraph(g, from, c, ifTrue, t0), c, ifTrue, ifFalse, t1, t2)
  }

  /** The condition beaker fed from `from`, and the if-true beaker registered. */
  ghost function FeedGraph(g: Graph, from: string, c: string, ifTrue: string, t0: Transform): Graph
  {
    AddNode(AddEdge(AddNode(g, c), from, c, t0), ifTrue)
  }

  /** The feeding edge carries its transform; nothing else changes. */
  lemma FeedGraphEdges(g: Graph, from: string, c: string, ifTrue: string, t0: Transform)
    ensures EdgeData(FeedGraph(g, from, c, ifTrue, t0), from, c) == Some(t0)
    ensures forall a, b :: !(a == from && b == c) ==>
      EdgeData(FeedGraph(g, from, c, ifTrue, t0), a, b) == EdgeData(g, a, b)
    ensures g.nodes <= FeedGraph(g, from, c, ifTrue, t0).nodes
  {
    var g0 := AddNode(g, c);
    assert forall a, b :: EdgeData(g0, a, b) == EdgeData(g, a, b);
    var g1 := AddEdge(g0, from, c, t0);
    AddEdgeSets(g0, from, c, t0);
    var h := AddNode(g1, ifTrue);
    assert forall a, b :: EdgeData(h, a, b) == EdgeData(g1, a, b);
    assert g.nodes <= g0.nodes <= g1.nodes <= h.nodes;
  }

  /** The branch edges out of the condition beaker. */
  ghost function BranchGraph(h: Graph, c: string, ifTrue: string, ifFalse: string, t1: Transform, t2: Transform): Graph
  {
    var g2 := AddEdge(h, c, ifTrue, t1);
    if ifFalse != "" then AddEdge(g2, c, ifFalse, t2) else g2
  }

  /** The branch edges carry their transforms, the if-false one winning on a shared target;
      nothing else changes. */
  lemma BranchGraphEdges(h: Graph, c: string, ifTrue: string, ifFalse: string, t1: Transform, t2: Transform)
    ensures var r := BranchGraph(h, c, ifTrue, ifFalse, t1, t2);
      && (ifFalse == "" || ifFalse != ifTrue ==> EdgeData(r, c, ifTrue) == Some(t1))
      && (ifFalse != "" ==> EdgeData(r, c, ifFalse) == Some(t2))
      && (forall a, b :: !(a == c && (b == ifTrue || (ifFalse != "" && b == ifFalse))) ==>
            EdgeData(r, a, b) == EdgeData(h, a, b))
      && h.nodes <= r.nodes
  {
    var g2 := AddEdge(h, c, ifTrue, t1);
    AddEdgeSets(h, c, ifTrue, t1);
    if ifFalse != "" {
      var g3 := AddEdge(g2, c, ifFalse, t2);
      AddEdgeSets(g2, c, ifFalse, t2);
      assert h.nodes <= g2.nodes <= g3.nodes;
    }
  }

  /** The conditional's three edges carry their transforms (the if-false one wins when
      both branches name one beaker), every other edge is unchanged, and the old nodes
      keep their order. */
  lemma ConditionalGraphEdges(g: Graph, from: string, c: string, ifTrue: string, ifFalse: string,
                              t0: Transform, t1: Transform, t2: Transform)
    requires from != c
    ensures var r := ConditionalGraph(g, from, c, ifTrue, ifFalse, t0, t1, t2);
      && EdgeData(r, from, c) == Some(t0)
      && (ifFalse == "" || ifFalse != ifTrue ==> EdgeData(r, c, ifTrue) == Some(t1))
      && (ifFalse != "" ==> EdgeData(r, c, ifFalse) == Some(t2))
      && (forall a, b :: !(a == from && b == c) && !(a == c && (b == ifTrue || (ifFalse != "" && b == ifFalse))) ==>
            EdgeData(r, a, b) == EdgeData(g, a, b))
      && g.nodes <= r.nodes
  {
    var h := FeedGraph(g, from, c, ifTrue, t0);
    FeedGraphEdges(g, from, c, ifTrue, t0);
    BranchGraphEdges(h, c, ifTrue, ifFalse, t1, t2);
  }

  // ---------------------------------------------------------------------------
  // Transforms

  /** The `Transform` record `add_transform` stores. */
  function MakeTransform(func: Callable, name: Option<string>, errorMap: Option<seq<ErrorEntry>>): (t: Transform)
    ensures t.func == func
    ensures name.Some? ==> t.name == name.value
    ensures name.None? && func.name != LambdaName ==> t.name == func.name
    ensures name.None? && func.name == LambdaName ==> t.name == "λ"
    ensures errorMap.None? ==> t.errorMap == []
    ensures errorMap.Some? ==> t.errorMap == errorMap.value
  {
    var n := if name.Some? then name.value else if func.name == LambdaName then "λ" else func.name;
    Transform(n, func, if errorMap.Some? then errorMap.value else [])
  }

  // ---------------------------------------------------------------------------
  // Seeds

  /** A registered seed: its beaker, the items its function yields, and the exception it
      raises after them, if any. */
  datatype SeedDef = SeedDef(beakerName: string, items: seq<Value>, failure: Option<Exc>)

  /** A row of the `_seeds` table. */
  datatype SeedRow = SeedRow(beakerName: string, numItems: nat, importedAt: string)

  /** A `Seed` record as `list_seeds` reports it. */
  datatype SeedInfo = SeedInfo(name: string, numItems: nat, importedAt: Option<string>)

  /** The recorded row for a seed, or a blank record when it has not been run. */
  function InfoFor(n: string, log: map<string, SeedRow>): (s: SeedInfo)
    ensures s.name == n
    ensures n in log ==> s.numItems == log[n].numItems && s.importedAt == Some(log[n].importedAt)
    ensures n !in log ==> s.numItems == 0 && s.importedAt.None?
  {
    if n in log then SeedInfo(n, log[n].numItems, Some(log[n].importedAt)) else SeedInfo(n, 0, None)
  }

  /** The records `list_seeds` puts under beaker `b`, in registration order. */
  function SeedsOf(names: seq<string>, seeds: map<string, SeedDef>, log: map<string, SeedRow>, b: string): (r: seq<SeedInfo>)
    ensures forall i :: 0 <= i < |r| ==>
      r[i] == InfoFor(r[i].name, log) && r[i].name in names && r[i].name in seeds && seeds[r[i].name].beakerName == b
    ensures forall k :: 0 <= k < |names| && names[k] in seeds && seeds[names[k]].beakerName == b ==>
      InfoFor(names[k], log) in r
    decreases |names|
  {
    if names == [] then []
    else
      var init, n := names[..|names| - 1], names[|names| - 1];
      assert forall k :: 0 <= k < |init| ==> init[k] == names[k];
      SeedsOf(init, seeds, log, b) + (if n in seeds && seeds[n].beakerName == b then [InfoFor(n, log)] else [])
  }

  ghost predicate NamesOnce(r: seq<SeedInfo>)
  {
    forall i, j :: 0 <= i < j < |r| ==> r[i].name != r[j].name
  }

  /** With distinct seed names, a seed is listed at most once. */
  lemma {:induction false} SeedsOfListsOnce(names: seq<string>, seeds: map<string, SeedDef>, log: map<string, SeedRow>,
                                            b: string)
    requires Distinct(names)
    ensures NamesOnce(SeedsOf(names, seeds, log, b))
    decreases |names|
  {
    if names != [] {
      var init, n := names[..|names| - 1], names[|names| - 1];
      assert Distinct(init);
      SeedsOfListsOnce(init, seeds, log, b);
      var r0 := SeedsOf(init, seeds, log, b);
      var tail := if n in seeds && seeds[n].beakerName == b then [InfoFor(n, log)] else [];
      var r := r0 + tail;
      assert SeedsOf(names, seeds, log, b) == r;
      assert n !in init;
      forall i, j | 0 <= i < j < |r|
        ensures r[i].name != r[j].name
      {
        if j >= |r0| {
          assert r[j] == tail[j - |r0|] && r[j].name == n;
          assert r[i] == r0[i] && r0[i].name in init;
        }
      }
    }
  }

  /** Why `run_seed` refuses to run a seed, checked in the order `run_seed` checks. */
  function SeedRefusal(seeds: map<string, SeedDef>, beakers: map<string, Beaker>, log: map<string, SeedRow>,
                       seedName: string): (r: Option<Exc>)
    ensures r.None? <==> seedName in seeds && seeds[seedName].beakerName in beakers && seedName !in log
    ensures seedName !in seeds ==> r == Some(SeedErrorFor("Seed " + seedName + " not found"))
    ensures seedName in seeds && seeds[seedName].beakerName !in beakers ==>
      r == Some(KeyErrorFor(seeds[seedName].beakerName))
    ensures seedName in seeds && seeds[seedName].beakerName in beakers && seedName in log ==>
      r == Some(SeedErrorFor(seedName + " already run at " + log[seedName].importedAt))
  {
    if seedName !in seeds then Some(SeedErrorFor("Seed " + seedName + " not found"))
    else if seeds[seedName].beakerName !in beakers then Some(KeyErrorFor(seeds[seedName].beakerName))
    else if seedName in log then Some(SeedErrorFor(seedName + " already run at " + log[seedName].importedAt))
    else None
  }

  /** The `for item in seed_func()` loop of `run_seed`: item `k` goes into the beaker under
      the id `next + k`, and `numItems` counts the items. The counter `next` is above every
      id in the beaker, as the recipe keeps it. */
  method SeedItems(b: Beaker, items: seq<Value>, next: Id) returns (beaker: Beaker, numItems: nat)
    requires Beakers.WellFormed(b) && IdsBelow(b, next)
    ensures beaker == AddAll(b, items, next) && numItems == |items|
  {
    beaker := b;
    numItems := 0;
    AddFirstNone(b, items, next);
    while numItems < |items|
      invariant numItems <= |items| && Beakers.WellFormed(beaker)
      invariant beaker == AddFirst(b, items, next, numItems)
    {
      AddFirstStep(b, items, next, numItems);
      beaker := AddItem(beaker, next + numItems, items[numItems]);
      numItems := numItems + 1;
    }
  }

  /** Seeding beaker `name` from the recipe's id counter `next` gives `seeded`: the new ids
      hold the yielded items in order, every other beaker's ids stay below `next`, and the
      counter moves past them. */
  lemma SeedingFresh(bs: map<string, Beaker>, name: string, items: seq<Value>, next: Id,
                     seeded: map<string, Beaker>)
    requires AllWellFormed(bs) && AllBelow(bs, next) && name in bs
    requires seeded == bs[name := AddAll(bs[name], items, next)]
    ensures AllWellFormed(seeded) && AllBelow(seeded, next + |items|)
    ensures HoldsFrom(seeded[name], items, next)
    ensures forall n :: n in seeded && n != name ==> IdsBelow(seeded[n], next)
  {
    AddAllBelow(bs[name], items, next);
    AddAllHoldsAll(bs[name], items, next);
    forall n | n in seeded
      ensures IdsBelow(seeded[n], next + |items|)
      ensures n != name ==> IdsBelow(seeded[n], next)
    {
      if n != name {
        assert seeded[n] == bs[n];
      }
    }
  }

  // ---------------------------------------------------------------------------
  // Display data

  /** The display record of one node. */
  function Describe(g: Graph, bs: map<string, Beaker>, n: string, rank: nat): (r: NodeInfo)
    requires n in bs
    ensures r.name == n && r.rank == rank && r.len == Len(bs[n]) && (r.temp <==> IsTemp(bs[n]))
    ensures forall k :: 0 <= k < |r.edges| ==>
      exists e :: e in g.edges && e.from == n && r.edges[k] == EdgeView(e.to, e.transform)
  {
    NodeInfo(n, IsTemp(bs[n]), Len(bs[n]), EdgeViews(OutEdges(g.edges, n)), rank)
  }

  lemma InEdgeSource(g: Graph, order: seq<string>, i: nat, e: Edge)
    requires IsTopologicalOrder(g, order) && i < |order| && e in g.edges && e.to == order[i]
    ensures e.from in order[..i]
  {
    var k :| 0 <= k < |g.edges| && g.edges[k] == e;
  }

  lemma HasEdgeOf(g: Graph, e: Edge)
    requires e in g.edges
    ensures HasEdge(g, e.from, e.to)
  {
  }

  lemma EdgeOfHas(g: Graph, u: string, v: string) returns (e: Edge)
    requires HasEdge(g, u, v)
    ensures e in g.edges && e.from == u && e.to == v
  {
    e := g.edges[FindEdge(g.edges, u, v).value];
  }

  /** In a topological order no edge leads from a node back to itself or to an earlier node. */
  lemma NoEdgeBack(g: Graph, order: seq<string>, i: nat, k: nat)
    requires IsTopologicalOrder(g, order) && k <= i < |order|
    ensures !HasEdge(g, order[i], order[k])
  {
    assert order[i] !in order[..k];
    forall l | 0 <= l < |g.edges| && g.edges[l].to == order[k]
      ensures g.edges[l].from != order[i]
    {
      assert g.edges[l].from in order[..k];
    }
  }

  /** A node placed after all of its predecessors keeps the ranking valid. */
  lemma RankedExtend(g: Graph, order: seq<string>, infos: seq<NodeInfo>, z: NodeInfo)
    requires IsTopologicalOrder(g, order) && |infos| < |order|
    requires forall k :: 0 <= k < |infos| ==> infos[k].name == order[k]
    requires Ranked(g, infos) && z.name == order[|infos|] && z.rank >= 1
    requires forall x :: x in infos && HasEdge(g, x.name, z.name) ==> x.rank < z.rank
    requires z.rank == 1 || exists x :: x in infos && HasEdge(g, x.name, z.name) && z.rank == x.rank + 1
    ensures Ranked(g, infos + [z])
  {
    NoEdgeIntoList(g, order, infos, z);
    RankedWithNewNode(g, infos, z);
  }

  /** No edge leads from the next node of a topological order to itself or to a node listed before. */
  lemma NoEdgeIntoList(g: Graph, order: seq<string>, infos: seq<NodeInfo>, z: NodeInfo)
    requires IsTopologicalOrder(g, order) && |infos| < |order|
    requires forall k :: 0 <= k < |infos| ==> infos[k].name == order[k]
    requires z.name == order[|infos|]
    ensures !HasEdge(g, z.name, z.name)
    ensures forall x :: x in infos ==> !HasEdge(g, z.name, x.name)
  {
    var i := |infos|;
    NoEdgeBack(g, order, i, i);
    forall x | x in infos
      ensures !HasEdge(g, z.name, x.name)
    {
      var k :| 0 <= k < i && infos[k] == x;
      NoEdgeBack(g, order, i, k);
    }
  }

  /** The ranking facts of `RankedExtend`, once the new node is known to have no edge back. */
  lemma RankedWithNewNode(g: Graph, infos: seq<NodeInfo>, z: NodeInfo)
    requires Ranked(g, infos) && z.rank >= 1
    requires forall x :: x in infos && HasEdge(g, x.name, z.name) ==> x.rank < z.rank
    requires z.rank == 1 || exists x :: x in infos && HasEdge(g, x.name, z.name) && z.rank == x.rank + 1
    requires forall x :: x in infos ==> !HasEdge(g, z.name, x.name)
    requires !HasEdge(g, z.name, z.name)
    ensures Ranked(g, infos + [z])
  {
    var s := infos + [z];
    assert forall y :: y in s <==> y in infos || y == z;
    RisesWithNewNode(g, infos, z, s);
    WitnessedWithNewNode(g, infos, z, s);
  }

  /** Edges still rise in rank once a node with no edge back into the list joins it. */
  lemma RisesWithNewNode(g: Graph, infos: seq<NodeInfo>, z: NodeInfo, s: seq<NodeInfo>)
    requires forall y :: y in s <==> y in infos || y == z
    requires forall x, y :: x in infos && y in infos && HasEdge(g, x.name, y.name) ==> x.rank < y.rank
    requires forall x :: x in infos && HasEdge(g, x.name, z.name) ==> x.rank < z.rank
    requires forall x :: x in infos ==> !HasEdge(g, z.name, x.name)
    requires !HasEdge(g, z.name, z.name)
    ensures forall x, y :: x in s && y in s && HasEdge(g, x.name, y.name) ==> x.rank < y.rank
  {
  }

  /** Every rank above 1 still sits one above a predecessor once the new node joins. */
  lemma WitnessedWithNewNode(g: Graph, infos: seq<NodeInfo>, z: NodeInfo, s: seq<NodeInfo>)
    requires forall y :: y in s <==> y in infos || y == z
    requires forall y :: y in infos ==> y.rank == 1 || exists x :: x in infos && HasEdge(g, x.name, y.name) && y.rank == x.rank + 1
    requires z.rank == 1 || exists x :: x in infos && HasEdge(g, x.name, z.name) && z.rank == x.rank + 1
    ensures forall y :: y in s ==> y.rank == 1 || exists x :: x in s && HasEdge(g, x.name, y.name) && y.rank == x.rank + 1
  {
    forall y | y in s && y.rank != 1
      ensures exists x :: x in s && HasEdge(g, x.name, y.name) && y.rank == x.rank + 1
    {
      var x :| x in infos && HasEdge(g, x.name, y.name) && y.rank == x.rank + 1;
      assert x in s;
    }
  }

  /** The ranking only speaks of which records are listed, not in what order. */
  lemma RankedSameMembers(g: Graph, a: seq<NodeInfo>, b: seq<NodeInfo>)
    requires Ranked(g, a) && forall y :: y in a <==> y in b
    ensures Ranked(g, b)
  {
  }

  /** The records built so far: one per node of `order[..|infos|]`, each ranked as
      `ranks` says, and the ranking valid. */
  ghost predicate Collected(g: Graph, bs: map<string, Beaker>, order: seq<string>, infos: seq<NodeInfo>,
                            ranks: map<string, nat>)
  {
    && |infos| <= |order|
    && (forall k :: 0 <= k < |infos| ==> order[k] in bs && order[k] in ranks)
    && (forall k :: 0 <= k < |infos| ==> infos[k] == Describe(g, bs, order[k], ranks[order[k]]))
    && (forall n :: n in ranks ==> n in order[..|infos|])
    && Ranked(g, infos)
  }

  /** The rank loop of `graph_data`: the largest rank among the sources of `ins`, or 0. */
  method MaxSourceRank(ins: seq<Edge>, ranks: map<string, nat>) returns (rank: nat)
    requires forall l :: 0 <= l < |ins| ==> ins[l].from in ranks
    ensures forall l :: 0 <= l < |ins| ==> ranks[ins[l].from] <= rank
    ensures rank == 0 || exists l :: 0 <= l < |ins| && ranks[ins[l].from] == rank
  {
    rank := 0;
    for j := 0 to |ins|
      invariant forall l :: 0 <= l < j ==> ranks[ins[l].from] <= rank
      invariant rank == 0 || exists l :: 0 <= l < j && ranks[ins[l].from] == rank
    {
      if ranks[ins[j].from] > rank {
        rank := ranks[ins[j].from];
      }
    }
  }

  /** Every predecessor of the next node in a topological order already has a rank. */
  lemma SourcesRanked(g: Graph, bs: map<string, Beaker>, order: seq<string>, infos: seq<NodeInfo>,
                      ranks: map<string, nat>)
    requires IsTopologicalOrder(g, order) && Collected(g, bs, order, infos, ranks) && |infos| < |order|
    ensures var ins := InEdges(g.edges, order[|infos|]); forall l :: 0 <= l < |ins| ==> ins[l].from in ranks
  {
    var ins := InEdges(g.edges, order[|infos|]);
    forall l | 0 <= l < |ins|
      ensures ins[l].from in ranks
    {
      InEdgeSource(g, order, |infos|, ins[l]);
      var k :| 0 <= k < |infos| && order[k] == ins[l].from;
    }
  }

  /** The rank loop's result bounds every predecessor already collected. */
  lemma RankAbove(g: Graph, order: seq<string>, infos: seq<NodeInfo>, ranks: map<string, nat>, ins: seq<Edge>,
                  rank: nat)
    requires |infos| < |order| && ins == InEdges(g.edges, order[|infos|])
    requires forall k :: 0 <= k < |infos| ==> order[k] in ranks && infos[k].name == order[k] && infos[k].rank == ranks[order[k]]
    requires forall l :: 0 <= l < |ins| ==> ins[l].from in ranks && ranks[ins[l].from] <= rank
    ensures forall x :: x in infos && HasEdge(g, x.name, order[|infos|]) ==> x.rank <= rank
  {
    forall x | x in infos && HasEdge(g, x.name, order[|infos|])
      ensures x.rank <= rank
    {
      var k :| 0 <= k < |infos| && infos[k] == x;
      assert x.name == order[k] && x.rank == ranks[order[k]];
      var e := EdgeOfHas(g, x.name, order[|infos|]);
      var l :| 0 <= l < |ins| && ins[l] == e;
    }
  }

  /** A non-zero result of the rank loop is the rank of a collected predecessor. */
  lemma RankWitness(g: Graph, order: seq<string>, infos: seq<NodeInfo>, ranks: map<string, nat>, rank: nat)
    requires |infos| < |order| && forall n :: n in ranks ==> n in order[..|infos|]
    requires forall k :: 0 <= k < |infos| ==> order[k] in ranks && infos[k].name == order[k] && infos[k].rank == ranks[order[k]]
    requires var ins := InEdges(g.edges, order[|infos|]);
      exists l :: 0 <= l < |ins| && ins[l].from in ranks && ranks[ins[l].from] == rank
    ensures exists x :: x in infos && HasEdge(g, x.name, order[|infos|]) && x.rank == rank
  {
    var ins := InEdges(g.edges, order[|infos|]);
    var l :| 0 <= l < |ins| && ins[l].from in ranks && ranks[ins[l].from] == rank;
    var k :| 0 <= k < |infos| && order[k] == ins[l].from;
    HasEdgeOf(g, ins[l]);
    assert infos[k].name == order[k] && infos[k].rank == rank;
    assert infos[k] in infos;
  }

  /** Appending a record for the next node, with its rank stored, keeps the bookkeeping. */
  lemma CollectedFrame(g: Graph, bs: map<string, Beaker>, order: seq<string>, infos: seq<NodeInfo>,
                       ranks: map<string, nat>, rank: nat)
    requires Collected(g, bs, order, infos, ranks) && |infos| < |order| && order[|infos|] in bs
    requires Distinct(order)
    requires Ranked(g, infos + [Describe(g, bs, order[|infos|], rank + 1)])
    ensures var n := order[|infos|];
      Collected(g, bs, order, infos + [Describe(g, bs, n, rank + 1)], ranks[n := rank + 1])
  {
    var i := |infos|;
    var n := order[i];
    var infos', ranks' := infos + [Describe(g, bs, n, rank + 1)], ranks[n := rank + 1];
    assert n !in order[..i];
    forall k | 0 <= k < i + 1
      ensures order[k] in bs && order[k] in ranks' && infos'[k] == Describe(g, bs, order[k], ranks'[order[k]])
    {
      if k < i {
        assert order[k] != n && infos'[k] == infos[k];
      }
    }
    forall m | m in ranks'
      ensures m in order[..i + 1]
    {
      if m != n {
        assert m in order[..i];
      }
    }
  }

  /** The new record of `order[|infos|]` is above every predecessor and one above its
      highest one, so the collection grows by one. */
  lemma CollectedStep(g: Graph, bs: map<string, Beaker>, order: seq<string>, infos: seq<NodeInfo>,
                      ranks: map<string, nat>, ins: seq<Edge>, rank: nat)
    requires IsTopologicalOrder(g, order) && Collected(g, bs, order, infos, ranks)
    requires |infos| < |order| && order[|infos|] in bs && ins == InEdges(g.edges, order[|infos|])
    requires forall l :: 0 <= l < |ins| ==> ins[l].from in ranks
    requires forall l :: 0 <= l < |ins| ==> ranks[ins[l].from] <= rank
    requires rank == 0 || exists l :: 0 <= l < |ins| && ranks[ins[l].from] == rank
    ensures var n := order[|infos|];
      Collected(g, bs, order, infos + [Describe(g, bs, n, rank + 1)], ranks[n := rank + 1])
  {
    var z := Describe(g, bs, order[|infos|], rank + 1);
    assert forall k :: 0 <= k < |infos| ==> order[k] in ranks && infos[k].name == order[k] && infos[k].rank == ranks[order[k]];
    RankedStep(g, order, infos, ranks, ins, rank, z);
    CollectedFrame(g, bs, order, infos, ranks, rank);
  }

  /** A record for `order[|infos|]` ranked one above the highest rank among its sources keeps
      the records ranked. */
  lemma RankedStep(g: Graph, order: seq<string>, infos: seq<NodeInfo>, ranks: map<string, nat>, ins: seq<Edge>,
                   rank: nat, z: NodeInfo)
    requires IsTopologicalOrder(g, order) && |infos| < |order| && Ranked(g, infos)
    requires forall n :: n in ranks ==> n in order[..|infos|]
    requires forall k :: 0 <= k < |infos| ==> order[k] in ranks && infos[k].name == order[k] && infos[k].rank == ranks[order[k]]
    requires ins == InEdges(g.edges, order[|infos|])
    requires forall l :: 0 <= l < |ins| ==> ins[l].from in ranks
    requires forall l :: 0 <= l < |ins| ==> ranks[ins[l].from] <= rank
    requires rank == 0 || exists l :: 0 <= l < |ins| && ranks[ins[l].from] == rank
    requires z.name == order[|infos|] && z.rank == rank + 1
    ensures Ranked(g, infos + [z])
  {
    var n := order[|infos|];
    assert forall x :: x in infos && HasEdge(g, x.name, n) ==> x.rank <= rank by {
      RankAbove(g, order, infos, ranks, ins, rank);
    }
    assert rank == 0 || exists x :: x in infos && HasEdge(g, x.name, n) && x.rank == rank by {
      if rank != 0 {
        RankWitness(g, order, infos, ranks, rank);
      }
    }
    RankedExtend(g, order, infos, z);
  }

  /** What the full collection holds: every node of the graph once, described from its beaker. */
  lemma CollectedAll(g: Graph, bs: map<string, Beaker>, order: seq<string>, infos: seq<NodeInfo>,
                     ranks: map<string, nat>)
    requires IsTopologicalOrder(g, order) && Collected(g, bs, order, infos, ranks) && |infos| == |order|
    ensures forall n :: n in g.nodes ==> n in bs
    ensures DistinctNames(infos) && Ranked(g, infos)
    ensures forall n :: n in g.nodes ==> exists x :: x in infos && x.name == n
    ensures forall x :: x in infos ==>
      && x.name in g.nodes && x.name in bs
      && x.temp == IsTemp(bs[x.name]) && x.len == Len(bs[x.name])
      && x.edges == EdgeViews(OutEdges(g.edges, x.name))
  {
    forall n | n in g.nodes
      ensures n in bs && exists x :: x in infos && x.name == n
    {
      var k :| 0 <= k < |order| && order[k] == n;
      assert infos[k] in infos;
    }
    forall x | x in infos
      ensures x.name in g.nodes && x.name in bs
    {
      var k :| 0 <= k < |infos| && infos[k] == x;
    }
  }

  /** Sorting keeps every fact that speaks only of which records are listed. */
  lemma SortedKeeps(g: Graph, bs: map<string, Beaker>, infos: seq<NodeInfo>)
    requires DistinctNames(infos) && Ranked(g, infos)
    requires forall n :: n in g.nodes ==> exists x :: x in infos && x.name == n
    requires forall x :: x in infos ==>
      && x.name in g.nodes && x.name in bs
      && x.temp == IsTemp(bs[x.name]) && x.len == Len(bs[x.name])
      && x.edges == EdgeViews(OutEdges(g.edges, x.name))
    ensures var sorted := SortByRankName(infos);
      && SortedByRankName(sorted) && DistinctNames(sorted) && Ranked(g, sorted)
      && (forall n :: n in g.nodes ==> exists x :: x in sorted && x.name == n)
      && (forall x :: x in sorted ==>
            && x.name in g.nodes && x.name in bs
            && x.temp == IsTemp(bs[x.name]) && x.len == Len(bs[x.name])
            && x.edges == EdgeViews(OutEdges(g.edges, x.name)))
  {
    var sorted := SortByRankName(infos);
    RankedSameMembers(g, infos, sorted);
    forall n | n in g.nodes
      ensures exists x :: x in sorted && x.name == n
    {
      var x :| x in infos && x.name == n;
      assert x in sorted;
    }
  }

  // ---------------------------------------------------------------------------
  // The recipe

  /** The `for id, item in from_beaker.items()` loop over a snapshot of the source beaker:
      skips the ids in `skip`, stops at the first exception that escapes an item. */
  method ItemLoop(bs0: map<string, Beaker>, t: Transform, to: string, ids: seq<Id>, src: map<Id, Value>,
                  skip: set<Id>) returns (p: Progress)
    requires AllWellFormed(bs0) && to in bs0 && forall k :: 0 <= k < |ids| ==> ids[k] in src
    ensures p == EdgeItems(bs0, t, to, ids, src, skip)
  {
    var bs := bs0;
    assert ids[0..] == ids;
    var k := 0;
    while k < |ids|
      invariant k <= |ids| && AllWellFormed(bs) && to in bs
      invariant EdgeItems(bs0, t, to, ids, src, skip) == EdgeItems(bs, t, to, ids[k..], src, skip)
    {
      var id := ids[k];
      EdgeItemsAt(bs, t, to, ids, src, skip, k);
      if id !in skip {
        var q := ItemStep(bs, t, to, id, src[id]);
        if q.raised.Some? {
          return q;
        }
        bs := q.beakers;
      }
      k := k + 1;
    }
    return Progress(bs, None);
  }

  /** One pass of the node loop of `graph_data`: rank the next node of `order` one above its
      highest predecessor and describe it. */
  method DescribeNext(g: Graph, bs: map<string, Beaker>, order: seq<string>, infos: seq<NodeInfo>,
                      ranks: map<string, nat>) returns (infos': seq<NodeInfo>, ranks': map<string, nat>)
    requires IsTopologicalOrder(g, order) && Collected(g, bs, order, infos, ranks)
    requires |infos| < |order| && order[|infos|] in bs
    ensures |infos'| == |infos| + 1 && Collected(g, bs, order, infos', ranks')
    ensures infos'[..|infos|] == infos && infos'[|infos|].name == order[|infos|]
  {
    var node := order[|infos|];
    var ins := InEdges(g.edges, node);
    SourcesRanked(g, bs, order, infos, ranks);
    var rank := MaxSourceRank(ins, ranks);
    CollectedStep(g, bs, order, infos, ranks, ins, rank);
    ranks' := ranks[node := rank + 1];
    infos' := infos + [Describe(g, bs, node, rank + 1)];
  }

  /** `order[i]` is the first node of `order` without a beaker. */
  ghost predicate FirstUnregistered(order: seq<string>, bs: map<string, Beaker>, i: int)
  {
    0 <= i < |order| && order[i] !in bs && forall j :: 0 <= j < i ==> order[j] in bs
  }

  /** The loops of `graph_data` over graph `g` and beakers `bs`: one record per node in
      topological order, ranked one above its highest predecessor, then sorted. */
  method CollectGraphData(g: Graph, bs: map<string, Beaker>, order: seq<string>) returns (r: Result<seq<NodeInfo>>)
    requires IsTopologicalOrder(g, order)
    ensures r.Err? <==> exists n :: n in g.nodes && n !in bs
    ensures r.Err? ==> exists n :: n in g.nodes && n !in bs && r.error == KeyErrorFor(n)
    ensures r.Err? ==> exists i :: FirstUnregistered(order, bs, i) && r.error == KeyErrorFor(order[i])
    ensures r.Ok? ==> SortedByRankName(r.value) && DistinctNames(r.value) && Ranked(g, r.value)
    ensures r.Ok? ==> forall n :: n in g.nodes ==> exists x :: x in r.value && x.name == n
    ensures r.Ok? ==> forall x :: x in r.value ==>
      && x.name in g.nodes && x.name in bs
      && x.temp == IsTemp(bs[x.name]) && x.len == Len(bs[x.name])
      && x.edges == EdgeViews(OutEdges(g.edges, x.name))
  {
    var infos: seq<NodeInfo> := [];
    var ranks: map<string, nat> := map[];
    for i := 0 to |order|
      invariant |infos| == i && Collected(g, bs, order, infos, ranks)
      invariant forall j :: 0 <= j < i ==> order[j] in bs
    {
      var node := order[i];
      if node !in bs {
        assert node in g.nodes;
        r := Err(KeyErrorFor(node));
        assert FirstUnregistered(order, bs, i);
        return;
      }
      infos, ranks := DescribeNext(g, bs, order, infos, ranks);
    }
    CollectedAll(g, bs, order, infos, ranks);
    SortedKeeps(g, bs, infos);
    r := Ok(SortByRankName(infos));
  }

  /** Registering one more seed appends its record to its own beaker's list only. */
  lemma SeedsOfSnoc(names: seq<string>, seeds: map<string, SeedDef>, log: map<string, SeedRow>, i: nat, b: string)
    requires i < |names|
    ensures SeedsOf(names[..i + 1], seeds, log, b) ==
      SeedsOf(names[..i], seeds, log, b) + (if names[i] in seeds && seeds[names[i]].beakerName == b then [InfoFor(names[i], log)] else [])
  {
    assert names[..i + 1][..i] == names[..i];
  }

  /** The loop of `list_seeds`: seed records grouped by beaker, in registration order. */
  method GroupSeeds(names: seq<string>, seeds: map<string, SeedDef>, log: map<string, SeedRow>)
    returns (r: map<string, seq<SeedInfo>>)
    requires forall n :: n in names ==> n in seeds
    ensures forall b :: b in r <==> SeedsOf(names, seeds, log, b) != []
    ensures forall b :: b in r ==> r[b] == SeedsOf(names, seeds, log, b)
  {
    r := map[];
    for i := 0 to |names|
      invariant forall b :: b in r <==> SeedsOf(names[..i], seeds, log, b) != []
      invariant forall b :: b in r ==> r[b] == SeedsOf(names[..i], seeds, log, b)
    {
      var n := names[i];
      var b := seeds[n].beakerName;
      var r' := r[b := (if b in r then r[b] else []) + [InfoFor(n, log)]];
      forall c
        ensures (c in r' <==> SeedsOf(names[..i + 1], seeds, log, c) != [])
        ensures c in r' ==> r'[c] == SeedsOf(names[..i + 1], seeds, log, c)
      {
        SeedsOfSnoc(names, seeds, log, i, c);
      }
      r := r';
    }
    assert names[..|names|] == names;
  }

  class Recipe {
    const name: string
    var graph: Graph
    var beakers: map<string, Beaker>
    var seeds: map<string, SeedDef>
    /** The order in which seed names were first registered (`self.seeds` key order). */
    var seedOrder: seq<string>
    /** The `_seeds` table. */
    var seedLog: map<string, SeedRow>
    /** The next id a seeded item gets: above every id in every beaker, as a uuid would be. */
    var nextId: Id

    ghost predicate Valid()
      reads this
    {
      && Graphs.WellFormed(graph)
      && AllWellFormed(beakers)
      && Distinct(seedOrder)
      && (forall n :: n in seedOrder <==> n in seeds)
      && AllBelow(beakers, nextId)
    }

    /** A recipe over a database whose `_seeds` table already holds `stored`. */
    constructor (name: string, stored: map<string, SeedRow>)
      ensures Valid() && this.name == name
      ensures graph == Graph([], []) && beakers == map[] && seeds == map[] && seedOrder == []
      ensures seedLog == stored && nextId == 0
    {
      this.name := name;
      graph := Graph([], []);
      beakers := map[];
      seeds := map[];
      seedOrder := [];
      seedLog := stored;
      nextId := 0;
    }

    /** `add_beaker`: registers the node and a fresh beaker under the name; a `model`
        of None makes it a temporary beaker. */
    method AddBeaker(name: string, model: Option<string>) returns (b: Beaker)
      requires Valid()
      modifies this
      ensures Valid()
      ensures graph == AddNode(old(graph), name) && name in graph.nodes && graph.edges == old(graph).edges
      ensures beakers == old(beakers)[name := NewBeaker(name, model)]
      ensures b == beakers[name] && (IsTemp(b) <==> model.None?)
      ensures seeds == old(seeds) && seedOrder == old(seedOrder) && seedLog == old(seedLog) && nextId == old(nextId)
    {
      AddNodeKeeps(graph, name);
      graph := AddNode(graph, name);
      beakers := beakers[name := NewBeaker(name, model)];
      b := beakers[name];
    }

    /** `add_transform`: the edge from -> to carries exactly the new transform; every
        other edge is as it was. */
    method AddTransform(from: string, to: string, func: Callable, name: Option<string>,
                        errorMap: Option<seq<ErrorEntry>>)
      requires Valid()
      modifies this
      ensures Valid()
      ensures graph == AddEdge(old(graph), from, to, MakeTransform(func, name, errorMap))
      ensures from in graph.nodes && to in graph.nodes
      ensures EdgeData(graph, from, to) == Some(MakeTransform(func, name, errorMap))
      ensures forall a, b :: !(a == from && b == to) ==> EdgeData(graph, a, b) == EdgeData(old(graph), a, b)
      ensures beakers == old(beakers) && seeds == old(seeds) && seedOrder == old(seedOrder)
      ensures seedLog == old(seedLog) && nextId == old(nextId)
    {
      var t := MakeTransform(func, name, errorMap);
      AddEdgeShape(graph, from, to, t);
      AddEdgeSets(graph, from, to, t);
      graph := AddEdge(graph, from, to, t);
    }

    /** `add_conditional`: a temporary beaker for `(data, cond)` pairs fed by the condition,
        and the branch edges out of it. When both branches name the same beaker, the
        if-false edge replaces the if-true one. */
    method AddConditional(from: string, cond: Callable, ifTrue: string, ifFalse: string)
      requires Valid()
      modifies this
      ensures Valid()
      ensures var c := CondName(from, cond);
        && beakers == old(beakers)[c := NewBeaker(c, None)][ifTrue := NewBeaker(ifTrue, None)]
        && EdgeData(graph, from, c) == Some(Transform(c, CondWrapper(cond), []))
        && (ifFalse == "" || ifFalse != ifTrue ==>
              EdgeData(graph, c, ifTrue) == Some(Transform("if_cond_true", IfCondTrueFunc, [])))
        && (ifFalse != "" ==> EdgeData(graph, c, ifFalse) == Some(Transform("if_cond_false", IfCondFalseFunc, [])))
        && (forall a, b :: !(a == from && b == c) && !(a == c && (b == ifTrue || (ifFalse != "" && b == ifFalse))) ==>
              EdgeData(graph, a, b) == EdgeData(old(graph), a, b))
      ensures old(graph).nodes <= graph.nodes
      ensures seeds == old(seeds) && seedOrder == old(seedOrder) && seedLog == old(seedLog) && nextId == old(nextId)
    {
      var c := CondName(from, cond);
      ghost var r := ConditionalGraph(graph, from, c, ifTrue, ifFalse, MakeTransform(CondWrapper(cond), Some(c), None),
                                      MakeTransform(IfCondTrueFunc, None, None), MakeTransform(IfCondFalseFunc, None, None));
      ConditionalGraphEdges(graph, from, c, ifTrue, ifFalse, MakeTransform(CondWrapper(cond), Some(c), None),
                            MakeTransform(IfCondTrueFunc, None, None), MakeTransform(IfCondFalseFunc, None, None));
      var _ := AddBeaker(c, None);
      AddTransform(from, c, CondWrapper(cond), Some(c), None);
      var _ := AddBeaker(ifTrue, None);
      AddTransform(c, ifTrue, IfCondTrueFunc, None, None);
      if ifFalse != "" {
        AddTransform(c, ifFalse, IfCondFalseFunc, None, None);
      }
      assert graph == r;
    }

    /** `add_seed`: registers (or re-registers) a seed; a new name goes last. */
    method AddSeed(seedName: string, beakerName: string, items: seq<Value>, failure: Option<Exc>)
      requires Valid()
      modifies this
      ensures Valid()
      ensures seeds == old(seeds)[seedName := SeedDef(beakerName, items, failure)]
      ensures seedOrder == if seedName in old(seeds) then old(seedOrder) else old(seedOrder) + [seedName]
      ensures graph == old(graph) && beakers == old(beakers) && seedLog == old(seedLog) && nextId == old(nextId)
    {
      seeds := seeds[seedName := SeedDef(beakerName, items, failure)];
      if seedName !in seedOrder {
        seedOrder := seedOrder + [seedName];
      }
    }

    /** `list_seeds`: every seed's record, grouped by its beaker. */
    method ListSeeds() returns (r: map<string, seq<SeedInfo>>)
      requires Valid()
      ensures forall b :: b in r <==> SeedsOf(seedOrder, seeds, seedLog, b) != []
      ensures forall b :: b in r ==> r[b] == SeedsOf(seedOrder, seeds, seedLog, b)
    {
      r := GroupSeeds(seedOrder, seeds, seedLog);
    }

    /** `run_seed`: refuses an unknown seed, a missing beaker and an already recorded seed;
        otherwise adds every yielded item under a new id and records how many there were. A
        seed function that raises leaves its items added and records nothing. */
    method RunSeed(seedName: string, now: string) returns (raised: Option<Exc>)
      requires Valid()
      modifies this
      ensures Valid()
      ensures graph == old(graph) && seeds == old(seeds) && seedOrder == old(seedOrder)
      ensures old(SeedRefusal(seeds, beakers, seedLog, seedName)).Some? ==>
        && raised == old(SeedRefusal(seeds, beakers, seedLog, seedName))
        && beakers == old(beakers) && seedLog == old(seedLog) && nextId == old(nextId)
      ensures old(SeedRefusal(seeds, beakers, seedLog, seedName)).None? ==>
        var d := seeds[seedName];
        && beakers == old(beakers)[d.beakerName := AddAll(old(beakers)[d.beakerName], d.items, old(nextId))]
        && nextId == old(nextId) + |d.items|
        && raised == d.failure
        && seedLog == if d.failure.Some? then old(seedLog)
                      else old(seedLog)[seedName := SeedRow(d.beakerName, |d.items|, now)]
      ensures old(SeedRefusal(seeds, beakers, seedLog, seedName)).None? ==>
        var d := seeds[seedName];
        && HoldsFrom(beakers[d.beakerName], d.items, old(nextId))
        && (forall n :: n in beakers && n != d.beakerName ==> IdsBelow(beakers[n], old(nextId)))
      ensures raised.None? ==>
        SeedRefusal(seeds, beakers, seedLog, seedName) == Some(SeedErrorFor(seedName + " already run at " + now))
    {
      raised := SeedRefusal(seeds, beakers, seedLog, seedName);
      if raised.Some? {
        return;
      }
      var d := seeds[seedName];
      var beaker, numItems := SeedItems(beakers[d.beakerName], d.items, nextId);
      SeedingFresh(beakers, d.beakerName, d.items, nextId, beakers[d.beakerName := beaker]);
      beakers := beakers[d.beakerName := beaker];
      nextId := nextId + numItems;
      if d.failure.Some? {
        raised := d.failure;
        return;
      }
      seedLog := seedLog[seedName := SeedRow(d.beakerName, numItems, now)];
    }

    /** `reset`: clears the `_seeds` table and empties every beaker, so every seed whose
        beaker exists can be run again. */
    method Reset()
      requires Valid()
      modifies this
      ensures Valid()
      ensures graph == old(graph) && seeds == old(seeds) && seedOrder == old(seedOrder) && nextId == old(nextId)
      ensures seedLog == map[]
      ensures beakers.Keys == old(beakers).Keys
      ensures forall n :: n in beakers ==> beakers[n] == Emptied(old(beakers)[n]) && Len(beakers[n]) == 0
      ensures forall n :: n in seeds && seeds[n].beakerName in beakers ==> SeedRefusal(seeds, beakers, seedLog, n).None?
    {
      seedLog := map[];
      var todo := beakers.Keys;
      while todo != {}
        invariant todo <= beakers.Keys && beakers.Keys == old(beakers).Keys && AllWellFormed(beakers)
        invariant forall n :: n in beakers ==> beakers[n] == if n in todo then old(beakers)[n] else Emptied(old(beakers)[n])
        invariant graph == old(graph) && seeds == old(seeds) && seedOrder == old(seedOrder) && seedLog == map[]
        invariant nextId == old(nextId)
        decreases todo
      {
        var n :| n in todo;
        if Len(beakers[n]) > 0 {
          beakers := beakers[n := Emptied(beakers[n])];
        } else {
          assert beakers[n].data.Keys == {};
          assert beakers[n] == Emptied(beakers[n]);
        }
        todo := todo - {n};
      }
    }

    /** `graph_data`: one record per node, ranked one above its highest predecessor and
        sorted by `(rank, name)`; a node without a beaker raises KeyError. */
    method GraphData(order: seq<string>) returns (r: Result<seq<NodeInfo>>)
      requires IsTopologicalOrder(graph, order)
      ensures r.Err? <==> exists n :: n in graph.nodes && n !in beakers
      ensures r.Err? ==> exists n :: n in graph.nodes && n !in beakers && r.error == KeyErrorFor(n)
      ensures r.Err? ==> exists i :: FirstUnregistered(order, beakers, i) && r.error == KeyErrorFor(order[i])
      ensures r.Ok? ==> SortedByRankName(r.value) && DistinctNames(r.value) && Ranked(graph, r.value)
      ensures r.Ok? ==> forall n :: n in graph.nodes ==> exists x :: x in r.value && x.name == n
      ensures r.Ok? ==> forall x :: x in r.value ==>
        && x.name in graph.nodes && x.name in beakers
        && x.temp == IsTemp(beakers[x.name]) && x.len == Len(beakers[x.name])
        && x.edges == EdgeViews(OutEdges(graph.edges, x.name))
    {
      r := CollectGraphData(graph, beakers, order);
    }

    /** `run_once` over the topological order `order`: the beakers and the exception that
        stopped the pass are those of the pass specification. */
    method RunOnce(order: seq<string>, start: Option<string>, end: Option<string>) returns (raised: Option<Exc>)
      requires Valid() && IsTopologicalOrder(graph, order)
      modifies this
      ensures Valid()
      ensures graph == old(graph) && seeds == old(seeds) && seedOrder == old(seedOrder) && seedLog == old(seedLog) && nextId == old(nextId)
      ensures Progress(beakers, raised) == RunOnceSpec(old(beakers), graph, order, start, end)
    {
      var started := !Given(start);
      ghost var want := RunOnceSpec(beakers, graph, order, start, end);
      RunOnceBelow(beakers, graph, order, start, end, nextId);
      var i := 0;
      while i < |order|
        invariant i <= |order| && AllWellFormed(beakers)
        invariant graph == old(graph) && seeds == old(seeds) && seedOrder == old(seedOrder) && seedLog == old(seedLog) && nextId == old(nextId)
        invariant want == RunNodes(beakers, graph, SelectNodes(order[i..], started, start, end))
      {
        var node := order[i];
        assert order[i..][0] == node && order[i..][1..] == order[i + 1..];
        if !started {
          if start.Some? && node == start.value {
            started := true;
          } else {
            i := i + 1;
            continue;
          }
        }
        if Given(end) && node == end.value {
          return None;
        }
        raised := RunNodeEdges(OutEdges(graph.edges, node));
        if raised.Some? {
          return;
        }
        i := i + 1;
      }
      raised := None;
    }

    /** The out-edges of one node, one after the other, stopping at the first exception. */
    method RunNodeEdges(edges: seq<Edge>) returns (raised: Option<Exc>)
      requires AllWellFormed(beakers)
      modifies this
      ensures AllWellFormed(beakers)
      ensures graph == old(graph) && seeds == old(seeds) && seedOrder == old(seedOrder) && seedLog == old(seedLog) && nextId == old(nextId)
      ensures Progress(beakers, raised) == RunEdges(old(beakers), edges)
    {
      ghost var want := RunEdges(beakers, edges);
      assert edges[0..] == edges;
      var j := 0;
      while j < |edges|
        invariant j <= |edges| && AllWellFormed(beakers)
        invariant graph == old(graph) && seeds == old(seeds) && seedOrder == old(seedOrder) && seedLog == old(seedLog) && nextId == old(nextId)
        invariant want == RunEdges(beakers, edges[j..])
      {
        assert edges[j..][0] == edges[j] && edges[j..][1..] == edges[j + 1..];
        raised := RunOneEdge(edges[j]);
        if raised.Some? {
          return;
        }
        j := j + 1;
      }
      raised := None;
    }

    /** One edge: both beakers are looked up, ids already in both are skipped, and every
        other item of the source (as it was when the edge started) is transformed. */
    method RunOneEdge(e: Edge) returns (raised: Option<Exc>)
      requires AllWellFormed(beakers)
      modifies this
      ensures AllWellFormed(beakers)
      ensures graph == old(graph) && seeds == old(seeds) && seedOrder == old(seedOrder) && seedLog == old(seedLog) && nextId == old(nextId)
      ensures Progress(beakers, raised) == RunEdge(old(beakers), e)
    {
      if e.from !in beakers {
        return Some(KeyErrorFor(e.from));
      }
      if e.to !in beakers {
        return Some(KeyErrorFor(e.to));
      }
      var f := beakers[e.from];
      var skip := IdSet(f) * IdSet(beakers[e.to]);
      raised := RunItems(e.transform, e.to, f.ids, f.data, skip);
    }

    /** The item loop of one edge. */
    method RunItems(t: Transform, to: string, ids: seq<Id>, src: map<Id, Value>, skip: set<Id>)
      returns (raised: Option<Exc>)
      requires AllWellFormed(beakers) && to in beakers && forall k :: 0 <= k < |ids| ==> ids[k] in src
      modifies this
      ensures AllWellFormed(beakers)
      ensures graph == old(graph) && seeds == old(seeds) && seedOrder == old(seedOrder) && seedLog == old(seedLog) && nextId == old(nextId)
      ensures Progress(beakers, raised) == EdgeItems(old(beakers), t, to, ids, src, skip)
    {
      var p := ItemLoop(beakers, t, to, ids, src, skip);
      beakers, raised := p.beakers, p.raised;
    }
  }
}
