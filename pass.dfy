/** One pipeline pass (`Recipe.run_once`) as functions over the beaker dictionary:
    per item, per edge, per node and the start/end window over the topological order. */
module Pass {
  import opened Values
  import opened Beakers
  import opened Graphs

  /** The beakers after (part of) a pass, and the exception that stopped it, if any. */
  datatype Progress = Progress(beakers: map<string, Beaker>, raised: Option<Exc>)

  ghost predicate AllWellFormed(bs: map<string, Beaker>)
  {
    forall n :: n in bs ==> Beakers.WellFormed(bs[n])
  }

  /** No beaker disappears and no id leaves a beaker. */
  ghost predicate Grows(a: map<string, Beaker>, b: map<string, Beaker>)
  {
    && a.Keys == b.Keys
    && forall n, id :: n in a && id in a[n].data ==> id in b[n].data
  }

  /** Every id held by any beaker is below `next`. */
  ghost predicate AllBelow(bs: map<string, Beaker>, next: Id)
  {
    forall n :: n in bs ==> IdsBelow(bs[n], next)
  }

  /** The position of the first `error_map` entry whose exception classes `e` is an instance of. */
  function FirstMatchFrom(m: seq<ErrorEntry>, e: Exc, i: nat): (r: Option<nat>)
    requires i <= |m|
    ensures r.Some? ==> i <= r.value < |m| && IsInstance(e, m[r.value].excTypes)
    ensures r.Some? ==> forall k :: i <= k < r.value ==> !IsInstance(e, m[k].excTypes)
    ensures r.None? ==> forall k :: i <= k < |m| ==> !IsInstance(e, m[k].excTypes)
    decreases |m| - i
  {
    if i == |m| then None
    else if IsInstance(e, m[i].excTypes) then Some(i)
    else FirstMatchFrom(m, e, i + 1)
  }

  function FirstMatch(m: seq<ErrorEntry>, e: Exc): Option<nat>
  {
    FirstMatchFrom(m, e, 0)
  }

  /** The error beaker that receives `e`: none when `except Exception` does not catch it
      or no entry matches. */
  function Handler(t: Transform, e: Exc): (r: Option<string>)
    ensures r.Some? <==> IsException(e) && exists k :: 0 <= k < |t.errorMap| && IsInstance(e, t.errorMap[k].excTypes)
    ensures r.Some? ==>
      exists k :: 0 <= k < |t.errorMap| && IsInstance(e, t.errorMap[k].excTypes)
        && (forall i :: 0 <= i < k ==> !IsInstance(e, t.errorMap[i].excTypes)) && r.value == t.errorMap[k].beaker
  {
    if !IsException(e) then None
    else match FirstMatch(t.errorMap, e)
      case None => None
      case Some(k) => Some(t.errorMap[k].beaker)
  }

  /** The `except` branch for one item. */
  function HandleRaised(bs: map<string, Beaker>, t: Transform, id: Id, item: Value, e: Exc): (p: Progress)
    requires AllWellFormed(bs)
    ensures p.beakers.Keys == bs.Keys && AllWellFormed(p.beakers)
    ensures p.raised.None? <==> Handler(t, e).Some? && Handler(t, e).value in bs
    ensures p.raised.Some? ==> p.beakers == bs
    ensures Handler(t, e).None? ==> p.raised == Some(e)
    ensures Handler(t, e).Some? && Handler(t, e).value !in bs ==> p.raised == Some(KeyErrorFor(Handler(t, e).value))
    ensures p.raised.None? ==>
      var b := Handler(t, e).value;
      && id in p.beakers[b].data && p.beakers[b].data[id] == ErrorFor(item, e)
      && forall n :: n in bs && n != b ==> p.beakers[n] == bs[n]
  {
    match Handler(t, e)
    case None => Progress(bs, Some(e))
    case Some(b) =>
      if b !in bs then Progress(bs, Some(KeyErrorFor(b)))
      else Progress(bs[b := AddItem(bs[b], id, ErrorFor(item, e))], None)
  }

  /** One item through one edge. */
  function ItemStep(bs: map<string, Beaker>, t: Transform, to: string, id: Id, item: Value): (p: Progress)
    requires AllWellFormed(bs) && to in bs
    ensures p.beakers.Keys == bs.Keys && AllWellFormed(p.beakers)
  {
    match t.func.call(item)
    case Returned(v) =>
      if Truthy(v) then Progress(bs[to := AddItem(bs[to], id, v)], None) else Progress(bs, None)
    case Raised(e) => HandleRaised(bs, t, id, item, e)
  }

  /** The item loop of one edge over a snapshot (`ids`, `src`) of the source beaker;
      `skip` is `already_processed`. */
  function EdgeItems(bs: map<string, Beaker>, t: Transform, to: string, ids: seq<Id>, src: map<Id, Value>,
                     skip: set<Id>): (p: Progress)
    requires AllWellFormed(bs) && to in bs && forall k :: 0 <= k < |ids| ==> ids[k] in src
    ensures p.beakers.Keys == bs.Keys && AllWellFormed(p.beakers)
    decreases |ids|
  {
    if ids == [] then Progress(bs, None)
    else if ids[0] in skip then EdgeItems(bs, t, to, ids[1..], src, skip)
    else
      var p := ItemStep(bs, t, to, ids[0], src[ids[0]]);
      if p.raised.Some? then p else EdgeItems(p.beakers, t, to, ids[1..], src, skip)
  }

  /** The item loop from position `k`: a skipped id is passed over, an item that raises
      unhandled stops the loop, and any other item is stored before the loop goes on. */
  lemma EdgeItemsAt(bs: map<string, Beaker>, t: Transform, to: string, ids: seq<Id>, src: map<Id, Value>,
                    skip: set<Id>, k: nat)
    requires AllWellFormed(bs) && to in bs && forall i :: 0 <= i < |ids| ==> ids[i] in src
    requires k < |ids|
    ensures ids[k] in skip ==> EdgeItems(bs, t, to, ids[k..], src, skip) == EdgeItems(bs, t, to, ids[k + 1..], src, skip)
    ensures ids[k] !in skip ==>
      var p := ItemStep(bs, t, to, ids[k], src[ids[k]]);
      EdgeItems(bs, t, to, ids[k..], src, skip) == if p.raised.Some? then p else EdgeItems(p.beakers, t, to, ids[k + 1..], src, skip)
  {
    assert ids[k..][0] == ids[k] && ids[k..][1..] == ids[k + 1..];
  }

  /** One edge: look both beakers up, skip ids already in both, run the item loop. */
  function RunEdge(bs: map<string, Beaker>, e: Edge): (p: Progress)
    requires AllWellFormed(bs)
    ensures p.beakers.Keys == bs.Keys && AllWellFormed(p.beakers)
  {
    if e.from !in bs then Progress(bs, Some(KeyErrorFor(e.from)))
    else if e.to !in bs then Progress(bs, Some(KeyErrorFor(e.to)))
    else
      var f := bs[e.from];
      EdgeItems(bs, e.transform, e.to, f.ids, f.data, IdSet(f) * IdSet(bs[e.to]))
  }

  /** The out-edges of one node, in order, stopping at the first exception. */
  function RunEdges(bs: map<string, Beaker>, es: seq<Edge>): (p: Progress)
    requires AllWellFormed(bs)
    ensures p.beakers.Keys == bs.Keys && AllWellFormed(p.beakers)
    decreases |es|
  {
    if es == [] then Progress(bs, None)
    else
      var p := RunEdge(bs, es[0]);
      if p.raised.Some? then p else RunEdges(p.beakers, es[1..])
  }

  /** The selected nodes, in order, each with all its out-edges. */
  function RunNodes(bs: map<string, Beaker>, g: Graph, nodes: seq<string>): (p: Progress)
    requires AllWellFormed(bs)
    ensures p.beakers.Keys == bs.Keys && AllWellFormed(p.beakers)
    decreases |nodes|
  {
    if nodes == [] then Progress(bs, None)
    else
      var p := RunEdges(bs, OutEdges(g.edges, nodes[0]));
      if p.raised.Some? then p else RunNodes(p.beakers, g, nodes[1..])
  }

  /** Python truthiness of an optional beaker name: None and "" are falsy. */
  predicate Given(o: Option<string>)
  {
    o.Some? && o.value != ""
  }

  /** The nodes `run_once` processes, given whether it has `started`. */
  function SelectNodes(order: seq<string>, started: bool, start: Option<string>, end: Option<string>): (r: seq<string>)
    ensures |r| <= |order| && forall i :: 0 <= i < |r| ==> r[i] in order
    ensures Given(end) ==> end.value !in r
    decreases |order|
  {
    if order == [] then []
    else if !started && !(start.Some? && order[0] == start.value) then SelectNodes(order[1..], false, start, end)
    else if Given(end) && order[0] == end.value then []
    else [order[0]] + SelectNodes(order[1..], true, start, end)
  }

  /** The whole pass: `started` begins true exactly when no start beaker is given. */
  function RunOnceSpec(bs: map<string, Beaker>, g: Graph, order: seq<string>, start: Option<string>,
                       end: Option<string>): (p: Progress)
    requires AllWellFormed(bs)
    ensures p.beakers.Keys == bs.Keys && AllWellFormed(p.beakers)
  {
    RunNodes(bs, g, SelectNodes(order, !Given(start), start, end))
  }

  // ---------------------------------------------------------------------------
  // Nothing is removed

  lemma GrowsTrans(a: map<string, Beaker>, b: map<string, Beaker>, c: map<string, Beaker>)
    requires Grows(a, b) && Grows(b, c)
    ensures Grows(a, c)
  {
  }

  /** One item only adds or overwrites entries. */
  lemma ItemStepGrows(bs: map<string, Beaker>, t: Transform, to: string, id: Id, item: Value)
    requires AllWellFormed(bs) && to in bs
    ensures Grows(bs, ItemStep(bs, t, to, id, item).beakers)
  {
    var p := ItemStep(bs, t, to, id, item);
    forall n, i | n in bs && i in bs[n].data
      ensures i in p.beakers[n].data
    {
    }
  }

  lemma {:induction false} EdgeItemsGrows(bs: map<string, Beaker>, t: Transform, to: string, ids: seq<Id>,
                                          src: map<Id, Value>, skip: set<Id>)
    requires AllWellFormed(bs) && to in bs && forall k :: 0 <= k < |ids| ==> ids[k] in src
    ensures Grows(bs, EdgeItems(bs, t, to, ids, src, skip).beakers)
    decreases |ids|
  {
    if ids != [] {
      assert forall k :: 0 <= k < |ids[1..]| ==> ids[1..][k] in src && ids[1..][k] == ids[k + 1];
      if ids[0] in skip {
        EdgeItemsGrows(bs, t, to, ids[1..], src, skip);
      } else {
        var p := ItemStep(bs, t, to, ids[0], src[ids[0]]);
        ItemStepGrows(bs, t, to, ids[0], src[ids[0]]);
        if p.raised.None? {
          EdgeItemsGrows(p.beakers, t, to, ids[1..], src, skip);
          GrowsTrans(bs, p.beakers, EdgeItems(p.beakers, t, to, ids[1..], src, skip).beakers);
        }
      }
    }
  }

  lemma RunEdgeGrows(bs: map<string, Beaker>, e: Edge)
    requires AllWellFormed(bs)
    ensures Grows(bs, RunEdge(bs, e).beakers)
  {
    if e.from in bs && e.to in bs {
      var f := bs[e.from];
      EdgeItemsGrows(bs, e.transform, e.to, f.ids, f.data, IdSet(f) * IdSet(bs[e.to]));
    }
  }

  lemma {:induction false} RunEdgesGrows(bs: map<string, Beaker>, es: seq<Edge>)
    requires AllWellFormed(bs)
    ensures Grows(bs, RunEdges(bs, es).beakers)
    decreases |es|
  {
    if es != [] {
      var p := RunEdge(bs, es[0]);
      RunEdgeGrows(bs, es[0]);
      if p.raised.None? {
        RunEdgesGrows(p.beakers, es[1..]);
        GrowsTrans(bs, p.beakers, RunEdges(p.beakers, es[1..]).beakers);
      }
    }
  }

  lemma {:induction false} RunNodesGrows(bs: map<string, Beaker>, g: Graph, nodes: seq<string>)
    requires AllWellFormed(bs)
    ensures Grows(bs, RunNodes(bs, g, nodes).beakers)
    decreases |nodes|
  {
    if nodes != [] {
      var p := RunEdges(bs, OutEdges(g.edges, nodes[0]));
      RunEdgesGrows(bs, OutEdges(g.edges, nodes[0]));
      if p.raised.None? {
        RunNodesGrows(p.beakers, g, nodes[1..]);
        GrowsTrans(bs, p.beakers, RunNodes(p.beakers, g, nodes[1..]).beakers);
      }
    }
  }

  /** A pass, whether it completes or stops on an exception, removes no beaker and no item. */
  lemma RunOnceGrows(bs: map<string, Beaker>, g: Graph, order: seq<string>, start: Option<string>,
                     end: Option<string>)
    requires AllWellFormed(bs)
    ensures Grows(bs, RunOnceSpec(bs, g, order, start, end).beakers)
  {
    RunNodesGrows(bs, g, SelectNodes(order, !Given(start), start, end));
  }

  // ---------------------------------------------------------------------------
  // No new ids: every item a pass stores goes under the id of a source item

  lemma ItemStepBelow(bs: map<string, Beaker>, t: Transform, to: string, id: Id, item: Value, next: Id)
    requires AllWellFormed(bs) && to in bs && AllBelow(bs, next) && id < next
    ensures AllBelow(ItemStep(bs, t, to, id, item).beakers, next)
  {
  }

  lemma {:induction false} EdgeItemsBelow(bs: map<string, Beaker>, t: Transform, to: string, ids: seq<Id>,
                                          src: map<Id, Value>, skip: set<Id>, next: Id)
    requires AllWellFormed(bs) && to in bs && forall k :: 0 <= k < |ids| ==> ids[k] in src
    requires AllBelow(bs, next) && forall k :: 0 <= k < |ids| ==> ids[k] < next
    ensures AllBelow(EdgeItems(bs, t, to, ids, src, skip).beakers, next)
    decreases |ids|
  {
    if ids != [] {
      assert forall k :: 0 <= k < |ids[1..]| ==> ids[1..][k] in src && ids[1..][k] == ids[k + 1];
      if ids[0] in skip {
        EdgeItemsBelow(bs, t, to, ids[1..], src, skip, next);
      } else {
        var p := ItemStep(bs, t, to, ids[0], src[ids[0]]);
        ItemStepBelow(bs, t, to, ids[0], src[ids[0]], next);
        if p.raised.None? {
          EdgeItemsBelow(p.beakers, t, to, ids[1..], src, skip, next);
        }
      }
    }
  }

  lemma RunEdgeBelow(bs: map<string, Beaker>, e: Edge, next: Id)
    requires AllWellFormed(bs) && AllBelow(bs, next)
    ensures AllBelow(RunEdge(bs, e).beakers, next)
  {
    if e.from in bs && e.to in bs {
      var f := bs[e.from];
      assert forall k :: 0 <= k < |f.ids| ==> f.ids[k] in f.data;
      EdgeItemsBelow(bs, e.transform, e.to, f.ids, f.data, IdSet(f) * IdSet(bs[e.to]), next);
    }
  }

  lemma {:induction false} RunEdgesBelow(bs: map<string, Beaker>, es: seq<Edge>, next: Id)
    requires AllWellFormed(bs) && AllBelow(bs, next)
    ensures AllBelow(RunEdges(bs, es).beakers, next)
    decreases |es|
  {
    if es != [] {
      var p := RunEdge(bs, es[0]);
      RunEdgeBelow(bs, es[0], next);
      if p.raised.None? {
        RunEdgesBelow(p.beakers, es[1..], next);
      }
    }
  }

  lemma {:induction false} RunNodesBelow(bs: map<string, Beaker>, g: Graph, nodes: seq<string>, next: Id)
    requires AllWellFormed(bs) && AllBelow(bs, next)
    ensures AllBelow(RunNodes(bs, g, nodes).beakers, next)
    decreases |nodes|
  {
    if nodes != [] {
      var p := RunEdges(bs, OutEdges(g.edges, nodes[0]));
      RunEdgesBelow(bs, OutEdges(g.edges, nodes[0]), next);
      if p.raised.None? {
        RunNodesBelow(p.beakers, g, nodes[1..], next);
      }
    }
  }

  /** A pass stores items only under ids that some beaker already held, so an id bound for
      the whole recipe stays a bound. */
  lemma RunOnceBelow(bs: map<string, Beaker>, g: Graph, order: seq<string>, start: Option<string>,
                     end: Option<string>, next: Id)
    requires AllWellFormed(bs) && AllBelow(bs, next)
    ensures AllBelow(RunOnceSpec(bs, g, order, start, end).beakers, next)
  {
    RunNodesBelow(bs, g, SelectNodes(order, !Given(start), start, end), next);
  }

  // ---------------------------------------------------------------------------
  // Partial runs

  /** A start beaker that never occurs in the order selects nothing. */
  lemma {:induction false} NeverStarted(order: seq<string>, start: Option<string>, end: Option<string>)
    requires Given(start) && start.value !in order
    ensures SelectNodes(order, false, start, end) == []
    decreases |order|
  {
    if order != [] {
      NeverStarted(order[1..], start, end);
    }
  }

  /** Nodes before the first occurrence of the start beaker are skipped; from there on the
      pass runs as if it had started. */
  lemma {:induction false} SkipsToStart(order: seq<string>, start: Option<string>, end: Option<string>, i: nat)
    requires Given(start) && i < |order| && order[i] == start.value && start.value !in order[..i]
    ensures SelectNodes(order, false, start, end) == SelectNodes(order[i..], true, start, end)
    decreases i
  {
    if i > 0 {
      assert order[0] in order[..i];
      assert order[1..][..i - 1] == order[..i][1..];
      SkipsToStart(order[1..], start, end, i - 1);
      assert order[1..][i - 1..] == order[i..];
    }
  }

  /** Once started, the pass takes every node up to, and not including, the first
      occurrence of the end beaker (all of them when there is none). */
  lemma {:induction false} StopsAtEnd(order: seq<string>, start: Option<string>, end: Option<string>, j: nat)
    requires j <= |order|
    requires Given(end) ==> end.value !in order[..j]
    requires j < |order| ==> Given(end) && order[j] == end.value
    ensures SelectNodes(order, true, start, end) == order[..j]
    decreases |order|
  {
    if order != [] && j > 0 {
      assert order[0] in order[..j];
      assert order[1..][..j - 1] == order[..j][1..];
      StopsAtEnd(order[1..], start, end, j - 1);
      assert order[..j] == [order[0]] + order[1..][..j - 1];
    }
  }

  /** If the start beaker never occurs, the pass changes nothing and raises nothing. */
  lemma NeverStartedNoChange(bs: map<string, Beaker>, g: Graph, order: seq<string>, start: Option<string>,
                             end: Option<string>)
    requires AllWellFormed(bs) && Given(start) && start.value !in order
    ensures RunOnceSpec(bs, g, order, start, end) == Progress(bs, None)
  {
    NeverStarted(order, start, end);
  }

  // ---------------------------------------------------------------------------
  // What one edge does to each id

  /** Whether processing `item` writes anything (a truthy result, or a handled exception). */
  predicate Writes(t: Transform, item: Value)
  {
    match t.func.call(item)
    case Returned(v) => Truthy(v)
    case Raised(e) => Handler(t, e).Some?
  }

  /** `item`'s outcome is recorded under `id`: a truthy result in the destination, an exception
      as an `ErrorType` record in the first matching error beaker. */
  ghost predicate Recorded(bs: map<string, Beaker>, t: Transform, to: string, id: Id, item: Value)
  {
    match t.func.call(item)
    case Returned(v) => Truthy(v) ==> to in bs && id in bs[to].data && bs[to].data[id] == v
    case Raised(e) =>
      Handler(t, e).Some? && Handler(t, e).value in bs
      && id in bs[Handler(t, e).value].data && bs[Handler(t, e).value].data[id] == ErrorFor(item, e)
  }

  /** Processing `item` again would change nothing: its result is falsy, or its error record is
      already in place. */
  ghost predicate Quiet(bs: map<string, Beaker>, t: Transform, id: Id, item: Value)
  {
    match t.func.call(item)
    case Returned(v) => !Truthy(v)
    case Raised(e) =>
      Handler(t, e).Some? && Handler(t, e).value in bs
      && id in bs[Handler(t, e).value].data && bs[Handler(t, e).value].data[id] == ErrorFor(item, e)
  }

  /** `x` escapes the item loop: `item` raised an exception that no entry handles, or the
      matching entry names a beaker that does not exist. */
  ghost predicate Unhandled(bs: map<string, Beaker>, t: Transform, item: Value, x: Exc)
  {
    match t.func.call(item)
    case Returned(_) => false
    case Raised(e) =>
      match Handler(t, e)
      case None => x == e
      case Some(b) => b !in bs && x == KeyErrorFor(b)
  }

  ghost predicate AllSameAt(a: map<string, Beaker>, b: map<string, Beaker>, id: Id)
  {
    a.Keys == b.Keys && forall n :: n in a ==> SameAt(a[n], b[n], id)
  }

  lemma ItemStepElsewhere(bs: map<string, Beaker>, t: Transform, to: string, i: Id, item: Value, id: Id)
    requires AllWellFormed(bs) && to in bs
    requires i != id || !Writes(t, item)
    ensures AllSameAt(bs, ItemStep(bs, t, to, i, item).beakers, id)
  {
    match t.func.call(item)
    case Returned(v) =>
      if Truthy(v) {
        assert SameAt(bs[to], AddItem(bs[to], i, v), id);
      }
    case Raised(e) =>
      HandleRaisedElsewhere(bs, t, i, item, e, id);
  }

  lemma HandleRaisedElsewhere(bs: map<string, Beaker>, t: Transform, i: Id, item: Value, e: Exc, id: Id)
    requires AllWellFormed(bs)
    requires i != id || Handler(t, e).None?
    ensures AllSameAt(bs, HandleRaised(bs, t, i, item, e).beakers, id)
  {
    if Handler(t, e).Some? && Handler(t, e).value in bs {
      var b := Handler(t, e).value;
      assert HandleRaised(bs, t, i, item, e).beakers == bs[b := AddItem(bs[b], i, ErrorFor(item, e))];
      assert SameAt(bs[b], AddItem(bs[b], i, ErrorFor(item, e)), id);
    }
  }

  lemma ItemStepQuiet(bs: map<string, Beaker>, t: Transform, to: string, id: Id, item: Value)
    requires AllWellFormed(bs) && to in bs && Quiet(bs, t, id, item)
    ensures ItemStep(bs, t, to, id, item) == Progress(bs, None)
  {
    match t.func.call(item)
    case Returned(v) =>
    case Raised(e) =>
      var b := Handler(t, e).value;
      AddItemSame(bs[b], id);
      assert bs[b := bs[b]] == bs;
  }

  lemma RecordedKept(a: map<string, Beaker>, b: map<string, Beaker>, t: Transform, to: string, id: Id, item: Value)
    requires Recorded(a, t, to, id, item) && AllSameAt(a, b, id)
    ensures Recorded(b, t, to, id, item)
  {
  }

  /** An id that the loop never processes with a writing outcome keeps its entry in every beaker. */
  lemma {:induction false} EdgeItemsElsewhere(bs: map<string, Beaker>, t: Transform, to: string, ids: seq<Id>,
                                              src: map<Id, Value>, skip: set<Id>, id: Id)
    requires AllWellFormed(bs) && to in bs && forall k :: 0 <= k < |ids| ==> ids[k] in src
    requires forall k :: 0 <= k < |ids| && ids[k] == id ==> ids[k] in skip || !Writes(t, src[id])
    ensures AllSameAt(bs, EdgeItems(bs, t, to, ids, src, skip).beakers, id)
    decreases |ids|
  {
    if ids != [] {
      assert forall k :: 0 <= k < |ids[1..]| ==> ids[1..][k] in src && ids[1..][k] == ids[k + 1];
      if ids[0] in skip {
        EdgeItemsElsewhere(bs, t, to, ids[1..], src, skip, id);
      } else {
        var p := ItemStep(bs, t, to, ids[0], src[ids[0]]);
        ItemStepElsewhere(bs, t, to, ids[0], src[ids[0]], id);
        if p.raised.None? {
          EdgeItemsElsewhere(p.beakers, t, to, ids[1..], src, skip, id);
        }
      }
    }
  }

  /** When the loop completes, every processed id has its outcome recorded. */
  lemma {:induction false} EdgeItemsRecords(bs: map<string, Beaker>, t: Transform, to: string, ids: seq<Id>,
                                            src: map<Id, Value>, skip: set<Id>)
    requires AllWellFormed(bs) && to in bs && forall k :: 0 <= k < |ids| ==> ids[k] in src
    requires Distinct(ids) && EdgeItems(bs, t, to, ids, src, skip).raised.None?
    ensures forall k :: 0 <= k < |ids| && ids[k] !in skip ==>
              Recorded(EdgeItems(bs, t, to, ids, src, skip).beakers, t, to, ids[k], src[ids[k]])
    decreases |ids|
  {
    if ids != [] {
      assert forall k :: 0 <= k < |ids[1..]| ==> ids[1..][k] in src && ids[1..][k] == ids[k + 1];
      var q := EdgeItems(bs, t, to, ids, src, skip);
      if ids[0] in skip {
        EdgeItemsRecords(bs, t, to, ids[1..], src, skip);
        RecordsShift(q.beakers, t, to, ids, src, skip);
      } else {
        var p := ItemStep(bs, t, to, ids[0], src[ids[0]]);
        assert q == EdgeItems(p.beakers, t, to, ids[1..], src, skip);
        EdgeItemsRecords(p.beakers, t, to, ids[1..], src, skip);
        RecordsShift(q.beakers, t, to, ids, src, skip);
        ItemStepRecords(bs, t, to, ids[0], src[ids[0]]);
        RestAvoidsHead(ids);
        RecordedSurvives(p.beakers, t, to, ids[1..], src, skip, ids[0], src[ids[0]]);
      }
    }
  }

  /** What is recorded for the ids of `ids[1..]` is recorded for the same ids of `ids`. */
  lemma RecordsShift(bs: map<string, Beaker>, t: Transform, to: string, ids: seq<Id>, src: map<Id, Value>,
                     skip: set<Id>)
    requires |ids| > 0 && forall k :: 0 <= k < |ids| ==> ids[k] in src
    requires forall k :: 0 <= k < |ids[1..]| && ids[1..][k] !in skip ==> Recorded(bs, t, to, ids[1..][k], src[ids[1..][k]])
    ensures forall k :: 0 < k < |ids| && ids[k] !in skip ==> Recorded(bs, t, to, ids[k], src[ids[k]])
  {
    forall k | 0 < k < |ids| && ids[k] !in skip
      ensures Recorded(bs, t, to, ids[k], src[ids[k]])
    {
      assert ids[k] == ids[1..][k - 1];
    }
  }

  /** With distinct ids, the first id does not occur again. */
  lemma RestAvoidsHead(ids: seq<Id>)
    requires |ids| > 0 && Distinct(ids)
    ensures forall j :: 0 <= j < |ids[1..]| ==> ids[1..][j] != ids[0]
  {
    forall j | 0 <= j < |ids[1..]|
      ensures ids[1..][j] != ids[0]
    {
      assert ids[1..][j] == ids[j + 1];
    }
  }

  /** An outcome recorded under an id that the loop does not list stays recorded. */
  lemma RecordedSurvives(bs: map<string, Beaker>, t: Transform, to: string, ids: seq<Id>, src: map<Id, Value>,
                         skip: set<Id>, id: Id, item: Value)
    requires AllWellFormed(bs) && to in bs && forall k :: 0 <= k < |ids| ==> ids[k] in src
    requires forall k :: 0 <= k < |ids| ==> ids[k] != id
    requires Recorded(bs, t, to, id, item)
    ensures Recorded(EdgeItems(bs, t, to, ids, src, skip).beakers, t, to, id, item)
  {
    EdgeItemsElsewhere(bs, t, to, ids, src, skip, id);
    RecordedKept(bs, EdgeItems(bs, t, to, ids, src, skip).beakers, t, to, id, item);
  }

  /** An item step that does not raise records the item's outcome. */
  lemma ItemStepRecords(bs: map<string, Beaker>, t: Transform, to: string, id: Id, item: Value)
    requires AllWellFormed(bs) && to in bs && ItemStep(bs, t, to, id, item).raised.None?
    ensures Recorded(ItemStep(bs, t, to, id, item).beakers, t, to, id, item)
  {
  }

  /** A loop over items that are all quiet (or skipped) changes nothing. */
  lemma {:induction false} EdgeItemsQuiet(bs: map<string, Beaker>, t: Transform, to: string, ids: seq<Id>,
                                          src: map<Id, Value>, skip: set<Id>)
    requires AllWellFormed(bs) && to in bs && forall k :: 0 <= k < |ids| ==> ids[k] in src
    requires forall k :: 0 <= k < |ids| && ids[k] !in skip ==> Quiet(bs, t, ids[k], src[ids[k]])
    ensures EdgeItems(bs, t, to, ids, src, skip) == Progress(bs, None)
    decreases |ids|
  {
    if ids != [] {
      assert forall k :: 0 <= k < |ids[1..]| ==> ids[1..][k] in src && ids[1..][k] == ids[k + 1];
      if ids[0] !in skip {
        ItemStepQuiet(bs, t, to, ids[0], src[ids[0]]);
      }
      EdgeItemsQuiet(bs, t, to, ids[1..], src, skip);
    }
  }

  /** A beaker that is neither the destination nor an error beaker of the edge is not touched. */
  lemma {:induction false} EdgeItemsOnlyTargets(bs: map<string, Beaker>, t: Transform, to: string, ids: seq<Id>,
                                                src: map<Id, Value>, skip: set<Id>, n: string)
    requires AllWellFormed(bs) && to in bs && forall k :: 0 <= k < |ids| ==> ids[k] in src
    requires n in bs && n != to && forall k :: 0 <= k < |t.errorMap| ==> t.errorMap[k].beaker != n
    ensures EdgeItems(bs, t, to, ids, src, skip).beakers[n] == bs[n]
    decreases |ids|
  {
    if ids != [] {
      assert forall k :: 0 <= k < |ids[1..]| ==> ids[1..][k] in src && ids[1..][k] == ids[k + 1];
      if ids[0] in skip {
        EdgeItemsOnlyTargets(bs, t, to, ids[1..], src, skip, n);
      } else {
        var p := ItemStep(bs, t, to, ids[0], src[ids[0]]);
        assert p.beakers[n] == bs[n];
        if p.raised.None? {
          EdgeItemsOnlyTargets(p.beakers, t, to, ids[1..], src, skip, n);
        }
      }
    }
  }

  /** When the loop stops on an exception, some processed item raised it unhandled, every
      unskipped item before it keeps its recorded outcome (nothing is rolled back), and no id
      after that item has been touched. */
  lemma {:induction false} EdgeItemsAborts(bs: map<string, Beaker>, t: Transform, to: string, ids: seq<Id>,
                                           src: map<Id, Value>, skip: set<Id>)
    requires AllWellFormed(bs) && to in bs && forall k :: 0 <= k < |ids| ==> ids[k] in src
    requires Distinct(ids) && EdgeItems(bs, t, to, ids, src, skip).raised.Some?
    ensures AbortedAt(bs, EdgeItems(bs, t, to, ids, src, skip), t, to, ids, src, skip)
    decreases |ids|
  {
    var q := EdgeItems(bs, t, to, ids, src, skip);
    var rest := ids[1..];
    assert forall k :: 0 <= k < |rest| ==> rest[k] in src && rest[k] == ids[k + 1];
    assert Distinct(rest);
    if ids[0] in skip {
      assert q == EdgeItems(bs, t, to, rest, src, skip);
      EdgeItemsAborts(bs, t, to, rest, src, skip);
      AbortShift(bs, bs, q, ids, src, skip, t, to);
    } else {
      var p := ItemStep(bs, t, to, ids[0], src[ids[0]]);
      if p.raised.Some? {
        assert q == p && p.beakers == bs;
        assert Unhandled(bs, t, src[ids[0]], q.raised.value);
        assert forall j :: 0 < j < |ids| ==> AllSameAt(bs, q.beakers, ids[j]);
      } else {
        assert q == EdgeItems(p.beakers, t, to, rest, src, skip);
        EdgeItemsAborts(p.beakers, t, to, rest, src, skip);
        forall j | 0 < j < |ids|
          ensures AllSameAt(bs, p.beakers, ids[j])
        {
          ItemStepElsewhere(bs, t, to, ids[0], src[ids[0]], ids[j]);
        }
        ItemStepRecords(bs, t, to, ids[0], src[ids[0]]);
        RestAvoidsHead(ids);
        RecordedSurvives(p.beakers, t, to, rest, src, skip, ids[0], src[ids[0]]);
        AbortShift(bs, p.beakers, q, ids, src, skip, t, to);
      }
    }
  }

  /** Some unskipped id of `ids` raised the stopping exception of `q` unhandled (judged against
      the beakers `bs` it met), every unskipped id before it has its outcome recorded in `q`,
      and every id after it is as it was in `bs`. */
  ghost predicate AbortedAt(bs: map<string, Beaker>, q: Progress, t: Transform, to: string, ids: seq<Id>,
                            src: map<Id, Value>, skip: set<Id>)
    requires q.raised.Some? && forall i :: 0 <= i < |ids| ==> ids[i] in src
  {
    exists k :: 0 <= k < |ids| && ids[k] !in skip && Unhandled(bs, t, src[ids[k]], q.raised.value)
      && RecordedBefore(q.beakers, t, to, ids, src, skip, k)
      && forall j :: k < j < |ids| ==> AllSameAt(bs, q.beakers, ids[j])
  }

  /** Every unskipped id among the first `k` of `ids` has its outcome recorded in `bs`. */
  ghost predicate RecordedBefore(bs: map<string, Beaker>, t: Transform, to: string, ids: seq<Id>,
                                 src: map<Id, Value>, skip: set<Id>, k: int)
    requires forall i :: 0 <= i < |ids| ==> ids[i] in src
  {
    forall j :: 0 <= j < k && j < |ids| && ids[j] !in skip ==> Recorded(bs, t, to, ids[j], src[ids[j]])
  }

  /** Moves `RecordedBefore` from `ids[1..]` to `ids`, given the head's outcome. */
  lemma RecordedBeforeShift(bs: map<string, Beaker>, t: Transform, to: string, ids: seq<Id>,
                            src: map<Id, Value>, skip: set<Id>, k: nat)
    requires |ids| > 0 && forall i :: 0 <= i < |ids| ==> ids[i] in src
    requires RecordedBefore(bs, t, to, ids[1..], src, skip, k)
    requires ids[0] in skip || Recorded(bs, t, to, ids[0], src[ids[0]])
    ensures RecordedBefore(bs, t, to, ids, src, skip, k + 1)
  {
    forall j | 0 < j < k + 1 && j < |ids| && ids[j] !in skip
      ensures Recorded(bs, t, to, ids[j], src[ids[j]])
    {
      assert ids[j] == ids[1..][j - 1];
    }
  }

  /** Moves the witness of `EdgeItemsAborts` for `ids[1..]` to `ids`. */
  lemma AbortShift(bs: map<string, Beaker>, mid: map<string, Beaker>, q: Progress, ids: seq<Id>,
                   src: map<Id, Value>, skip: set<Id>, t: Transform, to: string)
    requires |ids| > 0 && q.raised.Some? && forall i :: 0 <= i < |ids| ==> ids[i] in src
    requires bs.Keys == mid.Keys
    requires AbortedAt(mid, q, t, to, ids[1..], src, skip)
    requires forall j :: 0 < j < |ids| ==> AllSameAt(bs, mid, ids[j])
    requires ids[0] in skip || Recorded(q.beakers, t, to, ids[0], src[ids[0]])
    ensures AbortedAt(bs, q, t, to, ids, src, skip)
  {
    var rest := ids[1..];
    var k :| 0 <= k < |rest| && rest[k] !in skip && Unhandled(mid, t, src[rest[k]], q.raised.value)
      && RecordedBefore(q.beakers, t, to, rest, src, skip, k)
      && forall j :: k < j < |rest| ==> AllSameAt(mid, q.beakers, rest[j]);
    assert ids[k + 1] == rest[k];
    assert Unhandled(bs, t, src[ids[k + 1]], q.raised.value);
    RecordedBeforeShift(q.beakers, t, to, ids, src, skip, k);
    forall j | k + 1 < j < |ids|
      ensures AllSameAt(bs, q.beakers, ids[j])
    {
      assert ids[j] == rest[j - 1];
      AllSameAtTrans(bs, mid, q.beakers, ids[j]);
    }
  }

  lemma AllSameAtTrans(a: map<string, Beaker>, b: map<string, Beaker>, c: map<string, Beaker>, id: Id)
    requires AllSameAt(a, b, id) && AllSameAt(b, c, id)
    ensures AllSameAt(a, c, id)
  {
  }

  // ---------------------------------------------------------------------------
  // Edge-level properties

  /** A completed edge has stored a truthy result under the source item's id in the destination,
      and an `ErrorType` record under that id in the first matching error beaker. */
  lemma EdgeRecordsOutcomes(bs: map<string, Beaker>, e: Edge, id: Id)
    requires AllWellFormed(bs) && e.from in bs && e.to in bs && RunEdge(bs, e).raised.None?
    requires id in bs[e.from].data && id !in bs[e.to].data
    ensures Recorded(RunEdge(bs, e).beakers, e.transform, e.to, id, bs[e.from].data[id])
  {
    var f := bs[e.from];
    EdgeItemsRecords(bs, e.transform, e.to, f.ids, f.data, IdSet(f) * IdSet(bs[e.to]));
    var k :| 0 <= k < |f.ids| && f.ids[k] == id;
  }

  /** An id already in both the source and the destination is not transformed again, and an item
      whose result is falsy adds nothing: in either case every beaker keeps its entry for that id,
      whether or not the edge completes. */
  lemma EdgeLeavesAlone(bs: map<string, Beaker>, e: Edge, id: Id)
    requires AllWellFormed(bs) && e.from in bs && e.to in bs && id in bs[e.from].data
    requires id in bs[e.to].data || !Writes(e.transform, bs[e.from].data[id])
    ensures AllSameAt(bs, RunEdge(bs, e).beakers, id)
  {
    var f := bs[e.from];
    EdgeItemsElsewhere(bs, e.transform, e.to, f.ids, f.data, IdSet(f) * IdSet(bs[e.to]), id);
  }

  /** When an edge stops on an exception, the exception is a KeyError for a missing beaker or
      comes from a source item it could not route; the unprocessed items before that one keep
      their recorded outcomes, and the items after it are untouched. */
  lemma EdgeAborts(bs: map<string, Beaker>, e: Edge)
    requires AllWellFormed(bs) && RunEdge(bs, e).raised.Some?
    ensures var q := RunEdge(bs, e);
      || (e.from !in bs && q == Progress(bs, Some(KeyErrorFor(e.from))))
      || (e.from in bs && e.to !in bs && q == Progress(bs, Some(KeyErrorFor(e.to))))
      || (e.from in bs && e.to in bs &&
          exists k :: 0 <= k < |bs[e.from].ids| && bs[e.from].ids[k] !in bs[e.to].data
            && Unhandled(bs, e.transform, bs[e.from].data[bs[e.from].ids[k]], q.raised.value)
            && (forall j :: 0 <= j < k && bs[e.from].ids[j] !in bs[e.to].data ==>
                  Recorded(q.beakers, e.transform, e.to, bs[e.from].ids[j], bs[e.from].data[bs[e.from].ids[j]]))
            && forall j :: k < j < |bs[e.from].ids| ==> AllSameAt(bs, q.beakers, bs[e.from].ids[j]))
  {
    if e.from in bs && e.to in bs {
      var f := bs[e.from];
      EdgeItemsAborts(bs, e.transform, e.to, f.ids, f.data, IdSet(f) * IdSet(bs[e.to]));
    }
  }

  /** Running an edge a second time with the same (deterministic) transform changes nothing,
      provided the first run completed and the edge is not a self-loop and does not route
      errors back into its own source. */
  lemma EdgeIdempotent(bs: map<string, Beaker>, e: Edge)
    requires AllWellFormed(bs) && e.from in bs && e.to in bs && e.from != e.to
    requires forall k :: 0 <= k < |e.transform.errorMap| ==> e.transform.errorMap[k].beaker != e.from
    requires RunEdge(bs, e).raised.None?
    ensures RunEdge(RunEdge(bs, e).beakers, e) == Progress(RunEdge(bs, e).beakers, None)
  {
    var t := e.transform;
    var f := bs[e.from];
    var skip1 := IdSet(f) * IdSet(bs[e.to]);
    var bs1 := RunEdge(bs, e).beakers;
    EdgeItemsOnlyTargets(bs, t, e.to, f.ids, f.data, skip1, e.from);
    assert bs1[e.from] == f;
    var skip2 := IdSet(f) * IdSet(bs1[e.to]);
    EdgeItemsRecords(bs, t, e.to, f.ids, f.data, skip1);
    forall k | 0 <= k < |f.ids| && f.ids[k] !in skip2
      ensures Quiet(bs1, t, f.ids[k], f.data[f.ids[k]])
    {
      var id := f.ids[k];
      EdgeItemsGrows(bs, t, e.to, f.ids, f.data, skip1);
      assert id in f.data && id !in bs1[e.to].data;
      assert id !in bs[e.to].data;
      assert Recorded(bs1, t, e.to, id, f.data[id]);
    }
    EdgeItemsQuiet(bs1, t, e.to, f.ids, f.data, skip2);
  }
}
