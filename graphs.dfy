/** The recipe's directed graph: beaker names as nodes, transforms on the edges,
    both kept in insertion order as a networkx DiGraph keeps them. */
module Graphs {
  import opened Values

  /** One `error_map` entry: a tuple of exception classes and the beaker that receives matches. */
  datatype ErrorEntry = ErrorEntry(excTypes: set<string>, beaker: string)

  /** The frozen `Transform` record stored on an edge. */
  datatype Transform = Transform(name: string, func: Callable, errorMap: seq<ErrorEntry>)

  datatype Edge = Edge(from: string, to: string, transform: Transform)

  datatype Graph = Graph(nodes: seq<string>, edges: seq<Edge>)

  /** Nodes are listed once, every edge joins two nodes, and a node pair carries at most one edge. */
  ghost predicate WellFormed(g: Graph)
  {
    && Distinct(g.nodes)
    && (forall k :: 0 <= k < |g.edges| ==> g.edges[k].from in g.nodes && g.edges[k].to in g.nodes)
    && (forall k, l :: 0 <= k < l < |g.edges| ==>
          !(g.edges[k].from == g.edges[l].from && g.edges[k].to == g.edges[l].to))
  }

  /** The first edge from `u` to `v` at position `i` or later. */
  function FindEdgeFrom(edges: seq<Edge>, u: string, v: string, i: nat): (r: Option<nat>)
    requires i <= |edges|
    ensures r.Some? ==> i <= r.value < |edges| && edges[r.value].from == u && edges[r.value].to == v
    ensures r.Some? ==> forall k :: i <= k < r.value ==> !(edges[k].from == u && edges[k].to == v)
    ensures r.None? ==> forall k :: i <= k < |edges| ==> !(edges[k].from == u && edges[k].to == v)
    decreases |edges| - i
  {
    if i == |edges| then None
    else if edges[i].from == u && edges[i].to == v then Some(i)
    else FindEdgeFrom(edges, u, v, i + 1)
  }

  function FindEdge(edges: seq<Edge>, u: string, v: string): Option<nat>
  {
    FindEdgeFrom(edges, u, v, 0)
  }

  predicate HasEdge(g: Graph, u: string, v: string)
  {
    FindEdge(g.edges, u, v).Some?
  }

  /** `graph[u][v]["transform"]`, or None when there is no such edge. */
  function EdgeData(g: Graph, u: string, v: string): (r: Option<Transform>)
    ensures r.Some? <==> HasEdge(g, u, v)
    ensures r.Some? ==> Edge(u, v, r.value) in g.edges
  {
    match FindEdge(g.edges, u, v)
    case None => None
    case Some(k) => Some(g.edges[k].transform)
  }

  /** `graph.add_node(n)`: a new name is appended; an existing one stays where it is. */
  function AddNode(g: Graph, n: string): (r: Graph)
    ensures r.edges == g.edges && g.nodes <= r.nodes && n in r.nodes
  {
    if n in g.nodes then g else g.(nodes := g.nodes + [n])
  }

  /** `graph.add_edge(u, v, transform=t)`: adds missing endpoints, then replaces the
      edge's data in place or appends a new edge. */
  function AddEdge(g: Graph, u: string, v: string, t: Transform): (r: Graph)
    ensures Edge(u, v, t) in r.edges && |g.edges| <= |r.edges| <= |g.edges| + 1
    ensures g.nodes <= r.nodes && u in r.nodes && v in r.nodes
  {
    var g1 := AddNode(AddNode(g, u), v);
    match FindEdge(g1.edges, u, v)
    case Some(k) =>
      assert g1.edges[k := Edge(u, v, t)][k] == Edge(u, v, t);
      g1.(edges := g1.edges[k := Edge(u, v, t)])
    case None => g1.(edges := g1.edges + [Edge(u, v, t)])
  }

  lemma AddNodeKeeps(g: Graph, n: string)
    requires WellFormed(g)
    ensures WellFormed(AddNode(g, n)) && AddNode(g, n).edges == g.edges
    ensures n in AddNode(g, n).nodes
    ensures AddNode(g, n).nodes[..|g.nodes|] == g.nodes
  {
  }

  /** Replacing an edge's data by an edge with the same endpoints leaves every lookup's position unchanged. */
  lemma {:induction false} FindEdgeReplace(edges: seq<Edge>, k: nat, e: Edge, a: string, b: string, i: nat)
    requires k < |edges| && i <= |edges| && e.from == edges[k].from && e.to == edges[k].to
    ensures FindEdgeFrom(edges[k := e], a, b, i) == FindEdgeFrom(edges, a, b, i)
    decreases |edges| - i
  {
    if i < |edges| {
      FindEdgeReplace(edges, k, e, a, b, i + 1);
    }
  }

  /** Appending an edge leaves every lookup that already succeeded unchanged, and decides the new pair. */
  lemma {:induction false} FindEdgeAppend(edges: seq<Edge>, e: Edge, a: string, b: string, i: nat)
    requires i <= |edges|
    ensures FindEdgeFrom(edges, a, b, i).Some? ==>
              FindEdgeFrom(edges + [e], a, b, i) == FindEdgeFrom(edges, a, b, i)
    ensures FindEdgeFrom(edges, a, b, i).None? ==>
              FindEdgeFrom(edges + [e], a, b, i) ==
                (if e.from == a && e.to == b then Some(|edges|) else None)
    decreases |edges| - i
  {
    if i < |edges| {
      FindEdgeAppend(edges, e, a, b, i + 1);
    }
  }

  lemma ReplaceEdgeKeeps(g: Graph, k: nat, e: Edge)
    requires WellFormed(g) && k < |g.edges|
    requires e.from == g.edges[k].from && e.to == g.edges[k].to
    ensures WellFormed(g.(edges := g.edges[k := e]))
  {
    var es := g.edges[k := e];
    assert forall l :: 0 <= l < |es| ==> es[l].from == g.edges[l].from && es[l].to == g.edges[l].to;
  }

  lemma AppendEdgeKeeps(g: Graph, e: Edge)
    requires WellFormed(g) && e.from in g.nodes && e.to in g.nodes
    requires FindEdge(g.edges, e.from, e.to).None?
    ensures WellFormed(g.(edges := g.edges + [e]))
  {
    var es := g.edges + [e];
    assert forall l :: 0 <= l < |g.edges| ==> es[l] == g.edges[l];
  }

  /** After `add_edge(u, v, t)` both endpoints are nodes, earlier nodes keep their order,
      and the graph is still well formed. */
  lemma AddEdgeShape(g: Graph, u: string, v: string, t: Transform)
    requires WellFormed(g)
    ensures WellFormed(AddEdge(g, u, v, t))
    ensures u in AddEdge(g, u, v, t).nodes && v in AddEdge(g, u, v, t).nodes
    ensures AddEdge(g, u, v, t).nodes[..|g.nodes|] == g.nodes
  {
    var g0 := AddNode(g, u);
    AddNodeKeeps(g, u);
    var g1 := AddNode(g0, v);
    AddNodeKeeps(g0, v);
    assert g1.nodes[..|g.nodes|] == g1.nodes[..|g0.nodes|][..|g.nodes|];
    match FindEdge(g1.edges, u, v)
    case Some(k) =>
      ReplaceEdgeKeeps(g1, k, Edge(u, v, t));
    case None =>
      AppendEdgeKeeps(g1, Edge(u, v, t));
  }

  /** After `add_edge(u, v, t)` the edge u -> v carries exactly `t`, and every other
      node pair's edge data is unchanged. */
  lemma AddEdgeSets(g: Graph, u: string, v: string, t: Transform)
    ensures EdgeData(AddEdge(g, u, v, t), u, v) == Some(t)
    ensures forall a, b :: !(a == u && b == v) ==> EdgeData(AddEdge(g, u, v, t), a, b) == EdgeData(g, a, b)
  {
    var g1 := AddNode(AddNode(g, u), v);
    assert g1.edges == g.edges;
    var e := Edge(u, v, t);
    match FindEdge(g1.edges, u, v)
    case Some(k) =>
      forall a, b ensures FindEdge(g1.edges[k := e], a, b) == FindEdge(g1.edges, a, b) {
        FindEdgeReplace(g1.edges, k, e, a, b, 0);
      }
    case None =>
      forall a, b ensures FindEdge(g1.edges, a, b).Some? ==> FindEdge(g1.edges + [e], a, b) == FindEdge(g1.edges, a, b)
        ensures FindEdge(g1.edges, a, b).None? ==>
          FindEdge(g1.edges + [e], a, b) == (if u == a && v == b then Some(|g1.edges|) else None)
      {
        FindEdgeAppend(g1.edges, e, a, b, 0);
      }
  }

  /** `graph.out_edges(u)`, in insertion order. */
  function OutEdges(edges: seq<Edge>, u: string): (r: seq<Edge>)
    ensures forall e :: e in r <==> e in edges && e.from == u
    decreases |edges|
  {
    if edges == [] then []
    else (if edges[0].from == u then [edges[0]] else []) + OutEdges(edges[1..], u)
  }

  /** `graph.in_edges(v)`, in insertion order. */
  function InEdges(edges: seq<Edge>, v: string): (r: seq<Edge>)
    ensures forall e :: e in r <==> e in edges && e.to == v
    decreases |edges|
  {
    if edges == [] then []
    else (if edges[0].to == v then [edges[0]] else []) + InEdges(edges[1..], v)
  }

  /** What `networkx.topological_sort` returns for an acyclic graph: every node once,
      and every edge's source listed before its target. */
  ghost predicate IsTopologicalOrder(g: Graph, order: seq<string>)
  {
    && Distinct(order)
    && (forall n :: n in order <==> n in g.nodes)
    && (forall i, k :: 0 <= i < |order| && 0 <= k < |g.edges| && g.edges[k].to == order[i] ==>
          g.edges[k].from in order[..i])
  }
}
