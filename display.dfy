/** The node records `Recipe.graph_data` builds for display, and their `(rank, name)` order. */
module Display {
  import opened Values
  import opened Text
  import opened Graphs

  /** An out-edge as listed for display: its target and its transform. */
  datatype EdgeView = EdgeView(toBeaker: string, transform: Transform)

  datatype NodeInfo = NodeInfo(name: string, temp: bool, len: nat, edges: seq<EdgeView>, rank: nat)

  function EdgeViews(es: seq<Edge>): (r: seq<EdgeView>)
    ensures |r| == |es| && forall k :: 0 <= k < |es| ==> r[k] == EdgeView(es[k].to, es[k].transform)
    decreases |es|
  {
    if es == [] then [] else [EdgeView(es[0].to, es[0].transform)] + EdgeViews(es[1..])
  }

  /** The sort key `(rank, name)` compared as a Python tuple. */
  predicate NodeLt(a: NodeInfo, b: NodeInfo)
  {
    a.rank < b.rank || (a.rank == b.rank && StrLt(a.name, b.name))
  }

  lemma NodeLtTransitive(a: NodeInfo, b: NodeInfo, c: NodeInfo)
    requires NodeLt(a, b) && NodeLt(b, c)
    ensures NodeLt(a, c)
  {
    if a.rank == b.rank && b.rank == c.rank {
      StrLtTransitive(a.name, b.name, c.name);
    }
  }

  lemma NodeLtTotal(a: NodeInfo, b: NodeInfo)
    requires a.name != b.name
    ensures NodeLt(a, b) || NodeLt(b, a)
  {
    StrLtTotal(a.name, b.name);
  }

  ghost predicate SortedByRankName(s: seq<NodeInfo>)
  {
    forall i, j :: 0 <= i < j < |s| ==> NodeLt(s[i], s[j])
  }

  ghost predicate DistinctNames(s: seq<NodeInfo>)
  {
    forall i, j :: 0 <= i < j < |s| ==> s[i].name != s[j].name
  }

  /** Inserts a record whose name is new into a sorted list. */
  function Insert(x: NodeInfo, s: seq<NodeInfo>): (r: seq<NodeInfo>)
    requires SortedByRankName(s) && DistinctNames(s)
    requires forall i :: 0 <= i < |s| ==> s[i].name != x.name
    ensures SortedByRankName(r) && DistinctNames(r) && |r| == |s| + 1
    ensures forall y :: y in r <==> y == x || y in s
    decreases |s|
  {
    if s == [] then [x]
    else if NodeLt(x, s[0]) then
      assert forall y :: y in s ==> y.name != x.name && NodeLt(x, y) by {
        forall y | y in s ensures y.name != x.name && NodeLt(x, y) {
          var j :| 0 <= j < |s| && s[j] == y;
          if j > 0 {
            NodeLtTransitive(x, s[0], s[j]);
          }
        }
      }
      ConsSorted(x, s);
      [x] + s
    else
      NodeLtTotal(x, s[0]);
      var rest := Insert(x, s[1..]);
      assert forall y :: y in s[1..] ==> y in s;
      assert forall y :: y in rest ==> y.name != s[0].name && NodeLt(s[0], y);
      ConsSorted(s[0], rest);
      [s[0]] + rest
  }

  /** A record below every record of a sorted list, and named apart from them, heads it. */
  lemma ConsSorted(h: NodeInfo, s: seq<NodeInfo>)
    requires SortedByRankName(s) && DistinctNames(s)
    requires forall y :: y in s ==> y.name != h.name && NodeLt(h, y)
    ensures SortedByRankName([h] + s) && DistinctNames([h] + s)
  {
    var r := [h] + s;
    assert forall j :: 0 < j < |r| ==> r[j] == s[j - 1] && r[j] in s;
  }

  /** `sorted(..., key=lambda x: (x["rank"], x["name"]))` for records with distinct names:
      strictly increasing keys, the same records. */
  function SortByRankName(s: seq<NodeInfo>): (r: seq<NodeInfo>)
    requires DistinctNames(s)
    ensures SortedByRankName(r) && DistinctNames(r) && |r| == |s|
    ensures forall y :: y in r <==> y in s
    decreases |s|
  {
    if s == [] then []
    else
      var init, last := s[..|s| - 1], s[|s| - 1];
      InitFacts(s);
      var r := SortByRankName(init);
      assert forall i :: 0 <= i < |r| ==> r[i] in init;
      Insert(last, r)
  }

  lemma InitFacts(s: seq<NodeInfo>)
    requires DistinctNames(s) && |s| > 0
    ensures DistinctNames(s[..|s| - 1])
    ensures forall y :: y in s[..|s| - 1] ==> y.name != s[|s| - 1].name
    ensures forall y :: y in s <==> y in s[..|s| - 1] || y == s[|s| - 1]
  {
    assert s == s[..|s| - 1] + [s[|s| - 1]];
  }

  /** Every edge goes from a lower rank to a higher one, and a node has rank 1 or sits one
      above a predecessor: together, 1 plus the largest predecessor rank. */
  ghost predicate Ranked(g: Graph, s: seq<NodeInfo>)
  {
    && (forall x, y :: x in s && y in s && HasEdge(g, x.name, y.name) ==> x.rank < y.rank)
    && (forall y :: y in s ==> y.rank >= 1)
    && (forall y :: y in s ==> y.rank == 1 || exists x :: x in s && HasEdge(g, x.name, y.name) && y.rank == x.rank + 1)
  }
}
