/**
 The adjacency structure handed to the single-source search: a map from node
 id to its list of (neighbour, cost) arcs, filled from an edge list with every
 edge inserted in both directions. Multi-edges and self-loops are kept.
 */
module Pathfinder {

  /** One input row. Ids and weight are the unsigned integers the program
      obtains by casting what it parsed; the casts are not modelled. */
  datatype WeightedEdge = WeightedEdge(src: nat, dst: nat, weight: nat)

  /** A successor entry: (neighbour, cost). */
  type Arc = (nat, nat)

  /** Node id to its successor list, in insertion order. */
  type Adjacency = map<nat, seq<Arc>>

  datatype PathfinderGraph = PathfinderGraph(successors: Adjacency, numNodes: nat)

  /** What the search sees of the graph: the successors of a node. */
  type SuccessorFn = nat -> seq<Arc>

  /** The external single-source search: from a start node and a successor
      function, a map from every destination it reaches to (parent, cost). */
  type AllPathsSearch = (nat, SuccessorFn) -> map<nat, (nat, nat)>

  /** The arc list of a node; a node the map does not know has none. */
  function Successors(g: PathfinderGraph, src: nat): (r: seq<Arc>)
    ensures src in g.successors ==> r == g.successors[src]
    ensures src !in g.successors ==> r == []
  {
    if src in g.successors then g.successors[src] else []
  }

  /** Runs the external search from `src` over this graph's successors. */
  function AllPathsForNode(g: PathfinderGraph, search: AllPathsSearch, src: nat): (r: map<nat, (nat, nat)>)
  {
    search(src, n => Successors(g, n))
  }

  /** Appends the arc (dst, weight) to the list of `src`, creating the list
      when `src` is not yet a key. */
  function Insert(m: Adjacency, src: nat, dst: nat, weight: nat): (r: Adjacency)
    ensures r.Keys == m.Keys + {src}
    ensures src !in m ==> r[src] == [(dst, weight)]
    ensures src in m ==> r[src] == m[src] + [(dst, weight)]
    ensures forall k :: k in m && k != src ==> r[k] == m[k]
  {
    var arcs := if src in m then m[src] else [];
    m[src := arcs + [(dst, weight)]]
  }

  /** Every id that occurs as an endpoint of some edge. */
  function Endpoints(edges: seq<WeightedEdge>): (r: set<nat>)
  {
    (set e | e in edges :: e.src) + (set e | e in edges :: e.dst)
  }

  /** No key is bound to an empty list. */
  predicate NonEmptyLists(m: Adjacency)
  {
    forall k :: k in m ==> |m[k]| > 0
  }

  lemma EndpointsSnoc(edges: seq<WeightedEdge>, e: WeightedEdge)
    ensures Endpoints(edges + [e]) == Endpoints(edges) + {e.src, e.dst}
  {
  }

  /** The map the builder loop leaves after processing `edges` in order. */
  function BuildSuccessors(edges: seq<WeightedEdge>): (m: Adjacency)
    decreases |edges|
  {
    if |edges| == 0 then map[]
    else
      var e := edges[|edges| - 1];
      Insert(Insert(BuildSuccessors(edges[..|edges| - 1]), e.src, e.dst, e.weight), e.dst, e.src, e.weight)
  }

  /** After the loop the key set is exactly the set of endpoints, and no
      key has an empty list. */
  lemma {:induction false} BuildSuccessorsKeys(edges: seq<WeightedEdge>)
    ensures BuildSuccessors(edges).Keys == Endpoints(edges)
    ensures NonEmptyLists(BuildSuccessors(edges))
    decreases |edges|
  {
    if |edges| > 0 {
      var prefix := edges[..|edges| - 1];
      var e := edges[|edges| - 1];
      assert edges == prefix + [e];
      EndpointsSnoc(prefix, e);
      BuildSuccessorsKeys(prefix);
    }
  }

  /** Builds the graph; the node count is the number of distinct keys. */
  function IntoPathfinderGraph(edges: seq<WeightedEdge>): (g: PathfinderGraph)
    ensures g.successors.Keys == Endpoints(edges)
    ensures g.numNodes == |Endpoints(edges)|
    ensures forall k :: k in g.successors ==> |g.successors[k]| > 0
  {
    var m := BuildSuccessors(edges);
    BuildSuccessorsKeys(edges);
    PathfinderGraph(m, |m.Keys|)
  }

  /** Reference definition: the arcs the edge list gives node `s`, in edge
      order, an edge (a, b, w) contributing (b, w) when a == s and then
      (a, w) when b == s. */
  function ArcsOf(edges: seq<WeightedEdge>, s: nat): (r: seq<Arc>)
    decreases |edges|
  {
    if |edges| == 0 then []
    else
      var e := edges[|edges| - 1];
      ArcsOf(edges[..|edges| - 1], s)
        + (if e.src == s then [(e.dst, e.weight)] else [])
        + (if e.dst == s then [(e.src, e.weight)] else [])
  }

  lemma {:induction false} BuildSuccessorsIsArcsOf(edges: seq<WeightedEdge>, s: nat)
    ensures s in BuildSuccessors(edges) ==> BuildSuccessors(edges)[s] == ArcsOf(edges, s)
    ensures s !in BuildSuccessors(edges) ==> ArcsOf(edges, s) == []
    decreases |edges|
  {
    if |edges| > 0 {
      var prefix := edges[..|edges| - 1];
      var e := edges[|edges| - 1];
      BuildSuccessorsIsArcsOf(prefix, s);
      var m0 := BuildSuccessors(prefix);
      var m1 := Insert(m0, e.src, e.dst, e.weight);
      assert BuildSuccessors(edges) == Insert(m1, e.dst, e.src, e.weight);
      var a := if e.src == s then [(e.dst, e.weight)] else [];
      var b := if e.dst == s then [(e.src, e.weight)] else [];
      assert ArcsOf(edges, s) == ArcsOf(prefix, s) + a + b;
      assert s in m1 ==> m1[s] == ArcsOf(prefix, s) + a;
      assert s !in m1 ==> ArcsOf(prefix, s) + a == [];
    }
  }

  /** The successors of every node, present or not, are exactly the arcs the
      edge list gives it, in edge order. */
  lemma {:induction false} SuccessorsAreArcsOf(edges: seq<WeightedEdge>, s: nat)
    ensures Successors(IntoPathfinderGraph(edges), s) == ArcsOf(edges, s)
  {
    BuildSuccessorsIsArcsOf(edges, s);
  }

  lemma {:induction false} ArcsOfCount(edges: seq<WeightedEdge>, s: nat, d: nat, w: nat)
    ensures multiset(ArcsOf(edges, s))[(d, w)]
         == multiset(edges)[WeightedEdge(s, d, w)] + multiset(edges)[WeightedEdge(d, s, w)]
    decreases |edges|
  {
    if |edges| > 0 {
      var prefix := edges[..|edges| - 1];
      var e := edges[|edges| - 1];
      assert edges == prefix + [e];
      ArcsOfCount(prefix, s, d, w);
    }
  }

  /** Each copy of edge (s, d, w) and each copy of (d, s, w) gives one
      (d, w) arc to s: nothing is deduplicated or collapsed. */
  lemma ArcCount(edges: seq<WeightedEdge>, s: nat, d: nat, w: nat)
    ensures multiset(Successors(IntoPathfinderGraph(edges), s))[(d, w)]
         == multiset(edges)[WeightedEdge(s, d, w)] + multiset(edges)[WeightedEdge(d, s, w)]
  {
    SuccessorsAreArcsOf(edges, s);
    ArcsOfCount(edges, s, d, w);
  }

  /** s has as many (d, w) arcs as d has (s, w) arcs. */
  lemma ArcSymmetry(edges: seq<WeightedEdge>, s: nat, d: nat, w: nat)
    ensures multiset(Successors(IntoPathfinderGraph(edges), s))[(d, w)]
         == multiset(Successors(IntoPathfinderGraph(edges), d))[(s, w)]
  {
    ArcCount(edges, s, d, w);
    ArcCount(edges, d, s, w);
  }

  /** Every edge is traversable from both of its endpoints. */
  lemma EdgeGivesBothArcs(edges: seq<WeightedEdge>, i: nat)
    requires i < |edges|
    ensures (edges[i].dst, edges[i].weight) in Successors(IntoPathfinderGraph(edges), edges[i].src)
    ensures (edges[i].src, edges[i].weight) in Successors(IntoPathfinderGraph(edges), edges[i].dst)
  {
    var e := edges[i];
    assert e in multiset(edges);
    ArcCount(edges, e.src, e.dst, e.weight);
    ArcCount(edges, e.dst, e.src, e.weight);
    assert (e.dst, e.weight) in multiset(Successors(IntoPathfinderGraph(edges), e.src));
    assert (e.src, e.weight) in multiset(Successors(IntoPathfinderGraph(edges), e.dst));
  }

  /** Every arc stems from an input edge in one of its two directions. */
  lemma ArcHasEdge(edges: seq<WeightedEdge>, s: nat, d: nat, w: nat)
    ensures (d, w) in Successors(IntoPathfinderGraph(edges), s) ==>
              WeightedEdge(s, d, w) in edges || WeightedEdge(d, s, w) in edges
  {
    ArcCount(edges, s, d, w);
    assert (d, w) in Successors(IntoPathfinderGraph(edges), s) ==>
             (d, w) in multiset(Successors(IntoPathfinderGraph(edges), s));
  }

  lemma {:induction false} ArcsOfAppend(edges: seq<WeightedEdge>, more: seq<WeightedEdge>, s: nat)
    ensures ArcsOf(edges + more, s) == ArcsOf(edges, s) + ArcsOf(more, s)
    decreases |more|
  {
    if |more| == 0 {
      assert edges + more == edges;
    } else {
      var prefix := more[..|more| - 1];
      assert (edges + more)[..|edges + more| - 1] == edges + prefix;
      assert (edges + more)[|edges + more| - 1] == more[|more| - 1];
      ArcsOfAppend(edges, prefix, s);
    }
  }

  /** Building is append-only: later edges only extend the lists earlier
      edges produced, and never reorder or drop an arc. */
  lemma BuildAppendsOnly(edges: seq<WeightedEdge>, more: seq<WeightedEdge>, s: nat)
    ensures Successors(IntoPathfinderGraph(edges + more), s)
         == Successors(IntoPathfinderGraph(edges), s) + Successors(IntoPathfinderGraph(more), s)
  {
    SuccessorsAreArcsOf(edges + more, s);
    SuccessorsAreArcsOf(edges, s);
    SuccessorsAreArcsOf(more, s);
    ArcsOfAppend(edges, more, s);
  }

  /** Some key of a non-empty map, fixed but unspecified. */
  ghost function PickKey<V>(m: map<nat, V>): (k: nat)
    requires |m| > 0
    ensures k in m
  {
    var k :| k in m; k
  }

  /** Total number of arcs over all lists. */
  ghost function TotalArcs(m: Adjacency): (r: nat)
    decreases |m|
  {
    if |m| == 0 then 0
    else
      var k := PickKey(m);
      |m[k]| + TotalArcs(m - {k})
  }

  lemma {:induction false} TotalArcsRemove(m: Adjacency, k: nat)
    requires k in m
    ensures TotalArcs(m) == |m[k]| + TotalArcs(m - {k})
    decreases |m|
  {
    var k' := PickKey(m);
    if k' != k {
      assert m - {k'} - {k} == m - {k} - {k'};
      TotalArcsRemove(m - {k'}, k);
      TotalArcsRemove(m - {k}, k');
    }
  }

  lemma InsertAddsOneArc(m: Adjacency, src: nat, dst: nat, weight: nat)
    ensures TotalArcs(Insert(m, src, dst, weight)) == TotalArcs(m) + 1
  {
    var r := Insert(m, src, dst, weight);
    TotalArcsRemove(r, src);
    if src in m {
      assert r - {src} == m - {src};
      TotalArcsRemove(m, src);
    } else {
      assert r - {src} == m;
    }
  }

  /** Every edge becomes exactly two arcs. */
  lemma {:induction false} TotalArcsIsTwiceEdges(edges: seq<WeightedEdge>)
    ensures TotalArcs(IntoPathfinderGraph(edges).successors) == 2 * |edges|
    decreases |edges|
  {
    if |edges| > 0 {
      var prefix := edges[..|edges| - 1];
      var e := edges[|edges| - 1];
      TotalArcsIsTwiceEdges(prefix);
      var m := BuildSuccessors(prefix);
      InsertAddsOneArc(m, e.src, e.dst, e.weight);
      InsertAddsOneArc(Insert(m, e.src, e.dst, e.weight), e.dst, e.src, e.weight);
    }
  }

  /** The largest id of a non-empty id set. */
  ghost function MaxId(ids: set<nat>): (top: nat)
    requires |ids| > 0
    ensures top in ids
    ensures forall k :: k in ids ==> k <= top
    decreases |ids|
  {
    var x :| x in ids;
    var rest := ids - {x};
    if |rest| == 0 then
      assert forall k :: k in ids ==> k == x || k in rest;
      x
    else
      var t := MaxId(rest);
      if x > t then x else t
  }

  /** One more than the largest node id (0 for an empty graph): the range of
      ids a source loop has to cover to reach every node. */
  ghost function IdBound(g: PathfinderGraph): (b: nat)
    ensures forall k :: k in g.successors ==> k < b
    ensures b == 0 || b - 1 in g.successors
  {
    if |g.successors| == 0 then 0 else MaxId(g.successors.Keys) + 1
  }
}
