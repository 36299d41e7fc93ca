/**
 The two all-pairs drivers: each runs a shortest-path strategy from every
 source index in [0, numNodes) and collects one (src, dst, length) record
 per reachable pair. The strategies themselves are external and enter the
 model as oracles.
 */
module AllPairs {
  import opened Wrappers
  import opened Pathfinder

  /** One result row. */
  datatype ShortestPathLength = ShortestPathLength(src: nat, dst: nat, length: nat)

  /** The preprocessed-index query: the weight of the path from the first
      index to the second, or None when they are not connected. */
  type CalcPath = (nat, nat) -> Option<nat>

  /** Per-source search results: destination to (parent, cost). */
  type PathsFrom = nat -> map<nat, (nat, nat)>

  /** Lexicographic order on (src, dst). */
  predicate Precedes(a: ShortestPathLength, b: ShortestPathLength)
  {
    a.src < b.src || (a.src == b.src && a.dst < b.dst)
  }

  /** The inner loop of the preprocessed driver: destinations dst .. n-1
      for a fixed source, one query each, keeping the connected ones. */
  function RowRecords(n: nat, calcPath: CalcPath, src: nat, dst: nat): (r: seq<ShortestPathLength>)
    requires dst <= n
    ensures forall i :: 0 <= i < |r| ==>
      r[i].src == src && dst <= r[i].dst < n && calcPath(src, r[i].dst) == Some(r[i].length)
    ensures forall d: nat :: dst <= d < n && calcPath(src, d).Some? ==>
      ShortestPathLength(src, d, calcPath(src, d).value) in r
    ensures forall i, j :: 0 <= i < j < |r| ==> r[i].dst < r[j].dst
    ensures |r| <= n - dst
    decreases n - dst
  {
    if dst == n then []
    else
      var rest := RowRecords(n, calcPath, src, dst + 1);
      match calcPath(src, dst)
      case Some(w) => [ShortestPathLength(src, dst, w)] + rest
      case None => rest
  }

  /** The outer loop of the preprocessed driver: sources src .. n-1. */
  function SourceRecords(n: nat, calcPath: CalcPath, src: nat): (r: seq<ShortestPathLength>)
    requires src <= n
    ensures forall i :: 0 <= i < |r| ==>
      src <= r[i].src < n && r[i].dst < n && calcPath(r[i].src, r[i].dst) == Some(r[i].length)
    ensures forall s: nat, d: nat :: src <= s < n && d < n && calcPath(s, d).Some? ==>
      ShortestPathLength(s, d, calcPath(s, d).value) in r
    ensures forall i, j :: 0 <= i < j < |r| ==> Precedes(r[i], r[j])
    ensures |r| <= (n - src) * n
    decreases n - src
  {
    if src == n then []
    else
      var row := RowRecords(n, calcPath, src, 0);
      var rest := SourceRecords(n, calcPath, src + 1);
      assert (n - src) * n == n + (n - (src + 1)) * n;
      row + rest
  }

  /** A sequence in strictly increasing (src, dst) order holds no record
      twice. */
  lemma {:induction false} IncreasingHasNoDuplicates(r: seq<ShortestPathLength>, x: ShortestPathLength)
    requires forall i, j :: 0 <= i < j < |r| ==> Precedes(r[i], r[j])
    ensures multiset(r)[x] <= 1
    decreases |r|
  {
    if |r| > 0 {
      var tail := r[1..];
      assert r == [r[0]] + tail;
      IncreasingHasNoDuplicates(tail, x);
      if x == r[0] {
        assert forall k :: 0 <= k < |tail| ==> tail[k] == r[k + 1] && Precedes(r[0], r[k + 1]);
        assert x !in tail;
      }
    }
  }

  /** The preprocessed-strategy driver: one query per ordered pair of
      indices, a record for each connected one. */
  function AllPairsPathLength(numNodes: nat, calcPath: CalcPath): (r: seq<ShortestPathLength>)
    ensures forall s: nat, d: nat, l: nat ::
              (ShortestPathLength(s, d, l) in r <==>
                 s < numNodes && d < numNodes && calcPath(s, d) == Some(l))
    ensures forall i :: 0 <= i < |r| ==> calcPath(r[i].src, r[i].dst) == Some(r[i].length)
    ensures forall i, j :: 0 <= i < j < |r| ==> Precedes(r[i], r[j])
    ensures |r| <= numNodes * numNodes
  {
    var r := SourceRecords(numNodes, calcPath, 0);
    assert forall s: nat, d: nat, l: nat ::
             ShortestPathLength(s, d, l) in r ==> s < numNodes && d < numNodes && calcPath(s, d) == Some(l)
      by {
        forall s: nat, d: nat, l: nat | ShortestPathLength(s, d, l) in r
          ensures s < numNodes && d < numNodes && calcPath(s, d) == Some(l)
        {
          var i :| 0 <= i < |r| && r[i] == ShortestPathLength(s, d, l);
        }
      }
    r
  }

  /** Each connected pair is reported exactly once, and nothing else is. */
  lemma AllPairsPathLengthOnce(numNodes: nat, calcPath: CalcPath, s: nat, d: nat, l: nat)
    ensures multiset(AllPairsPathLength(numNodes, calcPath))[ShortestPathLength(s, d, l)]
         == (if s < numNodes && d < numNodes && calcPath(s, d) == Some(l) then 1 else 0)
  {
    var r := AllPairsPathLength(numNodes, calcPath);
    IncreasingHasNoDuplicates(r, ShortestPathLength(s, d, l));
  }

  /** The records for one source, one per key of its search result, in the
      map's iteration order (an arbitrary, fixed choice). */
  ghost function RecordsFor(src: nat, paths: map<nat, (nat, nat)>): (r: seq<ShortestPathLength>)
    ensures |r| == |paths|
    ensures forall i :: 0 <= i < |r| ==> r[i].src == src
    ensures forall s: nat, d: nat, l: nat ::
              multiset(r)[ShortestPathLength(s, d, l)]
                == (if s == src && d in paths && paths[d].1 == l then 1 else 0)
    decreases |paths|
  {
    if |paths| == 0 then []
    else
      var dst := PickKey(paths);
      [ShortestPathLength(src, dst, paths[dst].1)] + RecordsFor(src, paths - {dst})
  }

  /** The loop of the direct driver: sources src .. n-1, each followed by
      the records of its search result. */
  ghost function PathfinderRecords(n: nat, paths: PathsFrom, src: nat): (r: seq<ShortestPathLength>)
    requires src <= n
    ensures forall i :: 0 <= i < |r| ==> src <= r[i].src < n
    ensures forall i, j :: 0 <= i < j < |r| ==> r[i].src <= r[j].src
    ensures forall s: nat, d: nat, l: nat ::
              multiset(r)[ShortestPathLength(s, d, l)]
                == (if src <= s < n && d in paths(s) && paths(s)[d].1 == l then 1 else 0)
    decreases n - src
  {
    if src == n then []
    else RecordsFor(src, paths(src)) + PathfinderRecords(n, paths, src + 1)
  }

  /** The direct-strategy driver: one search per source index below
      `numNodes`, one record per destination the search returns. */
  ghost function AllPairsPathLengthPathfinder(g: PathfinderGraph, search: AllPathsSearch): (r: seq<ShortestPathLength>)
    ensures forall s: nat, d: nat, l: nat ::
              multiset(r)[ShortestPathLength(s, d, l)]
                == (if s < g.numNodes && d in AllPathsForNode(g, search, s)
                      && AllPathsForNode(g, search, s)[d].1 == l then 1 else 0)
    ensures forall i :: 0 <= i < |r| ==> r[i].src < g.numNodes
    ensures forall i, j :: 0 <= i < j < |r| ==> r[i].src <= r[j].src
  {
    PathfinderRecords(g.numNodes, s => AllPathsForNode(g, search, s), 0)
  }

  /** The direct driver with its source loop over every id up to the
      largest node id, so that no node of the graph is skipped. */
  ghost function AllPairsPathLengthPathfinderCorrected(g: PathfinderGraph, search: AllPathsSearch): (r: seq<ShortestPathLength>)
    ensures forall s: nat, d: nat ::
              s in g.successors && d in AllPathsForNode(g, search, s) ==>
                multiset(r)[ShortestPathLength(s, d, AllPathsForNode(g, search, s)[d].1)] == 1
    ensures forall s: nat, d: nat, l: nat ::
              multiset(r)[ShortestPathLength(s, d, l)]
                == (if s < IdBound(g) && d in AllPathsForNode(g, search, s)
                      && AllPathsForNode(g, search, s)[d].1 == l then 1 else 0)
    ensures forall i, j :: 0 <= i < j < |r| ==> r[i].src <= r[j].src
  {
    PathfinderRecords(IdBound(g), s => AllPathsForNode(g, search, s), 0)
  }

  /** The edge list [(1, 2, 1)] gives two keys, so the source loop stops
      before id 2: whatever the search returns from 2, no record with
      source 2 is emitted, while the corrected driver emits them all. */
  lemma SparseIdIsNeverASource(search: AllPathsSearch)
    ensures var g := IntoPathfinderGraph([WeightedEdge(1, 2, 1)]);
      && g.numNodes == 2
      && 2 in g.successors
      && (forall i :: 0 <= i < |AllPairsPathLengthPathfinder(g, search)| ==>
            AllPairsPathLengthPathfinder(g, search)[i].src != 2)
      && (forall d :: d in AllPathsForNode(g, search, 2) ==>
            ShortestPathLength(2, d, AllPathsForNode(g, search, 2)[d].1)
              in AllPairsPathLengthPathfinderCorrected(g, search))
  {
  }

  /** When the index query and the per-source search agree on every pair
      of distinct indices below `n`, and the search reaches no index at or
      past `n`, the two drivers emit the same records between distinct
      nodes, up to order. Records from a node to itself are where they can
      differ: the index driver issues the (v, v) query too and keeps its
      answer, while the direct driver keeps whatever the search returns
      for its own start. */
  lemma DriversAgree(n: nat, calcPath: CalcPath, paths: PathsFrom)
    requires forall s: nat, d: nat :: s < n && d in paths(s) ==> d < n
    requires forall s: nat, d: nat ::
               s < n && d < n && s != d ==>
                 calcPath(s, d) == (if d in paths(s) then Some(paths(s)[d].1) else None)
    ensures forall s: nat, d: nat, l: nat :: s != d ==>
              multiset(AllPairsPathLength(n, calcPath))[ShortestPathLength(s, d, l)]
                == multiset(PathfinderRecords(n, paths, 0))[ShortestPathLength(s, d, l)]
    ensures forall v: nat, l: nat ::
              multiset(AllPairsPathLength(n, calcPath))[ShortestPathLength(v, v, l)]
                == (if v < n && calcPath(v, v) == Some(l) then 1 else 0)
    ensures forall v: nat, l: nat ::
              multiset(PathfinderRecords(n, paths, 0))[ShortestPathLength(v, v, l)]
                == (if v < n && v in paths(v) && paths(v)[v].1 == l then 1 else 0)
  {
    forall s: nat, d: nat, l: nat {
      AllPairsPathLengthOnce(n, calcPath, s, d, l);
    }
  }

  /** With a search that never returns its own start and an index that
      answers every (v, v) query with a zero-length path, the index driver
      emits what the direct driver emits plus exactly one (v, v, 0) record
      per index below `n`. */
  lemma IndexDriverAddsSelfPairs(n: nat, calcPath: CalcPath, paths: PathsFrom)
    requires forall s: nat, d: nat :: s < n && d in paths(s) ==> d < n && d != s
    requires forall s: nat, d: nat ::
               s < n && d < n && s != d ==>
                 calcPath(s, d) == (if d in paths(s) then Some(paths(s)[d].1) else None)
    requires forall v: nat :: v < n ==> calcPath(v, v) == Some(0)
    ensures forall x: ShortestPathLength ::
              multiset(AllPairsPathLength(n, calcPath))[x]
                == multiset(PathfinderRecords(n, paths, 0))[x]
                   + (if x.src == x.dst && x.src < n && x.length == 0 then 1 else 0)
  {
    DriversAgree(n, calcPath, paths);
    forall x: ShortestPathLength
      ensures multiset(AllPairsPathLength(n, calcPath))[x]
           == multiset(PathfinderRecords(n, paths, 0))[x]
              + (if x.src == x.dst && x.src < n && x.length == 0 then 1 else 0)
    {
      assert x == ShortestPathLength(x.src, x.dst, x.length);
    }
  }
}
