# All-pairs shortest path lengths: adjacency builder and drivers

This project models the part of the tool that it implements itself. The
shortest-path searches come from two external libraries, and the model takes
them as given.

- **Adjacency builder** (`Pathfinder`, from `src/pathfinder.rs`). The graph is
  a map from node id to a list of `(neighbour, cost)` arcs. `Insert` creates a
  node's list when the id is new and appends the arc. `IntoPathfinderGraph`
  inserts every edge in both directions and keeps multi-edges and self-loops.
  It sets `numNodes` to the number of distinct keys. `Successors` gives a
  node's list, or `[]` for an id the map does not contain. `AllPathsForNode`
  runs the external single-source search over that successor function. The
  search is an oracle of type `AllPathsSearch`. It returns a map from each
  destination it reached to `(parent, cost)`.
- **All-pairs drivers** (`AllPairs`, from `src/main.rs`).
  - `AllPairsPathLength` is the preprocessed-index driver. It queries every
    ordered pair of indices below the node count. The query is the oracle
    `CalcPath`, which gives the path weight or `None`. The driver keeps one
    `ShortestPathLength` record for each connected pair.
  - `AllPairsPathLengthPathfinder` is the direct driver. It runs one search
    per source index below `numNodes`. It emits one record per destination
    the search returned, with that destination's cost as the length.

Ids and weights are `nat`: they are the values after the program's casts.
The order in which a search result map is iterated is not specified. The
model enumerates it by an arbitrary but fixed choice of key (`PickKey`).
That is why the direct driver and its helpers are ghost functions. Their
contracts speak only of record multiplicities and of the order of sources,
never of the order within one source.

`ArcsOf` is a reference definition: the arcs one node gets from the edge
list, in edge order. It is independent of the map. The builder lemmas
connect the map to `ArcsOf` and to the multiset of input edges.

Two behaviours of the program are worth stating plainly:
- Node ids are used as they are; nothing remaps them to a dense range. The
  direct driver's source loop therefore misses ids at or above the number
  of distinct ids (see Findings).
- The preprocessed driver issues the `(v, v)` query for every index and keeps
  whatever the index answers. The direct driver emits a `(v, v)` record only
  if the search result for `v` contains `v` itself. `DriversAgree` states
  that the two drivers agree on records between distinct nodes, and what
  each emits for `(v, v)`.

## Model

| member | source | states |
|---|---|---|
| Pathfinder.Successors | src/pathfinder.rs:17-23 | a key present in the map yields its stored list; an absent key yields the empty list |
| Pathfinder.Insert | src/pathfinder.rs:25-33 | a new key is bound to exactly `[(dst, weight)]`; an existing key's list gets `(dst, weight)` appended at its end; the key set grows by `src` only and every other list is unchanged |
| Pathfinder.InsertAddsOneArc | src/pathfinder.rs:25-33 | one insert adds exactly one arc to the total over all lists |
| Pathfinder.BuildSuccessorsKeys | src/pathfinder.rs:36-41 | after the loop, the key set is exactly the set of edge endpoints, and no key has an empty list |
| Pathfinder.IntoPathfinderGraph | src/pathfinder.rs:35-47 | the key set is the set of all endpoints; `numNodes` is its size; every list is non-empty |
| Pathfinder.BuildSuccessorsIsArcsOf | src/pathfinder.rs:38-41 | the list the loop builds for a key equals the reference arcs of that node, in edge order; a node without a key has no reference arcs |
| Pathfinder.SuccessorsAreArcsOf | src/pathfinder.rs:17-41 | for every id, present or absent, the successors of the built graph equal the reference arcs the edge list gives it |
| Pathfinder.ArcsOfCount | src/pathfinder.rs:38-41 | the reference arcs of `s` contain `(d, w)` once per copy of edge `(s, d, w)` plus once per copy of `(d, s, w)` in the input |
| Pathfinder.ArcCount | src/pathfinder.rs:38-41 | the built successors of `s` hold `(d, w)` exactly as often as `(s, d, w)` and `(d, s, w)` occur among the input edges together, so there is no dedup and no min-weight collapsing (a self-loop gives two arcs) |
| Pathfinder.ArcSymmetry | src/pathfinder.rs:38-41 | the number of `(d, w)` arcs of `s` equals the number of `(s, w)` arcs of `d` |
| Pathfinder.EdgeGivesBothArcs | src/pathfinder.rs:38-41 | every input edge `(s, d, w)` gives an arc `(d, w)` among the successors of `s` and an arc `(s, w)` among those of `d` |
| Pathfinder.ArcHasEdge | src/pathfinder.rs:38-41 | every arc `(d, w)` of `s` comes from an input edge `(s, d, w)` or `(d, s, w)` |
| Pathfinder.ArcsOfAppend | src/pathfinder.rs:38-41 | the reference arcs of a concatenated edge list are the arcs of the first part followed by those of the second |
| Pathfinder.BuildAppendsOnly | src/pathfinder.rs:25-41 | building from `edges + more` gives each node its arcs from `edges` followed by its arcs from `more`: later edges only append |
| Pathfinder.TotalArcsIsTwiceEdges | src/pathfinder.rs:38-41 | the total number of arcs over all lists is twice the number of input edges |
| Pathfinder.IdBound | src/main.rs:120 | the corrected bound for the source loop, which as written stops at the key count of src/pathfinder.rs:42: every key is below it, and it is one past the largest key (0 for an empty map) |
| AllPairs.RowRecords | src/main.rs:103-111 | for one source, every record has that source, a destination from `dst` up to `n - 1` and the query's weight as length; every destination in that range whose query returns a path has its record; destinations are strictly increasing; at most `n - dst` records |
| AllPairs.SourceRecords | src/main.rs:102-113 | for the sources from `src` up to `n - 1`: every record is in range and carries its query's weight; every connected pair in range has its record; records are strictly increasing in `(src, dst)` order; at most `(n - src) * n` records |
| AllPairs.IncreasingHasNoDuplicates | src/main.rs:102-103 | a record sequence in strictly increasing `(src, dst)` order holds no record twice |
| AllPairs.AllPairsPathLength | src/main.rs:99-115 | a record `(s, d, l)` is emitted iff `s` and `d` are below the node count and the query for `(s, d)` returns weight `l`; every record carries its query's weight unchanged; records are in strictly increasing lexicographic `(src, dst)` order; at most `numNodes²` records |
| AllPairs.AllPairsPathLengthOnce | src/main.rs:102-112 | each connected pair of indices below the node count is reported exactly once with its query's weight, and no other record occurs |
| AllPairs.RecordsFor | src/main.rs:121-127 | for one search result, there is exactly one record per destination key, with that entry's cost component as length, and all records carry the given source |
| AllPairs.PathfinderRecords | src/main.rs:120-128 | for the sources from `src` up to `n - 1`, each destination key of each source's search result gives exactly one record, with its cost as length; the sources are non-decreasing and in range |
| AllPairs.AllPairsPathLengthPathfinder | src/main.rs:117-130 | for every source below `numNodes`, exactly one record per key of that source's search result, with the entry's cost as length, and nothing else; the sources are non-decreasing |
| AllPairs.AllPairsPathLengthPathfinderCorrected | src/main.rs:117-130 | with the source loop running up to the largest node id, every node of the graph is searched, and every destination it reaches gives exactly one record |
| AllPairs.SparseIdIsNeverASource | src/main.rs:117-121 | for the edge list `[(1, 2, 1)]`, `numNodes` is 2 and node 2 is a key. The driver as written emits no record with source 2 whatever the search returns. The corrected driver emits a record for each destination reached from 2 |
| AllPairs.DriversAgree | src/main.rs:99-130 | when the index query and the per-source search agree on every pair of distinct indices below `n`, and no search reaches an index at or past `n`, both drivers emit every `(s, d, l)` record with `s != d` equally often. The index driver emits `(v, v, l)` exactly when `v < n` and the `(v, v)` query returns `l`. The direct driver emits it exactly when `v`'s search result holds `v` with cost `l` |
| AllPairs.IndexDriverAddsSelfPairs | src/main.rs:99-130 | if, in addition, the search never returns its own start and the index answers every `(v, v)` query with length 0, the index driver emits exactly the direct driver's records plus one `(v, v, 0)` record for each `v < n` |

## Left out

- Command-line parsing, reading the edge file and writing the result file (`read_weighted_nodes`, `write_shortest_paths`, `main`'s dispatch): these are I/O.
- The deserializer that accepts integer or float ids, and the `f64 as u64`, `u64 as usize` and `f32 as usize` casts: these are floating-point coercion. Ids and weights enter the model as `nat`.
- `into_input_graph` and the internals of `fast_paths::prepare`, `calc_path` and `pathfinding::dijkstra_all`: these are external libraries whose code is not part of this model. They are the oracles `CalcPath` and `AllPathsSearch`. Nothing about shortest-path optimality is claimed.
- The node count of the prepared index (`get_num_nodes`) is set by the external library, so `AllPairsPathLength` takes it as a parameter.
- The reuse of one mutable path calculator across queries: for a fixed index each query is modelled as a pure function of its two endpoints.
- `Vec::with_capacity` hints: they do not change the records of a run that completes. The model does not represent the panic or abort when the `num_nodes²` preallocation overflows `usize` or cannot be allocated, which happens before any search however few pairs are connected.
- HashMap iteration order: modelled as an arbitrary fixed choice. No contract depends on it.
- `MAX_WEIGHT_VALUE` is declared but never used by the code, so it is not modelled.
- `AllPathsForNode` has no contract of its own: it passes the graph's successor function to the opaque search, and the drivers' contracts are stated in terms of it.

## Findings

| source | as written | input that shows it | evidently intended | confidence | as-written member | corrected member |
|---|---|---|---|---|---|---|
| src/main.rs:120 | the direct driver loops `src` over `0..num_nodes`, and `num_nodes` is the number of distinct ids (src/pathfinder.rs:42) | edges `[(1, 2, 1)]`: `num_nodes` is 2, so only 0 and 1 are searched; node 2 is never a source and the record `(2, 1, 1)` is missing, though 1 and 2 are adjacent (the preprocessed strategy would report it if, as in `fast_paths`, its node count is one past the largest id; that library is not part of this model) | loop over every id up to the largest node id, so that every node is a source | high; not executed | AllPairs.SparseIdIsNeverASource | AllPairs.AllPairsPathLengthPathfinderCorrected |
