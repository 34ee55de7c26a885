# Temporal graph store and temporal sampler

A Dafny model of two components of GNNFlow.

- **DynamicGraph** is an append-only temporal adjacency store. It keeps each
  vertex's out-edges newest first. `add_edges(srcs, dsts, ts)` ingests a
  batch, and so does the one-vertex helper `_add_edges_for_one_vertex`. A
  batch is grouped by source vertex in ascending order. Each group is sorted
  by time. Edge ids come from one global counter, in vertex-major,
  time-minor order. Under the default insertion policy, a batch that would
  put a timestamp at or below a vertex's newest stored time is refused; the
  "new" policy also accepts a timestamp equal to the newest. `get_temporal_neighbors(v, start,
  end)` returns the edges with `start <= ts <= end`, newest first, as three
  columns. `num_edges`, `num_vertices` and `out_degree` are counters.
- **TemporalSampler** builds computation layers from the store. It builds
  one layer per hop and per snapshot. A layer's node table holds the
  destinations first, then one row per sampled neighbour. Each destination
  takes at most `fanout` of its newest candidates inside its window. Edges
  run from a sampled row to the row of the destination that produced it.
  Each edge carries `dt = dst_ts - src_ts` and the store's edge id. The
  sampled rows of one hop are the destinations of the next. Each snapshot
  moves every cutoff back by a multiple of the window, at every hop.

The implementation modules `dgnn/dynamic_graph.py` and
`dgnn/temporal_sampler.py` are not part of this model. Their behaviour is
modelled from the concrete assertions in `tests/test_dynamic_graph.py` and
`tests/test_temporal_sampler.py`.

Files:

- `timeline.dfy` (module `Timeline`):
  - the stored edge;
  - the newest-first order;
  - the inclusive time-range filter;
  - the block-wise scan with early termination, proved equal to the filter.
- `ingestion.dfy` (module `Ingestion`):
  - the batch as values: grouping by source, the stable time sort, id
    numbering;
  - the admission check under both insertion policies;
  - the store invariant: every list is newest first, and the ids are
    0 .. n - 1, each used once.
- `dynamic_graph.dfy` (module `GraphStore`):
  - the class `DynamicGraph`, whose fields are the per-vertex block chains
    and the counters;
  - its ingestion methods, with loops over the vertices in ascending order;
  - its queries, stated against the flattened adjacency.
- `sampling.dfy` (module `Sampling`):
  - one layer as a function of the store and its destinations;
  - the hop and snapshot stack;
  - the properties of both.
- `temporal_sampler.dfy` (module `Sampler`): the class `TemporalSampler`.
  Its layer assembly is a loop that appends to growing columns, proved
  equal to the functions of `Sampling`.

Timestamps are `real` (exact), so cutoffs like 1.5 are exact. Vertex ids and
edge ids are unbounded `nat`.

Snapshots and windows, as tests/test_temporal_sampler.py:129 and :145 show them:

- Snapshot windows are closed at both ends.
- The last snapshot index is the newest window.
- Snapshot `s` of `S` moves cutoffs back by `(S - 1 - s)·w`.
- With one snapshot, the window has no lower end.
- The first argument of `_sample_layer_from_root` is the fanout
  (tests/test_temporal_sampler.py:21).

Some functions are definitions that other members' contracts are stated
in, and carry no row of their own:

- `GraphStore.FlattenAll` reads each vertex's block chain as one list. What
  it means for the store is stated by `GraphStore.FlattenAllUpdate` and
  `GraphStore.ReplaceChain`.
- `Sampling.SampledRows` gives the rows of a layer after its destination
  rows. `Sampling.LayersUpTo` gives the stack of the first h hops. Their
  content is stated by `Sampling.HopDestinations`,
  `Sampling.SampleAllLayout` and `Sampling.LayersUpToStep`.
- `Sampling.Layers` gives one layer per snapshot. It is what
  `Sampler.TemporalSampler.SampleSnapshots` is proved equal to.
- `Sampler.Roots` pairs each root vertex with its cutoff.

## Model

| member | source | states |
|---|---|---|
| Timeline.NewestFirstPairs | tests/test_dynamic_graph.py:23-27 | In a newest-first list, timestamps never increase and ids strictly decrease, between any two positions |
| Timeline.PairsNewestFirst | tests/test_dynamic_graph.py:175-178 | Conversely, a list whose positions are pairwise ordered that way is newest first |
| Timeline.InWindowMembers | tests/test_dynamic_graph.py:339-358 | The range filter keeps exactly the stored edges with start <= ts <= end, both ends inclusive |
| Timeline.InWindowNewestFirst | tests/test_dynamic_graph.py:269-273 | Filtering a newest-first list leaves it newest first |
| Timeline.InWindowAppend | tests/test_dynamic_graph.py:175-178 | Filtering a concatenation is the concatenation of the filtered parts |
| Timeline.NothingAfterStart | tests/test_dynamic_graph.py:322-326 | When a newest-first list's head is older than the start bound, nothing in the list is in range |
| Timeline.ScanChainIsFilter | tests/test_dynamic_graph.py:13-27 | On a newest-first chain, the block-wise scan that stops at the first block older than the start returns exactly the filter's answer over the flattened chain |
| Timeline.InWindowUnbounded | tests/test_dynamic_graph.py:23-27 | A query without bounds returns every stored edge, in stored order |
| Timeline.InWindowEndBound | tests/test_dynamic_graph.py:276-310 | An end bound below every stored time gives nothing; an end bound at or above every stored time, with no start, gives everything |
| Ingestion.MaxOf | tests/test_dynamic_graph.py:17-20 | The maximum bounds every entry and is one of them when the list is not empty |
| Ingestion.MaxVertex | tests/test_dynamic_graph.py:58-63 | Every source and every target of the batch is at most the batch's largest vertex id |
| Ingestion.MaxVertexAttained | tests/test_dynamic_graph.py:58-63 | The largest vertex id of a non-empty batch is some arrival's source or target |
| Ingestion.GroupOf | tests/test_dynamic_graph.py:58-82 | The pairs in a vertex's group are exactly the (target, time) pairs of the arrivals with that source, and the group is no longer than the batch |
| Ingestion.GroupOfSingle | tests/test_dynamic_graph.py:58-61 | A one-row batch gives its vertex that row's pair and every other vertex nothing |
| Ingestion.GroupOfAppend | tests/test_dynamic_graph.py:36-50 | The group of two batches laid end to end is the first's group followed by the second's, so a group keeps every row of its vertex, repeated rows included, in batch order |
| Ingestion.CountBelowStep | tests/test_dynamic_graph.py:69-82 | The ids used before vertex v + 1 are those used before v plus v's group |
| Ingestion.CountBelowAll | tests/test_dynamic_graph.py:58-62 | Counting over all the sources of a batch counts the whole batch |
| Ingestion.CountBelowZero | tests/test_dynamic_graph.py:69-72 | No ids are used before vertex 0 |
| Ingestion.CountBelowMonotone | tests/test_dynamic_graph.py:69-82 | The id offset of a vertex never decreases with the vertex id |
| Ingestion.InsertPermutes | tests/test_dynamic_graph.py:94-98 | Inserting into the sorted list adds exactly that element |
| Ingestion.InsertAscending | tests/test_dynamic_graph.py:94-98 | Inserting into an ascending list keeps it ascending |
| Ingestion.InsertNoneBefore | tests/test_dynamic_graph.py:94-98 | Inserting an element no older than a bound keeps every element at or after the bound |
| Ingestion.SortByTimePermutes | tests/test_dynamic_graph.py:94-119 | The time sort is a permutation of its input |
| Ingestion.SortByTimeAscending | tests/test_dynamic_graph.py:94-119 | The time sort's result is ascending by time |
| Ingestion.SortByTimeStable | tests/test_dynamic_graph.py:36-50 | The time sort is stable: the entries sharing one timestamp keep their input order |
| Ingestion.SortedHeadIsOldest | tests/test_dynamic_graph.py:196-211 | The head of the sorted group is one of its entries and is the oldest |
| Ingestion.IncomingAt | tests/test_dynamic_graph.py:17-27 | With m pending edges, entry i of the stored group is the (m - 1 - i)-th oldest of them, with id base + m - 1 - i |
| Ingestion.IncomingNewestFirst | tests/test_dynamic_graph.py:23-27 | The stored group is newest first |
| Ingestion.IncomingContents | tests/test_dynamic_graph.py:36-50 | The stored group holds exactly the pending (target, time) pairs, duplicates included |
| Ingestion.IncomingIds | tests/test_dynamic_graph.py:23-27 | The ids of a stored group of m edges are exactly base .. base + m - 1 |
| Ingestion.IncomingShape | tests/test_dynamic_graph.py:9-51 | A stored group of m edges has length m, is newest first, counts its ids down from base + m - 1, holds exactly the group's pairs, and uses exactly the ids base .. base + m - 1 |
| Ingestion.PolicyNewExtendsDefault | tests/test_dynamic_graph.py:215-257 | Every batch the default policy admits, the "new" policy admits too; a batch strictly newer than every stored edge of its sources is admitted by both |
| Ingestion.IngestAppendOnly | tests/test_dynamic_graph.py:163-178 | After ingestion, a vertex's list is its new group followed by its old list unchanged, and the new part holds exactly the group's pairs |
| Ingestion.IngestIdBlock | tests/test_dynamic_graph.py:69-119 | A vertex's new ids lie in its vertex-major range, and within the batch an older edge has a smaller id than a newer one |
| Ingestion.IngestVertexMajor | tests/test_dynamic_graph.py:69-82 | Every new id of a smaller source vertex is below every new id of a larger one |
| Ingestion.AllNewestFirstAt | tests/test_dynamic_graph.py:175-188 | In a store whose lists are all newest first, each vertex's list is newest first |
| Ingestion.AllNewestFirstFrom | tests/test_dynamic_graph.py:175-188 | If each vertex's list is newest first, the store's lists are all newest first |
| Ingestion.AllBoundedAt | tests/test_dynamic_graph.py:168-173 | In a bounded store every vertex's ids are below the counter and its targets below the vertex count |
| Ingestion.AllBoundedFrom | tests/test_dynamic_graph.py:168-173 | Per-vertex bounds give a bounded store |
| Ingestion.OccursInAppend | tests/test_dynamic_graph.py:164-178 | The occurrences of an id in a concatenation add up |
| Ingestion.OccurrencesAbove | tests/test_dynamic_graph.py:164-178 | No id at or above the counter occurs in the store |
| Ingestion.OccursInCountdown | tests/test_dynamic_graph.py:175-178 | A list of m edges whose ids count down from base + m - 1 holds each id of base .. base + m - 1 once and no other |
| Ingestion.StoreUpdateCounts | tests/test_dynamic_graph.py:62-67 | Prepending edges to one vertex adds their id occurrences and their number to the store's totals |
| Ingestion.StoreEmptiesCounts | tests/test_dynamic_graph.py:17-20 | Adding vertices with no edges changes no count |
| Ingestion.StoreEmpty | tests/test_dynamic_graph.py:13 | The empty store satisfies the store invariant |
| Ingestion.StoreGrow | tests/test_dynamic_graph.py:17-21 | Adding empty vertices keeps the store invariant |
| Ingestion.NewestFirstConcat | tests/test_dynamic_graph.py:175-178 | Putting a newest-first list whose entries are all newer, with larger ids, in front of another newest-first list gives a newest-first list |
| Ingestion.IncomingFromGroup | tests/test_dynamic_graph.py:164-178 | Each stored new edge is one of the group's pairs, with an id in the new range |
| Ingestion.PrependedList | tests/test_dynamic_graph.py:163-178 | An admitted group prepended to a vertex's list leaves the list newest first and within the new bounds |
| Ingestion.StorePrepend | tests/test_dynamic_graph.py:163-188 | Prepending an admitted group keeps the store invariant, with the counter advanced by the group's size |
| Ingestion.StoreReplace | tests/test_dynamic_graph.py:163-188 | Replacing a vertex's list by a newest-first, bounded list with unique ids keeps the store invariant |
| Ingestion.StoreIdsPrepend | tests/test_dynamic_graph.py:164-178 | After prepending a numbered group, each id below the new counter is used exactly once, so none is reused |
| Ingestion.GroupRows | tests/test_dynamic_graph.py:196-211 | An admitted batch admits each vertex's group, and the group's targets are within the batch's largest id |
| GraphStore.PrependBlocks | tests/test_dynamic_graph.py:13-27 | Splitting a numbered group into blocks of at most block_size, in front of a chain, keeps every block within size, and the flattened chain reads the group newest first, then the old chain |
| GraphStore.ReplaceChain | tests/test_dynamic_graph.py:163-178 | Installing the new chain of one vertex keeps the blocks within size, changes only that vertex's flattened list, and keeps the store invariant |
| GraphStore.FlattenAllUpdate | tests/test_dynamic_graph.py:163-178 | Replacing one chain replaces only that vertex's flattened list |
| GraphStore.AppendEmptyChains | tests/test_dynamic_graph.py:17-20 | New vertices get empty chains, and the store invariant holds over the larger vertex count |
| GraphStore.ExtendedAtGrow | tests/test_dynamic_graph.py:17-20 | Growing the vertex table and then prepending to one vertex is the reference update of the old table |
| GraphStore.IngestStep | tests/test_dynamic_graph.py:69-82 | Ingesting vertex v on a table that holds vertices below v ingested gives the table with vertices up to v ingested |
| GraphStore.IngestAtIndex | tests/test_dynamic_graph.py:69-82 | In the ingested table, vertex v's list is its group, numbered from the ids used by smaller vertices, followed by its old list |
| GraphStore.PartlyIngestedStart | tests/test_dynamic_graph.py:58-61 | Before the vertex loop, the partly ingested table is the store's current table |
| GraphStore.PartlyIngestedEnd | tests/test_dynamic_graph.py:58-61 | After the last vertex, the partly ingested table is the fully ingested one |
| GraphStore.ExtendedAtNothing | tests/test_dynamic_graph.py:67 | A vertex with no group is left as it is |
| GraphStore.OldestDecides | tests/test_dynamic_graph.py:196-211 | A group is admitted exactly when its oldest entry is |
| GraphStore.PendingsAdmissible | tests/test_dynamic_graph.py:196-211 | In an admitted group, every entry is admitted and its target is within the group's largest target |
| GraphStore.DynamicGraph.Neighbors | tests/test_dynamic_graph.py:23-27 | In a valid store, a vertex's stored edges, newest first, and empty for a vertex never seen |
| GraphStore.DynamicGraph.constructor | tests/test_dynamic_graph.py:13 | A new store is valid and empty, with both counters at 0 |
| GraphStore.DynamicGraph.Create | tests/test_dynamic_graph.py:13 | A block size of 0 or less is a configuration error; otherwise a fresh valid empty store with the given policy |
| GraphStore.DynamicGraph.NumEdges | tests/test_dynamic_graph.py:19 | num_edges is the total number of stored edges |
| GraphStore.DynamicGraph.NumVertices | tests/test_dynamic_graph.py:20 | num_vertices is the size of the vertex table, which covers every stored target |
| GraphStore.DynamicGraph.GetTemporalNeighbors | tests/test_dynamic_graph.py:259-358 | The answer is the columns of the vertex's in-range edges, in stored order; the columns have equal length; timestamps never increase and ids strictly decrease |
| GraphStore.DynamicGraph.OutDegree | tests/test_dynamic_graph.py:64-67 | out_degree(v) is the number of v's stored edges, which is what an unbounded query returns |
| GraphStore.DynamicGraph.Grow | tests/test_dynamic_graph.py:17-20 | The vertex table grows to max(old, n), keeps every vertex's edges, and keeps the edge counter |
| GraphStore.DynamicGraph.AddEdgesForOneVertex | tests/test_dynamic_graph.py:9-51 | Unequal or empty inputs fail with InvalidBatchShape; a timestamp the policy refuses fails with OutOfOrderTimestamp; a failure changes nothing; otherwise num_edges grows by the group, num_vertices covers v and every target, and v's list gains the numbered group in front |
| GraphStore.DynamicGraph.GroupAdmissible | tests/test_dynamic_graph.py:196-211 | Returns whether the policy admits every timestamp of the group for v |
| GraphStore.DynamicGraph.InsertGroup | tests/test_dynamic_graph.py:17-27 | Prepends an admitted group to v's list, numbered from the counter, and updates both counters |
| GraphStore.DynamicGraph.PrependGroup | tests/test_dynamic_graph.py:163-178 | Prepends a numbered group to v's chain and changes no other vertex |
| GraphStore.DynamicGraph.AddEdges | tests/test_dynamic_graph.py:53-213 | Unequal or empty columns fail with InvalidBatchShape; a batch the policy refuses anywhere fails with OutOfOrderTimestamp and changes nothing; otherwise the table is the reference batch ingestion, num_edges grows by the batch and num_vertices covers every source and target |
| GraphStore.DynamicGraph.AdmitsAll | tests/test_dynamic_graph.py:196-211 | Returns whether every arrival of the batch is admitted for its source |
| GraphStore.DynamicGraph.IngestBatch | tests/test_dynamic_graph.py:53-194 | An admitted batch is ingested exactly as the reference ingestion says |
| GraphStore.DynamicGraph.IngestAll | tests/test_dynamic_graph.py:69-82 | The loop over vertices in ascending order ends with the reference ingestion and the counter advanced by the batch |
| GraphStore.DynamicGraph.IngestVertex | tests/test_dynamic_graph.py:69-82 | One loop step ingests vertex v's group with ids after those of smaller vertices |
| GraphStore.DynamicGraph.IngestGroup | tests/test_dynamic_graph.py:69-82 | Prepends one vertex's admitted group, numbered from the counter |
| Sampling.Layer | tests/test_temporal_sampler.py:31-32 | A layer is well shaped, has one destination row per destination, and num_src_nodes is the destinations plus one row per edge |
| Sampling.SnapshotWindow | tests/test_temporal_sampler.py:123-159 | With several snapshots, snapshot s of a root with cutoff t sees exactly the edges with t - (S - s)·w <= ts <= t - (S - 1 - s)·w, so the last snapshot is [t - w, t]; with one snapshot, every edge with ts <= t |
| Sampling.TakeFits | tests/test_temporal_sampler.py:93-101 | A destination takes a prefix of at most fanout of its candidates, and all of them when they fit |
| Sampling.TakesNewest | tests/test_temporal_sampler.py:21-30 | Candidates are newest first, and no candidate left out is newer than one taken |
| Sampling.TagAllRows | tests/test_temporal_sampler.py:33-34 | Picks laid out destination-major have non-decreasing rows |
| Sampling.TagAllMembers | tests/test_temporal_sampler.py:24-30 | Each pick comes from the choices of the row it is tagged with |
| Sampling.TagAllEmpty | tests/test_temporal_sampler.py:221-226 | When no destination chooses anything, there are no picks |
| Sampling.PicksAppend | tests/test_temporal_sampler.py:48-62 | The picks of two destination lists concatenated are the first list's picks followed by the second's, rows moved down by the first list's length |
| Sampling.RowBlock | tests/test_temporal_sampler.py:33-34 | Destination i's picks are the consecutive positions Start(i) .. Start(i + 1) - 1 and are its first fanout candidates, tagged with row i |
| Sampling.PicksAreCandidates | tests/test_temporal_sampler.py:24-30 | Every pick is a candidate of the destination it is tagged with |
| Sampling.RowsAscending | tests/test_temporal_sampler.py:104-107 | Pick rows never decrease along the edge list |
| Sampling.LayerPicks | tests/test_temporal_sampler.py:24-34 | The node and edge columns of a layer, read pick by pick: destination rows are the destinations with their cutoffs; edge k runs from row D + k to its pick's row and carries the pick's id and cutoff minus time; row D + k holds the pick's target and time |
| Sampling.LayerShape | tests/test_temporal_sampler.py:24-34 | Destination rows are the inputs in order with their cutoffs; edge sources are D, D + 1, ...; each edge points at a destination row and rows never decrease; dt is the destination's cutoff minus the sampled time and is never negative; each sampled row and edge id is a candidate of its destination |
| Sampling.LayerRowBlock | tests/test_temporal_sampler.py:24-34 | Destination i's edges occupy consecutive positions from its start, one per edge it takes, point at row i, and carry the ids and time gaps of what it takes; its sampled rows hold the targets and times of what it takes |
| Sampling.RepeatedDestination | tests/test_temporal_sampler.py:48-62 | Two rows with the same vertex and cutoff get equal, separate blocks of sampled rows and edges, each pointing at its own row |
| Sampling.LayersUpToStep | tests/test_temporal_sampler.py:80-107 | One more hop puts its layer in front of the stack |
| Sampling.FirstHop | tests/test_temporal_sampler.py:80-91 | The roots' layers are the one-hop stack |
| Sampling.NextHop | tests/test_temporal_sampler.py:93-107 | Every later hop samples, per snapshot, from the sampled rows of the front layer built so far, and extends the stack by one hop |
| Sampling.NoCandidatesNoEdges | tests/test_temporal_sampler.py:216-241 | Destinations with nothing in their windows give a layer with no edges, whose node rows are the destinations alone |
| Sampling.SampleAllLayout | tests/test_temporal_sampler.py:80-241 | The output has one layer per fanout and one block per snapshot; the last layer samples the shifted roots with fanouts[0]; every other layer samples the sampled rows of the layer after it, in the same snapshot, shifted again |
| Sampling.HopDestinations | tests/test_temporal_sampler.py:216-235 | Layer l's destination rows are layer l + 1's sampled rows, with the same vertices and their times moved back by the snapshot's shift |
| Sampler.TakeColumns | tests/test_temporal_sampler.py:21-30 | The first k answers of a neighbour query, taken column by column, are the columns of what the destination takes |
| Sampler.TemporalSampler.constructor | tests/test_temporal_sampler.py:123-124 | A sampler keeps its store and configuration |
| Sampler.TemporalSampler.Create | tests/test_temporal_sampler.py:123-124 | No snapshot at all, or several snapshots without a positive window, is a configuration error; otherwise a fresh sampler with the given configuration |
| Sampler.TemporalSampler.TakeNeighbors | tests/test_temporal_sampler.py:21-30 | One destination's query over its window, cut to fanout, as targets, times, time gaps and ids of what the destination takes |
| Sampler.TemporalSampler.SampleLayer | tests/test_temporal_sampler.py:21-34 | The layer assembled by appending each destination's rows and edges in turn is the layer of the model |
| Sampler.TemporalSampler.SampleSnapshots | tests/test_temporal_sampler.py:123-159 | One sampled layer per snapshot, for that snapshot's destinations |
| Sampler.TemporalSampler.SampleLayerFromRoot | tests/test_temporal_sampler.py:21-34 | The roots' layer of every snapshot, each with the snapshot's shift |
| Sampler.TemporalSampler.SampleLayerFromPrevious | tests/test_temporal_sampler.py:93-107 | The next hop of every snapshot, from the previous layer's sampled rows, shifted again |
| Sampler.TemporalSampler.Sample | tests/test_temporal_sampler.py:77-241 | The hop-by-hop loop returns the model's whole stack, indexed [layer][snapshot], with the roots' layer last |

## Left out

- dgnn/distributed/graph_services.py is not part of this model. It is a process-wide singleton wrapper around the store, with no logic of its own.
- The partitioner is not part of this model. Its test file loads a dataset from disk and asserts nothing, and its scoring is floating point.
- Tensors and DGL block objects are plain sequences and a `Block` datatype.
- Neighbour selection when there are more candidates than the fanout: the model takes the newest `fanout`. No case beyond "all candidates when they fit" is asserted in the source.
- The "new" insertion policy is modelled as accepting a timestamp equal to the vertex's newest stored time and ordering it as newer. Only strictly newer batches are exercised in the source.
- A rejected batch changes nothing in the model. Atomicity is not asserted in the source.
- Concurrent use of the store is not modelled.
- Sampler.TemporalSampler.SampleLayerFromRoot: requires vertices and timestamps of equal length; the source pairs them position by position and gives no behaviour for a mismatch.
- Sampler.TemporalSampler.Sample: requires vertices and timestamps of equal length, for the same reason.
- Sampler.TemporalSampler.Create: does not check that each fanout is positive; a fanout of 0 gives layers without edges.
