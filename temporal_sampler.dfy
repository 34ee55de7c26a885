/** The temporal sampler: a reader of the dynamic graph store that builds,
    for a set of roots, one computation layer per hop and per snapshot. */
module Sampler {
  import opened Timeline
  import opened Ingestion
  import opened Sampling
  import opened GraphStore

  /** The roots of a call, pairing each vertex with its cutoff. */
  function Roots(vertices: seq<nat>, timestamps: seq<real>): (r: seq<Root>)
    requires |vertices| == |timestamps|
    ensures |r| == |vertices|
    ensures forall i :: 0 <= i < |r| ==> r[i] == Root(vertices[i], timestamps[i])
  {
    seq(|vertices|, i requires 0 <= i < |vertices| => Root(vertices[i], timestamps[i]))
  }

  /** A sampler configuration is accepted when there is at least one
      snapshot and several snapshots come with a positive window. */
  predicate ConfigOk(numSnapshots: int, window: real)
  {
    numSnapshots >= 1 && (numSnapshots > 1 ==> window > 0.0)
  }

  /** The first `k` answers of a neighbour query, as node and edge columns. */
  lemma TakeColumns(c: seq<Edge>, fanout: nat, k: nat, cutoff: real)
    requires k == if |c| <= fanout then |c| else fanout
    ensures k == |Take(c, fanout)|
    ensures Columns(c).targets[..k] == Targets(Take(c, fanout))
    ensures Columns(c).timestamps[..k] == Times(Take(c, fanout))
    ensures Columns(c).edgeIds[..k] == Ids(Take(c, fanout))
    ensures seq(k, j requires 0 <= j < k => cutoff - Columns(c).timestamps[j]) == Gaps(cutoff, Take(c, fanout))
  {
  }

  class TemporalSampler {
    const graph: DynamicGraph
    const fanouts: seq<nat>
    const numSnapshots: nat
    const window: real

    constructor (graph: DynamicGraph, fanouts: seq<nat>, numSnapshots: nat, window: real)
      requires ConfigOk(numSnapshots, window)
      ensures this.graph == graph && this.fanouts == fanouts
      ensures this.numSnapshots == numSnapshots && this.window == window
    {
      this.graph := graph;
      this.fanouts := fanouts;
      this.numSnapshots := numSnapshots;
      this.window := window;
    }

    /** Construction with a configuration check: no snapshot at all, or
        several snapshots without a positive window, is refused. */
    static method Create(graph: DynamicGraph, fanouts: seq<nat>, numSnapshots: int, window: real)
      returns (r: Result<TemporalSampler>)
      ensures r.Err? <==> !ConfigOk(numSnapshots, window)
      ensures r.Err? ==> r.error == ConfigurationError
      ensures r.Ok? ==>
        && fresh(r.value) && r.value.graph == graph && r.value.fanouts == fanouts
        && r.value.numSnapshots == numSnapshots && r.value.window == window
    {
      if !ConfigOk(numSnapshots, window) {
        return Err(ConfigurationError);
      }
      var s := new TemporalSampler(graph, fanouts, numSnapshots, window);
      return Ok(s);
    }

    /** What one destination takes: the first `fanout` answers of the
        query over its window, as node columns, time gaps and edge ids. */
    method TakeNeighbors(fanout: nat, d: Root) returns (targets: seq<nat>, times: seq<real>, gaps: seq<real>, ids: seq<nat>)
      requires graph.Valid()
      ensures targets == Targets(Take(Candidates(graph.Adjacency(), d, numSnapshots, window), fanout))
      ensures times == Times(Take(Candidates(graph.Adjacency(), d, numSnapshots, window), fanout))
      ensures gaps == Gaps(d.ts, Take(Candidates(graph.Adjacency(), d, numSnapshots, window), fanout))
      ensures ids == Ids(Take(Candidates(graph.Adjacency(), d, numSnapshots, window), fanout))
    {
      var nb := graph.GetTemporalNeighbors(d.vertex, WindowStart(d.ts, numSnapshots, window), At(d.ts));
      var k := if |nb.targets| <= fanout then |nb.targets| else fanout;
      TakeColumns(Candidates(graph.Adjacency(), d, numSnapshots, window), fanout, k, d.ts);
      targets := nb.targets[..k];
      times := nb.timestamps[..k];
      gaps := seq(k, j requires 0 <= j < k => d.ts - nb.timestamps[j]);
      ids := nb.edgeIds[..k];
    }

    /** One layer: for each destination in turn, take its neighbours and
        append them as node rows and edges. */
    method SampleLayer(fanout: nat, dsts: seq<Root>) returns (b: Block)
      requires graph.Valid()
      ensures b == Layer(graph.Adjacency(), dsts, fanout, numSnapshots, window)
    {
      ghost var adj := graph.Adjacency();
      var srcIds: seq<nat> := [];
      var srcTs: seq<real> := [];
      var rows: seq<nat> := [];
      var dt: seq<real> := [];
      var edgeIds: seq<nat> := [];
      ghost var ps: seq<Pick> := [];
      var i := 0;
      while i < |dsts|
        invariant 0 <= i <= |dsts|
        invariant ps == PickList(adj, dsts[..i], fanout, numSnapshots, window)
        invariant forall k :: 0 <= k < |ps| ==> ps[k].row < |dsts|
        invariant srcIds == PickTargets(ps) && srcTs == PickTimes(ps)
        invariant rows == PickRows(ps) && edgeIds == PickIds(ps)
        invariant dt == Deltas(dsts, ps)
      {
        var targets, times, gaps, ids := TakeNeighbors(fanout, dsts[i]);
        ghost var t := Take(Candidates(adj, dsts[i], numSnapshots, window), fanout);
        PickListSnoc(adj, dsts, fanout, numSnapshots, window, i);
        PickColumnsSnoc(dsts, ps, t, i);
        srcIds := srcIds + targets;
        srcTs := srcTs + times;
        rows := rows + seq(|ids|, _ => i);
        dt := dt + gaps;
        edgeIds := edgeIds + ids;
        ps := ps + Tag(t, i);
        i := i + 1;
      }
      assert dsts[..i] == dsts;
      b := Block(DstIds(dsts) + srcIds, DstTimes(dsts) + srcTs, EdgeSources(|dsts|, |edgeIds|), rows, dt, edgeIds, |dsts|);
    }

    /** One layer per snapshot, for each snapshot's own destinations. */
    method SampleSnapshots(fanout: nat, dstsOf: seq<seq<Root>>) returns (blocks: seq<Block>)
      requires graph.Valid()
      ensures blocks == Layers(graph.Adjacency(), dstsOf, fanout, numSnapshots, window)
    {
      ghost var want := Layers(graph.Adjacency(), dstsOf, fanout, numSnapshots, window);
      blocks := [];
      var s := 0;
      while s < |dstsOf|
        invariant 0 <= s <= |dstsOf|
        invariant blocks == want[..s]
      {
        var b := SampleLayer(fanout, dstsOf[s]);
        assert want[..s + 1] == want[..s] + [b];
        blocks := blocks + [b];
        s := s + 1;
      }
      assert want[..s] == want;
    }

    /** `_sample_layer_from_root(fanout, vertices, timestamps)`: the roots'
        layer of every snapshot, each with the snapshot's shift applied. */
    method SampleLayerFromRoot(fanout: nat, vertices: seq<nat>, timestamps: seq<real>) returns (blocks: seq<Block>)
      requires graph.Valid()
      requires |vertices| == |timestamps|
      ensures blocks == RootLayers(graph.Adjacency(), Roots(vertices, timestamps), fanout, numSnapshots, window)
    {
      blocks := SampleSnapshots(fanout, RootDestinations(Roots(vertices, timestamps), numSnapshots, window));
    }

    /** The next hop outwards: in every snapshot, the sampled rows of the
        previous layer, shifted again by the snapshot's offset, become the
        destinations. */
    method SampleLayerFromPrevious(fanout: nat, prev: seq<Block>) returns (blocks: seq<Block>)
      requires graph.Valid()
      requires |prev| == numSnapshots
      requires forall s :: 0 <= s < numSnapshots ==> WellShaped(prev[s])
      ensures blocks == NextLayers(graph.Adjacency(), prev, fanout, numSnapshots, window)
    {
      blocks := SampleSnapshots(fanout, NextDestinations(prev, numSnapshots, window));
    }

    /** `sample(vertices, timestamps)`: hop by hop from the roots outwards,
        each new hop's layers put in front, so the result is indexed
        [layer][snapshot] with the roots' layer last. */
    method Sample(vertices: seq<nat>, timestamps: seq<real>) returns (out: seq<seq<Block>>)
      requires graph.Valid()
      requires |vertices| == |timestamps|
      ensures out == SampleAll(graph.Adjacency(), Roots(vertices, timestamps), fanouts, numSnapshots, window)
    {
      ghost var adj := graph.Adjacency();
      ghost var roots := Roots(vertices, timestamps);
      out := [];
      var h := 0;
      while h < |fanouts|
        invariant 0 <= h <= |fanouts|
        invariant out == LayersUpTo(adj, roots, fanouts, numSnapshots, window, h)
      {
        var layer;
        if h == 0 {
          layer := SampleLayerFromRoot(fanouts[0], vertices, timestamps);
          FirstHop(adj, roots, fanouts, numSnapshots, window);
        } else {
          NextHop(adj, roots, fanouts, numSnapshots, window, h, out);
          layer := SampleLayerFromPrevious(fanouts[h], out[0]);
        }
        out := [layer] + out;
        h := h + 1;
      }
    }
  }
}
