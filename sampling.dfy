/** The temporal sampler's computation layers as values: the window each
    destination is queried over, the neighbours it takes, the node and edge
    tables of one layer, and the hop-by-hop, snapshot-by-snapshot stack of
    layers built from a set of roots. */
module Sampling {
  import opened Timeline
  import opened Ingestion

  /** A destination row: a vertex and the cutoff timestamp it is sampled at. */
  datatype Root = Root(vertex: nat, ts: real)

  /** One sampled neighbour: the destination row that produced it and the
      stored edge it was read from. */
  datatype Pick = Pick(row: nat, edge: Edge)

  /** One computation layer. Node rows are `srcIds`/`srcTs` (the first
      `numDst` rows are the destinations); edge k runs from node row
      `edgeSrc[k]` to node row `edgeDst[k]` and carries `dt[k]` and the
      store's edge id `edgeIds[k]`. `num_src_nodes` is |srcIds|. */
  datatype Block = Block(
    srcIds: seq<nat>, srcTs: seq<real>,
    edgeSrc: seq<nat>, edgeDst: seq<nat>, dt: seq<real>, edgeIds: seq<nat>,
    numDst: nat)

  /** Node columns of equal length, at least as long as the destination
      rows, and edge columns of equal length. */
  predicate WellShaped(b: Block)
  {
    && b.numDst <= |b.srcIds|
    && |b.srcTs| == |b.srcIds|
    && |b.edgeSrc| == |b.edgeDst| == |b.dt| == |b.edgeIds|
  }

  function NumSrcNodes(b: Block): nat { |b.srcIds| }

  // ---------------------------------------------------------------------
  // Windows and neighbour selection.

  /** The start of a destination's window: with several snapshots the
      window is [t - w, t]; with one snapshot it has no lower end. */
  function WindowStart(t: real, numSnapshots: nat, w: real): Bound
  {
    if numSnapshots > 1 then At(t - w) else Unbounded
  }

  /** How far snapshot `s` of `S` moves every cutoff back: the last
      snapshot is the newest window and is not moved. */
  function Offset(numSnapshots: nat, s: nat, w: real): real
    requires s < numSnapshots
  {
    (numSnapshots - 1 - s) as real * w
  }

  function Shift(dsts: seq<Root>, off: real): (r: seq<Root>)
    ensures |r| == |dsts|
    ensures forall i :: 0 <= i < |dsts| ==> r[i] == Root(dsts[i].vertex, dsts[i].ts - off)
  {
    seq(|dsts|, i requires 0 <= i < |dsts| => Root(dsts[i].vertex, dsts[i].ts - off))
  }

  /** The store's answer for one destination: its edges inside the window
      ending at its cutoff, newest first. */
  function Candidates(adj: seq<seq<Edge>>, d: Root, numSnapshots: nat, w: real): seq<Edge>
  {
    InWindow(VertexEdges(adj, d.vertex), WindowStart(d.ts, numSnapshots, w), At(d.ts))
  }

  /** At most `k` entries from the front of the newest-first answer. */
  function Take(es: seq<Edge>, k: nat): seq<Edge>
  {
    if |es| <= k then es else es[..k]
  }

  function Tag(es: seq<Edge>, row: nat): (r: seq<Pick>)
    ensures |r| == |es|
    ensures forall j :: 0 <= j < |es| ==> r[j] == Pick(row, es[j])
  {
    seq(|es|, j requires 0 <= j < |es| => Pick(row, es[j]))
  }

  /** What each destination takes: the first `fanout` of its candidates. */
  function Choices(adj: seq<seq<Edge>>, dsts: seq<Root>, fanout: nat, numSnapshots: nat, w: real): (cs: seq<seq<Edge>>)
    ensures |cs| == |dsts|
    ensures forall i :: 0 <= i < |dsts| ==> cs[i] == Take(Candidates(adj, dsts[i], numSnapshots, w), fanout)
  {
    seq(|dsts|, i requires 0 <= i < |dsts| => Take(Candidates(adj, dsts[i], numSnapshots, w), fanout))
  }

  /** Per-destination lists laid out destination-major, each entry tagged
      with the row of the destination it belongs to. */
  function TagAll(cs: seq<seq<Edge>>): (ps: seq<Pick>)
    ensures forall k :: 0 <= k < |ps| ==> ps[k].row < |cs|
    decreases |cs|
  {
    if cs == [] then [] else TagAll(cs[..|cs| - 1]) + Tag(cs[|cs| - 1], |cs| - 1)
  }

  /** The sampled neighbours of a destination list, destination-major. */
  function PickList(adj: seq<seq<Edge>>, dsts: seq<Root>, fanout: nat, numSnapshots: nat, w: real): (ps: seq<Pick>)
    ensures forall k :: 0 <= k < |ps| ==> ps[k].row < |dsts|
  {
    TagAll(Choices(adj, dsts, fanout, numSnapshots, w))
  }

  // ---------------------------------------------------------------------
  // One layer.

  function DstIds(dsts: seq<Root>): seq<nat>
  {
    seq(|dsts|, i requires 0 <= i < |dsts| => dsts[i].vertex)
  }

  function DstTimes(dsts: seq<Root>): seq<real>
  {
    seq(|dsts|, i requires 0 <= i < |dsts| => dsts[i].ts)
  }

  function PickTargets(ps: seq<Pick>): seq<nat>
  {
    seq(|ps|, k requires 0 <= k < |ps| => ps[k].edge.target)
  }

  function PickTimes(ps: seq<Pick>): seq<real>
  {
    seq(|ps|, k requires 0 <= k < |ps| => ps[k].edge.ts)
  }

  function PickRows(ps: seq<Pick>): seq<nat>
  {
    seq(|ps|, k requires 0 <= k < |ps| => ps[k].row)
  }

  function PickIds(ps: seq<Pick>): seq<nat>
  {
    seq(|ps|, k requires 0 <= k < |ps| => ps[k].edge.id)
  }

  function EdgeSources(numDst: nat, count: nat): seq<nat>
  {
    seq(count, k requires 0 <= k < count => numDst + k)
  }

  /** Each sampled edge's time gap: its destination's cutoff minus its own time. */
  function Deltas(dsts: seq<Root>, ps: seq<Pick>): seq<real>
    requires forall k :: 0 <= k < |ps| ==> ps[k].row < |dsts|
  {
    seq(|ps|, k requires 0 <= k < |ps| => dsts[ps[k].row].ts - ps[k].edge.ts)
  }

  /** The layer sampled for `dsts`: destination rows first, in input order
      and with their own cutoffs, then one row per sampled neighbour. */
  function Layer(adj: seq<seq<Edge>>, dsts: seq<Root>, fanout: nat, numSnapshots: nat, w: real): (b: Block)
    ensures WellShaped(b)
    ensures b.numDst == |dsts|
    ensures |b.srcIds| == |dsts| + |b.edgeIds|
  {
    var ps := PickList(adj, dsts, fanout, numSnapshots, w);
    Block(
      DstIds(dsts) + PickTargets(ps), DstTimes(dsts) + PickTimes(ps),
      EdgeSources(|dsts|, |ps|), PickRows(ps), Deltas(dsts, ps), PickIds(ps),
      |dsts|)
  }

  /** The sampled rows of a layer, as the destinations of the next hop. */
  function SampledRows(b: Block): (r: seq<Root>)
    requires WellShaped(b)
    ensures |r| == |b.srcIds| - b.numDst
    ensures forall k :: 0 <= k < |r| ==> r[k] == Root(b.srcIds[b.numDst + k], b.srcTs[b.numDst + k])
  {
    seq(|b.srcIds| - b.numDst, k requires 0 <= k < |b.srcIds| - b.numDst =>
      Root(b.srcIds[b.numDst + k], b.srcTs[b.numDst + k]))
  }

  // ---------------------------------------------------------------------
  // Hops and snapshots.

  /** The layer of snapshot `s` at hop `h` (hop 0 is the roots' layer):
      the hop's destinations with the snapshot's shift applied, sampled with
      the hop's fanout. */
  function HopBlock(adj: seq<seq<Edge>>, roots: seq<Root>, fanouts: seq<nat>, numSnapshots: nat, w: real,
                    s: nat, h: nat): (b: Block)
    requires s < numSnapshots && h < |fanouts|
    ensures WellShaped(b)
    decreases h, 1
  {
    Layer(adj, Shift(HopRoots(adj, roots, fanouts, numSnapshots, w, s, h), Offset(numSnapshots, s, w)),
          fanouts[h], numSnapshots, w)
  }

  /** The destinations of hop `h` in snapshot `s`: the roots at hop 0, and
      after that the rows sampled at the hop before, in the same snapshot. */
  function HopRoots(adj: seq<seq<Edge>>, roots: seq<Root>, fanouts: seq<nat>, numSnapshots: nat, w: real,
                    s: nat, h: nat): seq<Root>
    requires s < numSnapshots && h <= |fanouts|
    decreases h, 0
  {
    if h == 0 then roots
    else SampledRows(HopBlock(adj, roots, fanouts, numSnapshots, w, s, h - 1))
  }

  /** The layers of hops 0 .. h - 1, farthest hop first, each one per snapshot. */
  function LayersUpTo(adj: seq<seq<Edge>>, roots: seq<Root>, fanouts: seq<nat>, numSnapshots: nat, w: real,
                      h: nat): (r: seq<seq<Block>>)
    requires h <= |fanouts|
    ensures |r| == h
    ensures forall l :: 0 <= l < h ==> |r[l]| == numSnapshots
    ensures forall l, s :: 0 <= l < h && 0 <= s < numSnapshots ==>
      r[l][s] == HopBlock(adj, roots, fanouts, numSnapshots, w, s, h - 1 - l)
  {
    seq(h, l requires 0 <= l < h =>
      seq(numSnapshots, s requires 0 <= s < numSnapshots =>
        HopBlock(adj, roots, fanouts, numSnapshots, w, s, h - 1 - l)))
  }

  /** The sampler's output, indexed [layer][snapshot] with the roots' layer last. */
  function SampleAll(adj: seq<seq<Edge>>, roots: seq<Root>, fanouts: seq<nat>, numSnapshots: nat, w: real): seq<seq<Block>>
  {
    LayersUpTo(adj, roots, fanouts, numSnapshots, w, |fanouts|)
  }

  /** One layer per snapshot, each sampled for that snapshot's destinations. */
  function Layers(adj: seq<seq<Edge>>, dstsOf: seq<seq<Root>>, fanout: nat, numSnapshots: nat, w: real): (r: seq<Block>)
    ensures |r| == |dstsOf|
  {
    seq(|dstsOf|, s requires 0 <= s < |dstsOf| => Layer(adj, dstsOf[s], fanout, numSnapshots, w))
  }

  /** The roots with each snapshot's shift applied. */
  function RootDestinations(roots: seq<Root>, numSnapshots: nat, w: real): seq<seq<Root>>
  {
    seq(numSnapshots, s requires 0 <= s < numSnapshots => Shift(roots, Offset(numSnapshots, s, w)))
  }

  /** The sampled rows of each snapshot's previous layer, shifted again. */
  function NextDestinations(prev: seq<Block>, numSnapshots: nat, w: real): seq<seq<Root>>
    requires |prev| == numSnapshots
    requires forall s :: 0 <= s < numSnapshots ==> WellShaped(prev[s])
  {
    seq(numSnapshots, s requires 0 <= s < numSnapshots => Shift(SampledRows(prev[s]), Offset(numSnapshots, s, w)))
  }

  /** The roots' layer of every snapshot. */
  function RootLayers(adj: seq<seq<Edge>>, roots: seq<Root>, fanout: nat, numSnapshots: nat, w: real): seq<Block>
  {
    Layers(adj, RootDestinations(roots, numSnapshots, w), fanout, numSnapshots, w)
  }

  /** The next hop outwards of every snapshot: the sampled rows of the
      snapshot's previous layer, shifted again, as destinations. */
  function NextLayers(adj: seq<seq<Edge>>, prev: seq<Block>, fanout: nat, numSnapshots: nat, w: real): seq<Block>
    requires |prev| == numSnapshots
    requires forall s :: 0 <= s < numSnapshots ==> WellShaped(prev[s])
  {
    Layers(adj, NextDestinations(prev, numSnapshots, w), fanout, numSnapshots, w)
  }

  // ---------------------------------------------------------------------
  // Properties of one layer.

  /** The windows: with several snapshots, snapshot `s` of a root with
      cutoff `t` sees exactly the vertex's edges with
      t - (S - s)·w <= ts <= t - (S - 1 - s)·w, the last snapshot [t - w, t];
      with one snapshot, every edge with ts <= t. */
  lemma SnapshotWindow(adj: seq<seq<Edge>>, r: Root, numSnapshots: nat, w: real, s: nat, d: Root)
    requires s < numSnapshots
    requires d == Root(r.vertex, r.ts - Offset(numSnapshots, s, w))
    ensures forall e :: e in Candidates(adj, d, numSnapshots, w) <==>
        e in VertexEdges(adj, r.vertex) &&
        (numSnapshots > 1 ==> r.ts - (numSnapshots - s) as real * w <= e.ts) &&
        e.ts <= r.ts - (numSnapshots - 1 - s) as real * w
    ensures numSnapshots > 1 && s == numSnapshots - 1 ==>
      forall e :: e in Candidates(adj, r, numSnapshots, w) <==>
        e in VertexEdges(adj, r.vertex) && r.ts - w <= e.ts <= r.ts
  {
    InWindowMembers(VertexEdges(adj, r.vertex), WindowStart(d.ts, numSnapshots, w), At(d.ts));
    InWindowMembers(VertexEdges(adj, r.vertex), WindowStart(r.ts, numSnapshots, w), At(r.ts));
    assert Offset(numSnapshots, s, w) + w == (numSnapshots - s) as real * w;
  }

  /** At most `fanout` neighbours, and every candidate when they fit. */
  lemma TakeFits(es: seq<Edge>, k: nat)
    ensures |Take(es, k)| == if |es| <= k then |es| else k
    ensures Take(es, k) == es[..|Take(es, k)|]
    ensures |es| <= k ==> Take(es, k) == es
  {
  }

  /** On a store whose lists are newest first, a destination's candidates
      are newest first, and the ones it takes are the most recent: no
      candidate left out is newer than one taken. */
  lemma TakesNewest(adj: seq<seq<Edge>>, n: nat, d: Root, fanout: nat, numSnapshots: nat, w: real,
                    c: seq<Edge>, t: seq<Edge>)
    requires StoreInvariant(adj, n, |adj|)
    requires c == Candidates(adj, d, numSnapshots, w) && t == Take(c, fanout)
    ensures forall i, j :: 0 <= i < j < |c| ==> c[j].ts <= c[i].ts && c[j].id < c[i].id
    ensures forall j, m :: 0 <= j < |t| <= m < |c| ==> c[m].ts <= t[j].ts
  {
    var es := VertexEdges(adj, d.vertex);
    if d.vertex < |adj| {
      AllNewestFirstAt(adj, d.vertex);
    }
    InWindowNewestFirst(es, WindowStart(d.ts, numSnapshots, w), At(d.ts));
    NewestFirstPairs(c);
  }

  /** Retag picks made for a destination list that now sits after `k` others. */
  function Moved(ps: seq<Pick>, k: nat): (r: seq<Pick>)
    ensures |r| == |ps|
    ensures forall j :: 0 <= j < |ps| ==> r[j] == Pick(ps[j].row + k, ps[j].edge)
  {
    seq(|ps|, j requires 0 <= j < |ps| => Pick(ps[j].row + k, ps[j].edge))
  }

  lemma MovedAppend(p: seq<Pick>, t: seq<Pick>, k: nat)
    ensures Moved(p + t, k) == Moved(p, k) + Moved(t, k)
  {
  }

  lemma MovedTag(t: seq<Edge>, row: nat, k: nat)
    ensures Moved(Tag(t, row), k) == Tag(t, row + k)
  {
  }

  lemma TagAllSnoc(cs: seq<seq<Edge>>, c: seq<Edge>)
    ensures TagAll(cs + [c]) == TagAll(cs) + Tag(c, |cs|)
  {
    assert (cs + [c])[..|cs|] == cs;
  }

  lemma {:induction false} TagAllAppend(a: seq<seq<Edge>>, b: seq<seq<Edge>>)
    ensures TagAll(a + b) == TagAll(a) + Moved(TagAll(b), |a|)
    decreases |b|
  {
    if b == [] {
      assert a + b == a;
    } else {
      var i := |b| - 1;
      var fb, c := b[..i], b[i];
      assert b == fb + [c];
      assert a + b == (a + fb) + [c];
      TagAllAppend(a, fb);
      TagAllSnoc(a + fb, c);
      TagAllSnoc(fb, c);
      MovedAppend(TagAll(fb), Tag(c, i), |a|);
      MovedTag(c, i, |a|);
    }
  }

  /** List `i`'s entries sit at positions |TagAll(cs[..i])| onwards. */
  lemma TagAllBlock(cs: seq<seq<Edge>>, i: nat)
    requires i < |cs|
    ensures |TagAll(cs[..i])| + |cs[i]| <= |TagAll(cs)|
    ensures |TagAll(cs[..i + 1])| == |TagAll(cs[..i])| + |cs[i]|
    ensures forall j :: 0 <= j < |cs[i]| ==> TagAll(cs)[|TagAll(cs[..i])| + j] == Pick(i, cs[i][j])
  {
    var pre, rest := cs[..i + 1], cs[i + 1..];
    assert cs == pre + rest;
    TagAllAppend(pre, rest);
    assert pre == cs[..i] + [cs[i]];
    TagAllSnoc(cs[..i], cs[i]);
  }

  lemma {:induction false} TagAllRows(cs: seq<seq<Edge>>)
    ensures forall j, k :: 0 <= j < k < |TagAll(cs)| ==> TagAll(cs)[j].row <= TagAll(cs)[k].row
    decreases |cs|
  {
    if cs != [] {
      var n := |cs| - 1;
      TagAllRows(cs[..n]);
      var pf, t := TagAll(cs[..n]), Tag(cs[n], n);
      var ps := pf + t;
      assert TagAll(cs) == ps;
      forall j, k | 0 <= j < k < |ps| ensures ps[j].row <= ps[k].row {
        if k >= |pf| {
          assert ps[k].row == n;
          if j < |pf| {
            assert ps[j] == pf[j];
            assert pf[j].row < n;
          } else {
            assert ps[j].row == n;
          }
        } else {
          assert ps[j] == pf[j] && ps[k] == pf[k];
          assert pf[j].row <= pf[k].row;
        }
      }
    }
  }

  lemma {:induction false} TagAllMembers(cs: seq<seq<Edge>>)
    ensures forall k :: 0 <= k < |TagAll(cs)| ==> TagAll(cs)[k].edge in cs[TagAll(cs)[k].row]
    decreases |cs|
  {
    if cs != [] {
      var n := |cs| - 1;
      var front := cs[..n];
      TagAllMembers(front);
      var ps := TagAll(cs);
      var pf := TagAll(front);
      forall k | 0 <= k < |ps| ensures ps[k].edge in cs[ps[k].row] {
        if k < |pf| {
          assert ps[k] == pf[k] && front[pf[k].row] == cs[pf[k].row];
        } else {
          var j := k - |pf|;
          assert ps[k] == Pick(n, cs[n][j]);
          assert cs[n][j] in cs[n];
        }
      }
    }
  }

  lemma {:induction false} TagAllEmpty(cs: seq<seq<Edge>>)
    requires forall i :: 0 <= i < |cs| ==> cs[i] == []
    ensures TagAll(cs) == []
    decreases |cs|
  {
    if cs != [] {
      TagAllEmpty(cs[..|cs| - 1]);
    }
  }

  lemma ChoicesAppend(adj: seq<seq<Edge>>, a: seq<Root>, b: seq<Root>, fanout: nat, numSnapshots: nat, w: real)
    ensures Choices(adj, a + b, fanout, numSnapshots, w) ==
      Choices(adj, a, fanout, numSnapshots, w) + Choices(adj, b, fanout, numSnapshots, w)
  {
  }

  lemma ChoicesPrefix(adj: seq<seq<Edge>>, dsts: seq<Root>, fanout: nat, numSnapshots: nat, w: real, i: nat)
    requires i <= |dsts|
    ensures Choices(adj, dsts[..i], fanout, numSnapshots, w) == Choices(adj, dsts, fanout, numSnapshots, w)[..i]
  {
  }

  /** Destinations are sampled independently of each other: sampling a
      concatenated list gives the first list's picks followed by the
      second's, only renumbered (a repeated destination is sampled again). */
  lemma PicksAppend(adj: seq<seq<Edge>>, a: seq<Root>, b: seq<Root>, fanout: nat, numSnapshots: nat, w: real)
    ensures PickList(adj, a + b, fanout, numSnapshots, w) ==
      PickList(adj, a, fanout, numSnapshots, w) + Moved(PickList(adj, b, fanout, numSnapshots, w), |a|)
  {
    ChoicesAppend(adj, a, b, fanout, numSnapshots, w);
    TagAllAppend(Choices(adj, a, fanout, numSnapshots, w), Choices(adj, b, fanout, numSnapshots, w));
  }

  /** Where each destination's block of edges starts. */
  function Start(adj: seq<seq<Edge>>, dsts: seq<Root>, fanout: nat, numSnapshots: nat, w: real, i: nat): nat
    requires i <= |dsts|
  {
    |PickList(adj, dsts[..i], fanout, numSnapshots, w)|
  }

  /** Edge rows are destination-major: destination `i`'s edges are the
      positions Start(i) .. Start(i) + |taken| - 1, and they come from the
      first `fanout` of its newest-first candidates. */
  lemma RowBlock(adj: seq<seq<Edge>>, dsts: seq<Root>, fanout: nat, numSnapshots: nat, w: real, i: nat,
                  ps: seq<Pick>, t: seq<Edge>, st: nat)
    requires i < |dsts|
    requires ps == PickList(adj, dsts, fanout, numSnapshots, w)
    requires t == Take(Candidates(adj, dsts[i], numSnapshots, w), fanout)
    requires st == Start(adj, dsts, fanout, numSnapshots, w, i)
    ensures st + |t| <= |ps|
    ensures Start(adj, dsts, fanout, numSnapshots, w, i + 1) == st + |t|
    ensures forall j :: 0 <= j < |t| ==> ps[st + j] == Pick(i, t[j])
  {
    ChoicesPrefix(adj, dsts, fanout, numSnapshots, w, i);
    ChoicesPrefix(adj, dsts, fanout, numSnapshots, w, i + 1);
    TagAllBlock(Choices(adj, dsts, fanout, numSnapshots, w), i);
  }

  /** Every pick is a candidate of the destination row it is tagged with. */
  lemma PicksAreCandidates(adj: seq<seq<Edge>>, dsts: seq<Root>, fanout: nat, numSnapshots: nat, w: real, ps: seq<Pick>)
    requires ps == PickList(adj, dsts, fanout, numSnapshots, w)
    ensures forall k :: 0 <= k < |ps| ==> ps[k].edge in Candidates(adj, dsts[ps[k].row], numSnapshots, w)
  {
    var cs := Choices(adj, dsts, fanout, numSnapshots, w);
    TagAllMembers(cs);
    forall k | 0 <= k < |ps| ensures ps[k].edge in Candidates(adj, dsts[ps[k].row], numSnapshots, w) {
      var i := ps[k].row;
      TakeWithin(Candidates(adj, dsts[i], numSnapshots, w), fanout);
      assert ps[k].edge in cs[i];
    }
  }

  lemma TakeWithin(es: seq<Edge>, k: nat)
    ensures forall e :: e in Take(es, k) ==> e in es
  {
    if k < |es| {
      assert es == es[..k] + es[k..];
    }
  }

  /** Edge destination rows never decrease along the edge list. */
  lemma RowsAscending(adj: seq<seq<Edge>>, dsts: seq<Root>, fanout: nat, numSnapshots: nat, w: real, ps: seq<Pick>)
    requires ps == PickList(adj, dsts, fanout, numSnapshots, w)
    ensures forall j, k :: 0 <= j < k < |ps| ==> ps[j].row <= ps[k].row
  {
    var cs := Choices(adj, dsts, fanout, numSnapshots, w);
    TagAllRows(cs);
  }

  /** The node and edge columns of a layer, read pick by pick. */
  lemma LayerPicks(adj: seq<seq<Edge>>, dsts: seq<Root>, fanout: nat, numSnapshots: nat, w: real, b: Block, ps: seq<Pick>)
    requires b == Layer(adj, dsts, fanout, numSnapshots, w)
    requires ps == PickList(adj, dsts, fanout, numSnapshots, w)
    ensures |b.edgeIds| == |ps|
    ensures forall i :: 0 <= i < |dsts| ==> b.srcIds[i] == dsts[i].vertex && b.srcTs[i] == dsts[i].ts
    ensures forall k :: 0 <= k < |ps| ==>
      && b.edgeSrc[k] == |dsts| + k && b.edgeDst[k] == ps[k].row && b.edgeIds[k] == ps[k].edge.id
      && b.dt[k] == dsts[ps[k].row].ts - ps[k].edge.ts
      && b.srcIds[|dsts| + k] == ps[k].edge.target && b.srcTs[|dsts| + k] == ps[k].edge.ts
  {
    var d := |dsts|;
    forall k | 0 <= k < |ps|
      ensures b.srcIds[d + k] == ps[k].edge.target && b.srcTs[d + k] == ps[k].edge.ts
    {
      assert b.srcIds[d + k] == PickTargets(ps)[k];
      assert b.srcTs[d + k] == PickTimes(ps)[k];
    }
  }

  /** The shape of a layer: |dsts| destination rows holding the
      destinations and their cutoffs; edge k runs from row |dsts| + k to the
      row of the destination that produced it, so destination rows never
      decrease; the sampled row carries the stored edge's target and time,
      the edge its id, and dt is the destination's cutoff minus the sampled
      time, never negative. */
  lemma LayerShape(adj: seq<seq<Edge>>, dsts: seq<Root>, fanout: nat, numSnapshots: nat, w: real, b: Block)
    requires b == Layer(adj, dsts, fanout, numSnapshots, w)
    ensures forall i :: 0 <= i < |dsts| ==> b.srcIds[i] == dsts[i].vertex && b.srcTs[i] == dsts[i].ts
    ensures forall k :: 0 <= k < |b.edgeIds| ==> b.edgeSrc[k] == |dsts| + k && b.edgeDst[k] < |dsts|
    ensures forall k :: 0 <= k < |b.edgeIds| ==>
      b.dt[k] == b.srcTs[b.edgeDst[k]] - b.srcTs[|dsts| + k] && 0.0 <= b.dt[k]
    ensures forall k :: 0 <= k < |b.edgeIds| ==>
      Edge(b.srcIds[|dsts| + k], b.srcTs[|dsts| + k], b.edgeIds[k]) in Candidates(adj, dsts[b.edgeDst[k]], numSnapshots, w)
    ensures forall j, k :: 0 <= j < k < |b.edgeDst| ==> b.edgeDst[j] <= b.edgeDst[k]
  {
    var ps := PickList(adj, dsts, fanout, numSnapshots, w);
    LayerPicks(adj, dsts, fanout, numSnapshots, w, b, ps);
    RowsAscending(adj, dsts, fanout, numSnapshots, w, ps);
    PicksAreCandidates(adj, dsts, fanout, numSnapshots, w, ps);
    forall k | 0 <= k < |ps|
      ensures ps[k].edge.ts <= dsts[ps[k].row].ts
    {
      var r := dsts[ps[k].row];
      InWindowMembers(VertexEdges(adj, r.vertex), WindowStart(r.ts, numSnapshots, w), At(r.ts));
    }
    BlockShape(adj, b, dsts, numSnapshots, w, ps);
  }

  lemma BlockShape(adj: seq<seq<Edge>>, b: Block, dsts: seq<Root>, numSnapshots: nat, w: real, ps: seq<Pick>)
    requires |b.edgeIds| == |ps| && |b.edgeSrc| == |b.edgeDst| == |b.dt| == |ps|
    requires |b.srcIds| == |b.srcTs| == |dsts| + |ps|
    requires forall k :: 0 <= k < |ps| ==> ps[k].row < |dsts|
    requires forall i :: 0 <= i < |dsts| ==> b.srcIds[i] == dsts[i].vertex && b.srcTs[i] == dsts[i].ts
    requires forall k :: 0 <= k < |ps| ==>
      && b.edgeSrc[k] == |dsts| + k && b.edgeDst[k] == ps[k].row && b.edgeIds[k] == ps[k].edge.id
      && b.dt[k] == dsts[ps[k].row].ts - ps[k].edge.ts
      && b.srcIds[|dsts| + k] == ps[k].edge.target && b.srcTs[|dsts| + k] == ps[k].edge.ts
    requires forall k :: 0 <= k < |ps| ==> ps[k].edge in Candidates(adj, dsts[ps[k].row], numSnapshots, w)
    requires forall k :: 0 <= k < |ps| ==> ps[k].edge.ts <= dsts[ps[k].row].ts
    requires forall j, k :: 0 <= j < k < |ps| ==> ps[j].row <= ps[k].row
    ensures forall k :: 0 <= k < |b.edgeIds| ==> b.edgeSrc[k] == |dsts| + k && b.edgeDst[k] < |dsts|
    ensures forall k :: 0 <= k < |b.edgeIds| ==>
      b.dt[k] == b.srcTs[b.edgeDst[k]] - b.srcTs[|dsts| + k] && 0.0 <= b.dt[k]
    ensures forall k :: 0 <= k < |b.edgeIds| ==>
      Edge(b.srcIds[|dsts| + k], b.srcTs[|dsts| + k], b.edgeIds[k]) in Candidates(adj, dsts[b.edgeDst[k]], numSnapshots, w)
    ensures forall j, k :: 0 <= j < k < |b.edgeDst| ==> b.edgeDst[j] <= b.edgeDst[k]
  {
    forall k | 0 <= k < |b.edgeIds|
      ensures Edge(b.srcIds[|dsts| + k], b.srcTs[|dsts| + k], b.edgeIds[k]) == ps[k].edge
    {
    }
  }

  function Targets(es: seq<Edge>): seq<nat>
  {
    seq(|es|, j requires 0 <= j < |es| => es[j].target)
  }

  function Times(es: seq<Edge>): seq<real>
  {
    seq(|es|, j requires 0 <= j < |es| => es[j].ts)
  }

  function Gaps(cutoff: real, es: seq<Edge>): seq<real>
  {
    seq(|es|, j requires 0 <= j < |es| => cutoff - es[j].ts)
  }

  /** One destination's rows of a layer: its edges are positions
      st .. st + |t| - 1 of the edge list, where t is what it takes from its
      candidates; they point at its row and carry the taken edges' ids and
      the time gaps to its cutoff, and the sampled rows hold the taken
      edges' targets and times. */
  lemma LayerRowBlock(adj: seq<seq<Edge>>, dsts: seq<Root>, fanout: nat, numSnapshots: nat, w: real, b: Block,
                      i: nat, t: seq<Edge>, st: nat)
    requires b == Layer(adj, dsts, fanout, numSnapshots, w)
    requires i < |dsts|
    requires t == Take(Candidates(adj, dsts[i], numSnapshots, w), fanout)
    requires st == Start(adj, dsts, fanout, numSnapshots, w, i)
    ensures st + |t| <= |b.edgeIds|
    ensures Start(adj, dsts, fanout, numSnapshots, w, i + 1) == st + |t|
    ensures forall m :: st <= m < st + |t| ==> b.edgeDst[m] == i
    ensures b.edgeIds[st..st + |t|] == Ids(t)
    ensures b.dt[st..st + |t|] == Gaps(dsts[i].ts, t)
    ensures b.srcIds[|dsts| + st..|dsts| + st + |t|] == Targets(t)
    ensures b.srcTs[|dsts| + st..|dsts| + st + |t|] == Times(t)
  {
    var ps := PickList(adj, dsts, fanout, numSnapshots, w);
    RowBlock(adj, dsts, fanout, numSnapshots, w, i, ps, t, st);
    LayerPicks(adj, dsts, fanout, numSnapshots, w, b, ps);
    BlockRows(b, dsts, ps, i, t, st);
  }

  /** The columns of a block of picks, all tagged with row `i`, read back as
      slices. */
  lemma BlockRows(b: Block, dsts: seq<Root>, ps: seq<Pick>, i: nat, t: seq<Edge>, st: nat)
    requires i < |dsts| && st + |t| <= |ps| && |b.edgeIds| == |ps|
    requires forall k :: 0 <= k < |ps| ==> ps[k].row < |dsts|
    requires |b.edgeDst| == |b.dt| == |ps| && |b.srcIds| == |b.srcTs| == |dsts| + |ps|
    requires forall j :: 0 <= j < |t| ==> ps[st + j] == Pick(i, t[j])
    requires forall k :: 0 <= k < |ps| ==>
      && b.edgeDst[k] == ps[k].row && b.edgeIds[k] == ps[k].edge.id
      && b.dt[k] == dsts[ps[k].row].ts - ps[k].edge.ts
      && b.srcIds[|dsts| + k] == ps[k].edge.target && b.srcTs[|dsts| + k] == ps[k].edge.ts
    ensures forall m :: st <= m < st + |t| ==> b.edgeDst[m] == i
    ensures b.edgeIds[st..st + |t|] == Ids(t)
    ensures b.dt[st..st + |t|] == Gaps(dsts[i].ts, t)
    ensures b.srcIds[|dsts| + st..|dsts| + st + |t|] == Targets(t)
    ensures b.srcTs[|dsts| + st..|dsts| + st + |t|] == Times(t)
  {
    var d := |dsts|;
    forall m | st <= m < st + |t| ensures b.edgeDst[m] == i {
      var j := m - st;
      assert ps[st + j] == Pick(i, t[j]);
    }
    forall j | 0 <= j < |t|
      ensures b.edgeIds[st..st + |t|][j] == Ids(t)[j] && b.dt[st..st + |t|][j] == Gaps(dsts[i].ts, t)[j]
      ensures b.srcIds[d + st..d + st + |t|][j] == Targets(t)[j] && b.srcTs[d + st..d + st + |t|][j] == Times(t)[j]
    {
      var k := st + j;
      assert ps[k] == Pick(i, t[j]);
      assert b.srcIds[d + st..d + st + |t|][j] == b.srcIds[d + k];
      assert b.srcTs[d + st..d + st + |t|][j] == b.srcTs[d + k];
    }
  }

  /** Destinations are not merged: two rows holding the same vertex and
      cutoff get equal, separate blocks of sampled rows and edges, each
      pointing at its own row. */
  lemma RepeatedDestination(adj: seq<seq<Edge>>, dsts: seq<Root>, fanout: nat, numSnapshots: nat, w: real, b: Block,
                            i: nat, j: nat, t: seq<Edge>, si: nat, sj: nat)
    requires b == Layer(adj, dsts, fanout, numSnapshots, w)
    requires i < |dsts| && j < |dsts| && dsts[i] == dsts[j]
    requires t == Take(Candidates(adj, dsts[i], numSnapshots, w), fanout)
    requires si == Start(adj, dsts, fanout, numSnapshots, w, i) && sj == Start(adj, dsts, fanout, numSnapshots, w, j)
    ensures Start(adj, dsts, fanout, numSnapshots, w, i + 1) == si + |t|
    ensures Start(adj, dsts, fanout, numSnapshots, w, j + 1) == sj + |t|
    ensures si + |t| <= |b.edgeIds| && sj + |t| <= |b.edgeIds|
    ensures b.edgeIds[si..si + |t|] == b.edgeIds[sj..sj + |t|]
    ensures b.dt[si..si + |t|] == b.dt[sj..sj + |t|]
    ensures b.srcIds[|dsts| + si..|dsts| + si + |t|] == b.srcIds[|dsts| + sj..|dsts| + sj + |t|]
    ensures b.srcTs[|dsts| + si..|dsts| + si + |t|] == b.srcTs[|dsts| + sj..|dsts| + sj + |t|]
    ensures forall m :: si <= m < si + |t| ==> b.edgeDst[m] == i
    ensures forall m :: sj <= m < sj + |t| ==> b.edgeDst[m] == j
  {
    LayerRowBlock(adj, dsts, fanout, numSnapshots, w, b, i, t, si);
    LayerRowBlock(adj, dsts, fanout, numSnapshots, w, b, j, t, sj);
  }

  /** Sampling one more destination appends its own picks, tagged with its row. */
  lemma PickListSnoc(adj: seq<seq<Edge>>, dsts: seq<Root>, fanout: nat, numSnapshots: nat, w: real, i: nat)
    requires i < |dsts|
    ensures PickList(adj, dsts[..i + 1], fanout, numSnapshots, w) ==
      PickList(adj, dsts[..i], fanout, numSnapshots, w) + Tag(Take(Candidates(adj, dsts[i], numSnapshots, w), fanout), i)
  {
    var cs := Choices(adj, dsts, fanout, numSnapshots, w);
    ChoicesPrefix(adj, dsts, fanout, numSnapshots, w, i);
    ChoicesPrefix(adj, dsts, fanout, numSnapshots, w, i + 1);
    assert cs[..i + 1] == cs[..i] + [cs[i]];
    TagAllSnoc(cs[..i], cs[i]);
  }

  /** The layer columns of a pick list grow by the columns of the appended picks. */
  lemma PickColumnsSnoc(dsts: seq<Root>, ps: seq<Pick>, t: seq<Edge>, i: nat)
    requires i < |dsts|
    requires forall k :: 0 <= k < |ps| ==> ps[k].row < |dsts|
    ensures forall k :: 0 <= k < |ps + Tag(t, i)| ==> (ps + Tag(t, i))[k].row < |dsts|
    ensures PickTargets(ps + Tag(t, i)) == PickTargets(ps) + Targets(t)
    ensures PickTimes(ps + Tag(t, i)) == PickTimes(ps) + Times(t)
    ensures PickRows(ps + Tag(t, i)) == PickRows(ps) + seq(|t|, _ => i)
    ensures PickIds(ps + Tag(t, i)) == PickIds(ps) + Ids(t)
    ensures Deltas(dsts, ps + Tag(t, i)) == Deltas(dsts, ps) + Gaps(dsts[i].ts, t)
  {
    var q := ps + Tag(t, i);
    assert forall k :: |ps| <= k < |q| ==> q[k] == Pick(i, t[k - |ps|]);
  }

  /** One more hop puts its layers in front of the stack built so far. */
  lemma LayersUpToStep(adj: seq<seq<Edge>>, roots: seq<Root>, fanouts: seq<nat>, numSnapshots: nat, w: real,
                       h: nat, layer: seq<Block>)
    requires h < |fanouts|
    requires |layer| == numSnapshots
    requires forall s :: 0 <= s < numSnapshots ==> layer[s] == HopBlock(adj, roots, fanouts, numSnapshots, w, s, h)
    ensures [layer] + LayersUpTo(adj, roots, fanouts, numSnapshots, w, h) == LayersUpTo(adj, roots, fanouts, numSnapshots, w, h + 1)
  {
    var prev := LayersUpTo(adj, roots, fanouts, numSnapshots, w, h);
    var next := LayersUpTo(adj, roots, fanouts, numSnapshots, w, h + 1);
    forall l | 0 <= l < h + 1 ensures ([layer] + prev)[l] == next[l] {
      var row := ([layer] + prev)[l];
      assert |row| == numSnapshots;
      forall s | 0 <= s < numSnapshots
        ensures row[s] == HopBlock(adj, roots, fanouts, numSnapshots, w, s, h - l)
      {
        if l > 0 {
          assert row == prev[l - 1];
        }
      }
    }
  }

  /** The roots' layers are the first hop of the stack. */
  lemma FirstHop(adj: seq<seq<Edge>>, roots: seq<Root>, fanouts: seq<nat>, numSnapshots: nat, w: real)
    requires 0 < |fanouts|
    ensures [RootLayers(adj, roots, fanouts[0], numSnapshots, w)] == LayersUpTo(adj, roots, fanouts, numSnapshots, w, 1)
  {
    var layer := RootLayers(adj, roots, fanouts[0], numSnapshots, w);
    forall s | 0 <= s < numSnapshots ensures layer[s] == HopBlock(adj, roots, fanouts, numSnapshots, w, s, 0) {
    }
    LayersUpToStep(adj, roots, fanouts, numSnapshots, w, 0, layer);
  }

  /** Every later hop samples from the front layers of the stack built so far. */
  lemma NextHop(adj: seq<seq<Edge>>, roots: seq<Root>, fanouts: seq<nat>, numSnapshots: nat, w: real, h: nat,
                prev: seq<seq<Block>>)
    requires 0 < h < |fanouts|
    requires prev == LayersUpTo(adj, roots, fanouts, numSnapshots, w, h)
    ensures |prev[0]| == numSnapshots
    ensures forall s :: 0 <= s < numSnapshots ==> WellShaped(prev[0][s])
    ensures [NextLayers(adj, prev[0], fanouts[h], numSnapshots, w)] + prev ==
      LayersUpTo(adj, roots, fanouts, numSnapshots, w, h + 1)
  {
    var layer := NextLayers(adj, prev[0], fanouts[h], numSnapshots, w);
    forall s | 0 <= s < numSnapshots ensures layer[s] == HopBlock(adj, roots, fanouts, numSnapshots, w, s, h) {
      assert prev[0][s] == HopBlock(adj, roots, fanouts, numSnapshots, w, s, h - 1);
      assert HopRoots(adj, roots, fanouts, numSnapshots, w, s, h) == SampledRows(prev[0][s]);
    }
    LayersUpToStep(adj, roots, fanouts, numSnapshots, w, h, layer);
  }

  /** Destinations with nothing in their windows (vertices with no
      out-edges, or an empty destination list) give a layer with no edges
      whose node rows are the destinations alone. */
  lemma NoCandidatesNoEdges(adj: seq<seq<Edge>>, dsts: seq<Root>, fanout: nat, numSnapshots: nat, w: real)
    requires forall i :: 0 <= i < |dsts| ==> Candidates(adj, dsts[i], numSnapshots, w) == []
    ensures var b := Layer(adj, dsts, fanout, numSnapshots, w);
      b.edgeIds == [] && b.dt == [] && |b.srcIds| == b.numDst == |dsts|
  {
    TagAllEmpty(Choices(adj, dsts, fanout, numSnapshots, w));
  }

  // ---------------------------------------------------------------------
  // Properties of the whole stack.

  /** The layout of the sampler's output: |fanouts| layers of one layer per
      snapshot; the last layer's destinations are the roots with the
      snapshot's shift applied; every other layer's destinations are the
      sampled rows of the layer after it in the same snapshot, shifted again
      by the same amount, and sampled with that hop's fanout. */
  lemma SampleAllLayout(adj: seq<seq<Edge>>, roots: seq<Root>, fanouts: seq<nat>, numSnapshots: nat, w: real,
                        l: nat, s: nat, out: seq<seq<Block>>)
    requires l < |fanouts| && s < numSnapshots
    requires out == SampleAll(adj, roots, fanouts, numSnapshots, w)
    ensures |out| == |fanouts| && |out[l]| == numSnapshots
    ensures l == |fanouts| - 1 ==>
      out[l][s] == Layer(adj, Shift(roots, Offset(numSnapshots, s, w)), fanouts[0], numSnapshots, w)
    ensures l < |fanouts| - 1 ==>
      out[l][s] == Layer(adj, Shift(SampledRows(out[l + 1][s]), Offset(numSnapshots, s, w)),
                         fanouts[|fanouts| - 1 - l], numSnapshots, w)
  {
    var h := |fanouts| - 1 - l;
    assert out[l][s] == HopBlock(adj, roots, fanouts, numSnapshots, w, s, h);
    if l < |fanouts| - 1 {
      assert out[l + 1][s] == HopBlock(adj, roots, fanouts, numSnapshots, w, s, h - 1);
      assert HopRoots(adj, roots, fanouts, numSnapshots, w, s, h) == SampledRows(out[l + 1][s]);
    }
  }

  /** The destination rows of each layer, read off the node tables: the
      layer l + 1 sampled row k is layer l's destination row k, with the
      same vertex and its timestamp moved back by the snapshot's shift. */
  lemma HopDestinations(adj: seq<seq<Edge>>, roots: seq<Root>, fanouts: seq<nat>, numSnapshots: nat, w: real,
                        l: nat, s: nat, out: seq<seq<Block>>)
    requires l + 1 < |fanouts| && s < numSnapshots
    requires out == SampleAll(adj, roots, fanouts, numSnapshots, w)
    ensures |out| == |fanouts| && |out[l]| == |out[l + 1]| == numSnapshots
    ensures out[l][s].numDst == |out[l + 1][s].srcIds| - out[l + 1][s].numDst
    ensures forall k :: 0 <= k < out[l][s].numDst ==>
      out[l][s].srcIds[k] == out[l + 1][s].srcIds[out[l + 1][s].numDst + k] &&
      out[l][s].srcTs[k] == out[l + 1][s].srcTs[out[l + 1][s].numDst + k] - Offset(numSnapshots, s, w)
  {
    SampleAllLayout(adj, roots, fanouts, numSnapshots, w, l, s, out);
    SampleAllLayout(adj, roots, fanouts, numSnapshots, w, l + 1, s, out);
    var next := Shift(SampledRows(out[l + 1][s]), Offset(numSnapshots, s, w));
    LayerShape(adj, next, fanouts[|fanouts| - 1 - l], numSnapshots, w, out[l][s]);
  }
}
