/** The dynamic graph store: per-vertex chains of fixed-capacity blocks,
    append-only ingestion in timestamp-increasing batches, and time-range
    neighbour queries. */
module GraphStore {
  import opened Timeline
  import opened Ingestion

  datatype GraphError = InvalidBatchShape | OutOfOrderTimestamp | ConfigurationError

  datatype Outcome = Pass | Fail(error: GraphError)

  datatype Result<T> = Ok(value: T) | Err(error: GraphError)

  /** The three parallel sequences a neighbour query returns. */
  datatype Neighborhood = Neighborhood(targets: seq<nat>, timestamps: seq<real>, edgeIds: seq<nat>)

  function Columns(es: seq<Edge>): Neighborhood
  {
    Neighborhood(
      seq(|es|, i requires 0 <= i < |es| => es[i].target),
      seq(|es|, i requires 0 <= i < |es| => es[i].ts),
      Ids(es))
  }

  /** Every vertex's chain read as one newest-first list. */
  function FlattenAll(chains: seq<seq<seq<Edge>>>): (adj: seq<seq<Edge>>)
    ensures |adj| == |chains|
    ensures forall v :: 0 <= v < |chains| ==> adj[v] == Flatten(chains[v])
  {
    seq(|chains|, v requires 0 <= v < |chains| => Flatten(chains[v]))
  }

  /** No block is empty and none holds more than `blockSize` edges. */
  predicate ChainFits(chain: seq<seq<Edge>>, blockSize: nat)
  {
    forall k :: 0 <= k < |chain| ==> 0 < |chain[k]| <= blockSize
  }

  predicate BlocksFit(chains: seq<seq<seq<Edge>>>, blockSize: nat)
  {
    forall v :: 0 <= v < |chains| ==> ChainFits(chains[v], blockSize)
  }

  /** Cuts `numbered` (oldest first) into blocks of `blockSize` edges, each
      stored newest first, and puts them in front of `chain`, the block with
      the newest edges at the head. */
  method PrependBlocks(chain: seq<seq<Edge>>, numbered: seq<Edge>, blockSize: nat) returns (r: seq<seq<Edge>>)
    requires blockSize > 0
    requires ChainFits(chain, blockSize)
    ensures ChainFits(r, blockSize)
    ensures Flatten(r) == Reverse(numbered) + Flatten(chain)
  {
    r := chain;
    var i := 0;
    while i < |numbered|
      invariant 0 <= i <= |numbered|
      invariant Flatten(r) == Reverse(numbered[..i]) + Flatten(chain)
      invariant ChainFits(r, blockSize)
    {
      var j := if i + blockSize < |numbered| then i + blockSize else |numbered|;
      FlattenCons(Reverse(numbered[i..j]), r);
      assert numbered[..j] == numbered[..i] + numbered[i..j];
      ReverseAppend(numbered[..i], numbered[i..j]);
      ConcatAssoc(Reverse(numbered[i..j]), Reverse(numbered[..i]), Flatten(chain));
      r := [Reverse(numbered[i..j])] + r;
      i := j;
    }
    assert numbered[..i] == numbered;
  }

  /** Replacing one vertex's chain by one that reads as its group in front of
      its old list keeps the block shape and the store invariant, with the
      counter advanced by the group's size. */
  lemma ReplaceChain(chains: seq<seq<seq<Edge>>>, blockSize: nat, n: nat, v: nat, c: seq<seq<Edge>>,
                     ps: seq<Pending>, policy: InsertionPolicy)
    requires v < |chains|
    requires BlocksFit(chains, blockSize) && ChainFits(c, blockSize)
    requires StoreInvariant(FlattenAll(chains), n, |chains|)
    requires Flatten(c) == Incoming(ps, n) + Flatten(chains[v])
    requires forall p :: p in ps ==> p.target < |chains| && Admissible(Flatten(chains[v]), policy, p.ts)
    ensures BlocksFit(chains[v := c], blockSize)
    ensures FlattenAll(chains[v := c]) == FlattenAll(chains)[v := Incoming(ps, n) + FlattenAll(chains)[v]]
    ensures StoreInvariant(FlattenAll(chains[v := c]), n + |ps|, |chains|)
  {
    FlattenAllUpdate(chains, v, c);
    StorePrepend(FlattenAll(chains), n, v, ps, policy);
    var chains' := chains[v := c];
    forall u | 0 <= u < |chains'| ensures ChainFits(chains'[u], blockSize) {
      if u != v { assert chains'[u] == chains[u]; }
    }
  }

  lemma FlattenAllUpdate(chains: seq<seq<seq<Edge>>>, v: nat, c: seq<seq<Edge>>)
    requires v < |chains|
    ensures FlattenAll(chains[v := c]) == FlattenAll(chains)[v := Flatten(c)]
  {
    var l, r := FlattenAll(chains[v := c]), FlattenAll(chains)[v := Flatten(c)];
    forall u | 0 <= u < |chains| ensures l[u] == r[u] {
      if u != v { assert chains[v := c][u] == chains[u]; }
    }
  }

  /** Appending vertices with empty chains. */
  lemma AppendEmptyChains(chains: seq<seq<seq<Edge>>>, blockSize: nat, n: nat, k: nat)
    requires BlocksFit(chains, blockSize)
    requires StoreInvariant(FlattenAll(chains), n, |chains|)
    ensures BlocksFit(chains + seq(k, _ => []), blockSize)
    ensures FlattenAll(chains + seq(k, _ => [])) == FlattenAll(chains) + seq(k, _ => [])
    ensures StoreInvariant(FlattenAll(chains + seq(k, _ => [])), n, |chains| + k)
  {
    StoreGrow(FlattenAll(chains), n, k);
    assert FlattenAll(chains + seq(k, _ => [])) == FlattenAll(chains) + seq(k, _ => []);
  }

  /** The store over `nv` vertices with `inc` put in front of vertex `v`'s list. */
  function ExtendedAt(adj: seq<seq<Edge>>, nv: nat, v: nat, inc: seq<Edge>): (r: seq<seq<Edge>>)
    ensures |r| == nv
  {
    seq(nv, u requires 0 <= u < nv => if u == v then inc + VertexEdges(adj, u) else VertexEdges(adj, u))
  }

  lemma ExtendedAtGrow(adj0: seq<seq<Edge>>, adj1: seq<seq<Edge>>, nv: nat, v: nat, inc: seq<Edge>)
    requires v < nv == |adj1|
    requires forall u :: VertexEdges(adj1, u) == VertexEdges(adj0, u)
    ensures adj1[v := inc + adj1[v]] == ExtendedAt(adj0, nv, v, inc)
  {
    forall u | 0 <= u < nv ensures adj1[v := inc + adj1[v]][u] == ExtendedAt(adj0, nv, v, inc)[u] {
      assert VertexEdges(adj1, u) == adj1[u];
    }
  }

  /** The store while a batch is being ingested: vertices below `v` already
      hold their list in `done`, the others still hold their list in `adj`. */
  function PartlyIngested(done: seq<seq<Edge>>, adj: seq<seq<Edge>>, nv: nat, v: nat): seq<seq<Edge>>
  {
    seq(nv, u requires 0 <= u < nv => if u < v then VertexEdges(done, u) else VertexEdges(adj, u))
  }

  /** Putting vertex `v`'s new edges in front of its list moves the partly
      ingested store one vertex on. */
  lemma IngestStep(done: seq<seq<Edge>>, adj: seq<seq<Edge>>, nv: nat, v: nat, inc: seq<Edge>,
                   before: seq<seq<Edge>>, after: seq<seq<Edge>>)
    requires v < nv
    requires before == PartlyIngested(done, adj, nv, v)
    requires after == ExtendedAt(before, nv, v, inc)
    requires VertexEdges(done, v) == inc + VertexEdges(adj, v)
    ensures after == PartlyIngested(done, adj, nv, v + 1)
  {
    var want := PartlyIngested(done, adj, nv, v + 1);
    assert before[v] == VertexEdges(adj, v);
    assert |after| == nv && after[v] == want[v];
    forall u | 0 <= u < nv && u != v ensures after[u] == want[u] {
      assert after[u] == before[u];
    }
    assert after == want;
  }

  lemma IngestAtIndex(done: seq<seq<Edge>>, adj: seq<seq<Edge>>, n0: nat, batch: seq<Arrival>, nv: nat, v: nat, base: nat)
    requires done == Ingest(adj, n0, batch, nv)
    requires v < nv && base == n0 + CountBelow(batch, v)
    ensures VertexEdges(done, v) == Incoming(GroupOf(batch, v), base) + VertexEdges(adj, v)
  {
    assert done[v] == IngestAt(adj, n0, batch, v);
  }

  lemma PartlyIngestedStart(done: seq<seq<Edge>>, cur: seq<seq<Edge>>, adj: seq<seq<Edge>>, nv: nat)
    requires |cur| == nv
    requires forall u :: VertexEdges(cur, u) == VertexEdges(adj, u)
    ensures PartlyIngested(done, adj, nv, 0) == cur
  {
    forall u | 0 <= u < nv ensures PartlyIngested(done, adj, nv, 0)[u] == cur[u] {
      assert VertexEdges(cur, u) == cur[u];
    }
  }

  lemma PartlyIngestedEnd(done: seq<seq<Edge>>, adj: seq<seq<Edge>>, nv: nat)
    requires |done| == nv
    ensures PartlyIngested(done, adj, nv, nv) == done
  {
    assert forall u :: 0 <= u < nv ==> PartlyIngested(done, adj, nv, nv)[u] == done[u];
  }

  /** Putting nothing in front of a vertex's list leaves the store as it was. */
  lemma ExtendedAtNothing(adj: seq<seq<Edge>>, v: nat, inc: seq<Edge>)
    requires v < |adj| && inc == []
    ensures ExtendedAt(adj, |adj|, v, inc) == adj
  {
    forall u | 0 <= u < |adj| ensures ExtendedAt(adj, |adj|, v, inc)[u] == adj[u] {
      assert VertexEdges(adj, u) == adj[u];
    }
  }

  /** Checking the oldest row of a sorted group is checking every row: the
      group is admissible exactly when its oldest row is. */
  lemma OldestDecides(es: seq<Edge>, policy: InsertionPolicy, targets: seq<nat>, timestamps: seq<real>)
    requires |targets| == |timestamps| && targets != []
    ensures Admissible(es, policy, SortByTime(Pendings(targets, timestamps))[0].ts) <==>
            AdmitsAllTimes(es, policy, timestamps)
  {
    var ps := Pendings(targets, timestamps);
    SortedHeadIsOldest(ps);
    var oldest := SortByTime(ps)[0];
    var k :| 0 <= k < |ps| && ps[k] == oldest;
    assert timestamps[k] == oldest.ts;
    forall j | 0 <= j < |timestamps| ensures oldest.ts <= timestamps[j] {
      assert ps[j] in ps;
    }
  }

  /** The rows of an admissible group, as pending edges. */
  lemma PendingsAdmissible(es: seq<Edge>, policy: InsertionPolicy, targets: seq<nat>, timestamps: seq<real>)
    requires |targets| == |timestamps|
    requires AdmitsAllTimes(es, policy, timestamps)
    ensures forall p :: p in Pendings(targets, timestamps) ==> p.target <= MaxOf(targets) && Admissible(es, policy, p.ts)
  {
    var ps := Pendings(targets, timestamps);
    forall p | p in ps ensures p.target <= MaxOf(targets) && Admissible(es, policy, p.ts) {
      var j :| 0 <= j < |ps| && ps[j] == p;
    }
  }

  class DynamicGraph {
    const blockSize: nat
    const policy: InsertionPolicy
    /** For each vertex, its chain of blocks, head (newest) block first; each
        block holds at most `blockSize` edges, newest first. */
    var chains: seq<seq<seq<Edge>>>
    var numEdges: nat
    var numVertices: nat

    ghost predicate Valid()
      reads this
    {
      && blockSize > 0
      && |chains| == numVertices
      && BlocksFit(chains, blockSize)
      && StoreInvariant(FlattenAll(chains), numEdges, numVertices)
    }

    /** Every vertex's edges, newest first. */
    function Adjacency(): seq<seq<Edge>>
      reads this
    {
      FlattenAll(chains)
    }

    function Neighbors(v: nat): (es: seq<Edge>)
      reads this
      requires Valid()
      ensures es == VertexEdges(Adjacency(), v)
      ensures NewestFirst(es)
    {
      if v < |chains| then
        AllNewestFirstAt(Adjacency(), v);
        Flatten(chains[v])
      else []
    }

    constructor (blockSize: nat, policy: InsertionPolicy)
      requires blockSize > 0
      ensures Valid()
      ensures this.blockSize == blockSize && this.policy == policy
      ensures Adjacency() == [] && numEdges == 0 && numVertices == 0
    {
      this.blockSize := blockSize;
      this.policy := policy;
      chains := [];
      numEdges := 0;
      numVertices := 0;
      new;
      StoreEmpty();
    }

    /** Construction with a configuration check: a block size that is not
        positive is refused. */
    static method Create(blockSize: int, policy: InsertionPolicy) returns (r: Result<DynamicGraph>)
      ensures r.Err? <==> blockSize <= 0
      ensures r.Err? ==> r.error == ConfigurationError
      ensures r.Ok? ==>
        && fresh(r.value) && r.value.Valid() && r.value.blockSize == blockSize && r.value.policy == policy
        && r.value.Adjacency() == [] && r.value.numEdges == 0 && r.value.numVertices == 0
    {
      if blockSize <= 0 {
        return Err(ConfigurationError);
      }
      var g := new DynamicGraph(blockSize, policy);
      return Ok(g);
    }

    /** `num_edges`: the number of stored edges, summed over all vertices. */
    function NumEdges(): (n: nat)
      reads this
      requires Valid()
      ensures n == TotalDegree(Adjacency())
    {
      numEdges
    }

    /** `num_vertices`: the vertex table covers every target of every edge. */
    function NumVertices(): (n: nat)
      reads this
      requires Valid()
      ensures n == |Adjacency()|
      ensures forall v, i :: 0 <= v < |Adjacency()| && 0 <= i < |Adjacency()[v]| ==> Adjacency()[v][i].target < n
    {
      assert forall v :: 0 <= v < |Adjacency()| ==> Bounded(Adjacency()[v], numEdges, numVertices) by {
        forall v | 0 <= v < |Adjacency()| ensures Bounded(Adjacency()[v], numEdges, numVertices) {
          AllBoundedAt(Adjacency(), numEdges, numVertices, v);
        }
      }
      numVertices
    }

    /** `get_temporal_neighbors(v, start, end)`: the edges of `v` with
        start <= ts <= end, newest first, found by the block-wise scan. */
    function GetTemporalNeighbors(v: nat, lo: Bound, hi: Bound): (r: Neighborhood)
      reads this
      requires Valid()
      ensures r == Columns(InWindow(VertexEdges(Adjacency(), v), lo, hi))
      ensures |r.targets| == |r.timestamps| == |r.edgeIds|
      ensures forall i, j :: 0 <= i < j < |r.timestamps| ==>
        r.timestamps[j] <= r.timestamps[i] && r.edgeIds[j] < r.edgeIds[i]
    {
      if v < |chains| then
        AllNewestFirstAt(Adjacency(), v);
        ScanChainIsFilter(chains[v], lo, hi);
        InWindowNewestFirst(Flatten(chains[v]), lo, hi);
        NewestFirstPairs(InWindow(Flatten(chains[v]), lo, hi));
        Columns(ScanChain(chains[v], lo, hi))
      else
        Columns([])
    }

    /** `out_degree(v)`: every stored edge of `v`, whatever its time. */
    function OutDegree(v: nat): (d: nat)
      reads this
      requires Valid()
      ensures d == |GetTemporalNeighbors(v, Unbounded, Unbounded).targets|
      ensures d == |VertexEdges(Adjacency(), v)|
    {
      InWindowUnbounded(VertexEdges(Adjacency(), v));
      |Neighbors(v)|
    }

    /** Extends the vertex table to `n` vertices (new vertices have no edges). */
    method Grow(n: nat)
      requires Valid()
      modifies this
      ensures Valid()
      ensures numVertices == Max(old(numVertices), n) && numEdges == old(numEdges)
      ensures forall v :: VertexEdges(Adjacency(), v) == VertexEdges(old(Adjacency()), v)
    {
      if n > numVertices {
        var k := n - numVertices;
        AppendEmptyChains(chains, blockSize, numEdges, k);
        chains := chains + seq(k, _ => []);
        numVertices := n;
      }
    }

    /** `_add_edges_for_one_vertex(v, targets, timestamps)`: sorts the rows
        by time, refuses them all if the oldest is not newer than `v`'s newest
        edge, numbers them from the counter in that order and puts them in
        front of `v`'s chain in new blocks of at most `blockSize` edges. */
    method AddEdgesForOneVertex(v: nat, targets: seq<nat>, timestamps: seq<real>) returns (r: Outcome)
      requires Valid()
      modifies this
      ensures Valid()
      ensures r.Pass? || r == Fail(InvalidBatchShape) || r == Fail(OutOfOrderTimestamp)
      ensures r == Fail(InvalidBatchShape) <==> |targets| != |timestamps| || targets == []
      ensures r == Fail(OutOfOrderTimestamp) <==>
        && |targets| == |timestamps| && targets != []
        && !AdmitsAllTimes(VertexEdges(old(Adjacency()), v), policy, timestamps)
      ensures r.Fail? ==> unchanged(this)
      ensures r.Pass? ==>
        && |targets| == |timestamps|
        && numVertices == Max(old(numVertices), 1 + Max(v, MaxOf(targets)))
        && numEdges == old(numEdges) + |targets|
        && Adjacency() == ExtendedAt(old(Adjacency()), numVertices, v, Incoming(Pendings(targets, timestamps), old(numEdges)))
    {
      if |targets| != |timestamps| || targets == [] {
        return Fail(InvalidBatchShape);
      }
      var ok := GroupAdmissible(v, targets, timestamps);
      if !ok {
        return Fail(OutOfOrderTimestamp);
      }
      InsertGroup(v, targets, timestamps);
      r := Pass;
    }

    /** The out-of-order check of one group: only its oldest row, after the
        sort, is compared with the vertex's newest stored edge. */
    method GroupAdmissible(v: nat, targets: seq<nat>, timestamps: seq<real>) returns (ok: bool)
      requires Valid()
      requires |targets| == |timestamps| && targets != []
      ensures ok == AdmitsAllTimes(Neighbors(v), policy, timestamps)
    {
      var sorted := SortByTime(Pendings(targets, timestamps));
      OldestDecides(Neighbors(v), policy, targets, timestamps);
      ok := Admissible(Neighbors(v), policy, sorted[0].ts);
    }

    /** Grows the vertex table to cover `v` and every target, then stores the
        admissible group. */
    method InsertGroup(v: nat, targets: seq<nat>, timestamps: seq<real>)
      requires Valid()
      requires |targets| == |timestamps|
      requires AdmitsAllTimes(Neighbors(v), policy, timestamps)
      modifies this
      ensures Valid()
      ensures numVertices == Max(old(numVertices), 1 + Max(v, MaxOf(targets)))
      ensures numEdges == old(numEdges) + |targets|
      ensures Adjacency() == ExtendedAt(old(Adjacency()), numVertices, v, Incoming(Pendings(targets, timestamps), old(numEdges)))
    {
      var pending := Pendings(targets, timestamps);
      PendingsAdmissible(Neighbors(v), policy, targets, timestamps);
      ghost var adj0 := Adjacency();
      Grow(1 + Max(v, MaxOf(targets)));
      ghost var adj1, n1 := Adjacency(), numEdges;
      assert Adjacency()[v] == VertexEdges(adj0, v);
      PrependGroup(v, pending);
      ExtendedAtGrow(adj0, adj1, numVertices, v, Incoming(pending, n1));
    }

    /** The insertion proper: sorts an admissible group by time, numbers it
        from the counter and puts it in front of `v`'s chain in new blocks. */
    method PrependGroup(v: nat, pending: seq<Pending>)
      requires Valid()
      requires v < numVertices
      requires forall p :: p in pending ==> p.target < numVertices && Admissible(Adjacency()[v], policy, p.ts)
      modifies this
      ensures Valid()
      ensures numVertices == old(numVertices) && numEdges == old(numEdges) + |pending|
      ensures Adjacency() == old(Adjacency())[v := Incoming(pending, old(numEdges)) + old(Adjacency())[v]]
    {
      ghost var adj0, inc := Adjacency(), Incoming(pending, numEdges);
      var numbered := Number(SortByTime(pending), numEdges);
      assert Reverse(numbered) == inc;
      var chain := PrependBlocks(chains[v], numbered, blockSize);
      ReplaceChain(chains, blockSize, numEdges, v, chain, pending, policy);
      var chains', n' := chains[v := chain], numEdges + |pending|;
      assert BlocksFit(chains', blockSize) && |chains'| == numVertices;
      assert StoreInvariant(FlattenAll(chains'), n', numVertices);
      assert FlattenAll(chains') == adj0[v := inc + adj0[v]];
      chains, numEdges := chains', n';
    }

    /** `add_edges(srcs, dsts, timestamps)`: refuses a malformed batch, then
        refuses the whole batch if any row is not newer than its source
        vertex's newest edge; otherwise grows the vertex table to cover every
        source and target and ingests the groups in ascending vertex order. */
    method AddEdges(srcs: seq<nat>, dsts: seq<nat>, timestamps: seq<real>) returns (r: Outcome)
      requires Valid()
      modifies this
      ensures Valid()
      ensures r.Pass? || r == Fail(InvalidBatchShape) || r == Fail(OutOfOrderTimestamp)
      ensures r == Fail(InvalidBatchShape) <==> !(|srcs| == |dsts| == |timestamps|) || srcs == []
      ensures r == Fail(OutOfOrderTimestamp) <==>
        && |srcs| == |dsts| == |timestamps| && srcs != []
        && !AdmitsBatch(old(Adjacency()), policy, Zip(srcs, dsts, timestamps))
      ensures r.Fail? ==> chains == old(chains) && numEdges == old(numEdges) && numVertices == old(numVertices)
      ensures r.Pass? ==>
        && |srcs| == |dsts| == |timestamps|
        && numVertices == Max(old(numVertices), 1 + MaxVertex(Zip(srcs, dsts, timestamps)))
        && numEdges == old(numEdges) + |srcs|
        && Adjacency() == Ingest(old(Adjacency()), old(numEdges), Zip(srcs, dsts, timestamps), numVertices)
    {
      if !(|srcs| == |dsts| == |timestamps|) || srcs == [] {
        return Fail(InvalidBatchShape);
      }
      var batch := Zip(srcs, dsts, timestamps);
      var ok := AdmitsAll(batch);
      if !ok {
        return Fail(OutOfOrderTimestamp);
      }
      assert |batch| == |srcs|;
      ghost var nv := Max(numVertices, 1 + MaxVertex(batch));
      IngestBatch(batch);
      assert numVertices == nv;
      r := Pass;
    }

    /** The admission pass over the whole batch, before anything is stored. */
    method AdmitsAll(batch: seq<Arrival>) returns (ok: bool)
      requires Valid()
      ensures ok == AdmitsBatch(Adjacency(), policy, batch)
    {
      ghost var adj := Adjacency();
      var j := 0;
      while j < |batch|
        invariant 0 <= j <= |batch|
        invariant forall k :: 0 <= k < j ==> Admissible(VertexEdges(adj, batch[k].src), policy, batch[k].ts)
      {
        var es := Neighbors(batch[j].src);
        if !Admissible(es, policy, batch[j].ts) {
          return false;
        }
        j := j + 1;
      }
      return true;
    }

    /** Stores an admitted batch: grows the vertex table, then hands each
        vertex's group, in ascending vertex order, to the one-vertex insert. */
    method IngestBatch(batch: seq<Arrival>)
      requires Valid()
      requires AdmitsBatch(Adjacency(), policy, batch)
      modifies this
      ensures Valid()
      ensures numVertices == Max(old(numVertices), 1 + MaxVertex(batch))
      ensures numEdges == old(numEdges) + |batch|
      ensures Adjacency() == Ingest(old(Adjacency()), old(numEdges), batch, numVertices)
    {
      ghost var adj0 := Adjacency();
      ghost var n0 := numEdges;
      Grow(1 + MaxVertex(batch));
      assert numVertices == Max(old(numVertices), 1 + MaxVertex(batch));
      ghost var done := Ingest(adj0, n0, batch, numVertices);
      CountBelowZero(batch);
      PartlyIngestedStart(done, Adjacency(), adj0, numVertices);
      IngestAll(batch, adj0, n0, done);
    }

    /** The ingest loop over every vertex, from an empty prefix to all of them. */
    method IngestAll(batch: seq<Arrival>, ghost adj0: seq<seq<Edge>>, ghost n0: nat, ghost done: seq<seq<Edge>>)
      requires Valid()
      requires AdmitsBatch(adj0, policy, batch)
      requires MaxVertex(batch) < numVertices
      requires done == Ingest(adj0, n0, batch, numVertices)
      requires numEdges == n0 + CountBelow(batch, 0)
      requires Adjacency() == PartlyIngested(done, adj0, numVertices, 0)
      modifies this
      ensures Valid()
      ensures numVertices == old(numVertices) && numEdges == n0 + |batch|
      ensures Adjacency() == done
    {
      ghost var nv := numVertices;
      var v := 0;
      while v < numVertices
        invariant Valid()
        invariant 0 <= v <= numVertices && numVertices == nv
        invariant numEdges == n0 + CountBelow(batch, v)
        invariant Adjacency() == PartlyIngested(done, adj0, nv, v)
      {
        IngestVertex(batch, v, adj0, n0, done);
        v := v + 1;
      }
      CountBelowAll(batch, nv);
      PartlyIngestedEnd(done, adj0, nv);
    }

    /** One round of the ingest loop: the store moves on from "ingested below
        `v`" to "ingested below `v + 1`". */
    method IngestVertex(batch: seq<Arrival>, v: nat, ghost adj0: seq<seq<Edge>>, ghost n0: nat,
                        ghost done: seq<seq<Edge>>)
      requires Valid()
      requires AdmitsBatch(adj0, policy, batch)
      requires v < numVertices && MaxVertex(batch) < numVertices
      requires done == Ingest(adj0, n0, batch, numVertices)
      requires numEdges == n0 + CountBelow(batch, v)
      requires Adjacency() == PartlyIngested(done, adj0, numVertices, v)
      modifies this
      ensures Valid()
      ensures numVertices == old(numVertices)
      ensures numEdges == n0 + CountBelow(batch, v + 1)
      ensures Adjacency() == PartlyIngested(done, adj0, numVertices, v + 1)
    {
      ghost var before := Adjacency();
      ghost var inc := Incoming(GroupOf(batch, v), numEdges);
      CountBelowStep(batch, v);
      IngestAtIndex(done, adj0, n0, batch, numVertices, v, numEdges);
      assert VertexEdges(Adjacency(), v) == VertexEdges(adj0, v);
      GroupRows(adj0, policy, batch, v);
      IngestGroup(v, GroupOf(batch, v));
      IngestStep(done, adj0, numVertices, v, inc, before, Adjacency());
    }

    /** Vertex `v`'s group, if it has one, goes to the one-vertex insert as
        a target column and a time column. */
    method IngestGroup(v: nat, group: seq<Pending>)
      requires Valid()
      requires v < numVertices && MaxOf(TargetsOf(group)) < numVertices
      requires AdmitsAllTimes(Neighbors(v), policy, TimesOf(group))
      modifies this
      ensures Valid()
      ensures numVertices == old(numVertices)
      ensures numEdges == old(numEdges) + |group|
      ensures Adjacency() == ExtendedAt(old(Adjacency()), numVertices, v, Incoming(group, old(numEdges)))
    {
      ghost var before := Adjacency();
      ghost var nv, base := numVertices, numEdges;
      if group != [] {
        var targets, times := TargetsOf(group), TimesOf(group);
        assert Max(nv, 1 + Max(v, MaxOf(targets))) == nv;
        var outcome := AddEdgesForOneVertex(v, targets, times);
        assert outcome.Pass?;
        assert numVertices == nv && numEdges == base + |group|;
        Reassemble(group);
      } else {
        ExtendedAtNothing(before, v, Incoming(group, base));
      }
    }
  }
}
