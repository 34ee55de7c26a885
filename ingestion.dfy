/** What one ingestion batch does to the store, stated on values: grouping by
    source vertex, the stable time sort inside a group, the global edge-id
    numbering, the admission rule, and the store invariant every accepted
    batch preserves. */
module Ingestion {
  import opened Timeline

  /** One row of an ingestion batch, as the caller supplies it. */
  datatype Arrival = Arrival(src: nat, dst: nat, ts: real)

  /** An edge of one source vertex that has no id yet. */
  datatype Pending = Pending(target: nat, ts: real)

  /** `insertion_policy`: the default rejects a timestamp equal to the
      vertex's newest one; "new" accepts it and stores the new edge as the
      more recent one. */
  datatype InsertionPolicy = Default | New

  function Zip(srcs: seq<nat>, dsts: seq<nat>, ts: seq<real>): seq<Arrival>
    requires |srcs| == |dsts| == |ts|
  {
    seq(|srcs|, j requires 0 <= j < |srcs| => Arrival(srcs[j], dsts[j], ts[j]))
  }

  function Pendings(targets: seq<nat>, ts: seq<real>): seq<Pending>
    requires |targets| == |ts|
  {
    seq(|targets|, j requires 0 <= j < |targets| => Pending(targets[j], ts[j]))
  }

  function TargetsOf(ps: seq<Pending>): seq<nat>
  {
    seq(|ps|, i requires 0 <= i < |ps| => ps[i].target)
  }

  function TimesOf(ps: seq<Pending>): seq<real>
  {
    seq(|ps|, i requires 0 <= i < |ps| => ps[i].ts)
  }

  /** Pending edges split into their target and time columns reassemble. */
  lemma Reassemble(ps: seq<Pending>)
    ensures Pendings(TargetsOf(ps), TimesOf(ps)) == ps
  {
  }

  function Max(a: nat, b: nat): nat { if a < b then b else a }

  /** The largest element (0 for an empty sequence). */
  function MaxOf(s: seq<nat>): (m: nat)
    ensures forall j :: 0 <= j < |s| ==> s[j] <= m
    ensures s != [] ==> m in s
  {
    if s == [] then 0
    else
      var m := MaxOf(s[1..]);
      assert forall x :: x in s[1..] ==> x in s;
      if m <= s[0] then s[0] else m
  }

  /** The largest vertex id, source or target, that a batch mentions. */
  function MaxVertex(batch: seq<Arrival>): (m: nat)
    ensures forall j :: 0 <= j < |batch| ==> batch[j].src <= m && batch[j].dst <= m
  {
    if batch == [] then 0
    else Max(Max(batch[0].src, batch[0].dst), MaxVertex(batch[1..]))
  }

  /** The largest vertex id of a non-empty batch is one that a row mentions. */
  lemma {:induction false} MaxVertexAttained(batch: seq<Arrival>)
    requires batch != []
    ensures exists j :: 0 <= j < |batch| && (batch[j].src == MaxVertex(batch) || batch[j].dst == MaxVertex(batch))
  {
    var m := MaxVertex(batch);
    if m != batch[0].src && m != batch[0].dst {
      MaxVertexAttained(batch[1..]);
      var j :| 0 <= j < |batch[1..]| && (batch[1..][j].src == m || batch[1..][j].dst == m);
      assert batch[j + 1] == batch[1..][j];
    }
  }

  /** The edges of vertex `v` in a batch, in the caller's order. */
  function GroupOf(batch: seq<Arrival>, v: nat): (g: seq<Pending>)
    ensures |g| <= |batch|
    ensures forall p :: p in g <==>
      exists j :: 0 <= j < |batch| && batch[j].src == v && p == Pending(batch[j].dst, batch[j].ts)
  {
    if batch == [] then []
    else
      var rest := GroupOf(batch[1..], v);
      assert forall j :: 0 < j < |batch| ==> batch[j] == batch[1..][j - 1];
      (if batch[0].src == v then [Pending(batch[0].dst, batch[0].ts)] else []) + rest
  }

  /** Grouping one row keeps it exactly when it comes from `v`. */
  lemma GroupOfSingle(x: Arrival, v: nat)
    ensures GroupOf([x], v) == if x.src == v then [Pending(x.dst, x.ts)] else []
  {
    assert [x][1..] == [];
  }

  /** Grouping distributes over batches laid end to end; with the one-row
      case this says a group keeps every row of its vertex, repeated rows
      included, in batch order. */
  lemma {:induction false} GroupOfAppend(a: seq<Arrival>, b: seq<Arrival>, v: nat)
    ensures GroupOf(a + b, v) == GroupOf(a, v) + GroupOf(b, v)
  {
    if a == [] {
      assert a + b == b;
    } else {
      assert (a + b)[1..] == a[1..] + b;
      GroupOfAppend(a[1..], b, v);
      ConcatAssoc(if a[0].src == v then [Pending(a[0].dst, a[0].ts)] else [], GroupOf(a[1..], v), GroupOf(b, v));
    }
  }

  /** How many rows of a batch come from a vertex below `v`: the number of
      ids handed out before vertex `v`'s group is numbered. */
  function CountBelow(batch: seq<Arrival>, v: nat): nat
  {
    if batch == [] then 0 else (if batch[0].src < v then 1 else 0) + CountBelow(batch[1..], v)
  }

  lemma {:induction false} CountBelowStep(batch: seq<Arrival>, v: nat)
    ensures CountBelow(batch, v + 1) == CountBelow(batch, v) + |GroupOf(batch, v)|
  {
    if batch != [] {
      CountBelowStep(batch[1..], v);
    }
  }

  lemma {:induction false} CountBelowAll(batch: seq<Arrival>, n: nat)
    requires forall j :: 0 <= j < |batch| ==> batch[j].src < n
    ensures CountBelow(batch, n) == |batch|
  {
    if batch != [] {
      assert forall j :: 0 <= j < |batch[1..]| ==> batch[1..][j] == batch[j + 1];
      CountBelowAll(batch[1..], n);
    }
  }

  lemma {:induction false} CountBelowZero(batch: seq<Arrival>)
    ensures CountBelow(batch, 0) == 0
  {
    if batch != [] {
      CountBelowZero(batch[1..]);
    }
  }

  lemma {:induction false} CountBelowMonotone(batch: seq<Arrival>, u: nat, v: nat)
    requires u <= v
    ensures CountBelow(batch, u) <= CountBelow(batch, v)
  {
    if batch != [] {
      CountBelowMonotone(batch[1..], u, v);
    }
  }

  // ---------------------------------------------------------------------
  // The stable sort of one group by ascending timestamp.

  predicate Ascending(ps: seq<Pending>) {
    forall i, j :: 0 <= i < j < |ps| ==> ps[i].ts <= ps[j].ts
  }

  /** Inserts `p` in front of the first entry that is not older than it, so
      entries with equal timestamps keep their relative order. */
  function Insert(p: Pending, s: seq<Pending>): (r: seq<Pending>)
    ensures |r| == |s| + 1
  {
    if s == [] || p.ts <= s[0].ts then [p] + s
    else [s[0]] + Insert(p, s[1..])
  }

  lemma {:induction false} InsertPermutes(p: Pending, s: seq<Pending>)
    ensures multiset(Insert(p, s)) == multiset(s) + multiset{p}
  {
    if s != [] && s[0].ts < p.ts {
      InsertPermutes(p, s[1..]);
      assert s == [s[0]] + s[1..];
    }
  }

  lemma {:induction false} InsertAscending(p: Pending, s: seq<Pending>)
    requires Ascending(s)
    ensures Ascending(Insert(p, s))
  {
    if s != [] && s[0].ts < p.ts {
      InsertAscending(p, s[1..]);
      var tail := Insert(p, s[1..]);
      assert NoneBefore(s[1..], s[0].ts) by {
        forall k | 0 <= k < |s[1..]| ensures s[0].ts <= s[1..][k].ts {
          assert s[1..][k] == s[k + 1];
        }
      }
      InsertNoneBefore(p, s[1..], s[0].ts);
      var r := Insert(p, s);
      forall i, j | 0 <= i < j < |r| ensures r[i].ts <= r[j].ts {
        assert r[j] == tail[j - 1];
        if i > 0 { assert r[i] == tail[i - 1]; }
      }
    }
  }

  /** No entry is older than `b`. */
  predicate NoneBefore(s: seq<Pending>, b: real) {
    forall k :: 0 <= k < |s| ==> b <= s[k].ts
  }

  lemma {:induction false} InsertNoneBefore(p: Pending, s: seq<Pending>, b: real)
    requires NoneBefore(s, b) && b <= p.ts
    ensures NoneBefore(Insert(p, s), b)
  {
    if s != [] && s[0].ts < p.ts {
      InsertNoneBefore(p, s[1..], b);
      var r := Insert(p, s);
      forall k | 0 <= k < |r| ensures b <= r[k].ts {
        if k > 0 { assert r[k] == Insert(p, s[1..])[k - 1]; }
      }
    }
  }

  function SortByTime(ps: seq<Pending>): (r: seq<Pending>)
    ensures |r| == |ps|
  {
    if ps == [] then [] else Insert(ps[0], SortByTime(ps[1..]))
  }

  /** The sort only reorders: the sorted group holds exactly the caller's rows. */
  lemma {:induction false} SortByTimePermutes(ps: seq<Pending>)
    ensures multiset(SortByTime(ps)) == multiset(ps)
  {
    if ps != [] {
      SortByTimePermutes(ps[1..]);
      InsertPermutes(ps[0], SortByTime(ps[1..]));
      assert ps == [ps[0]] + ps[1..];
    }
  }

  /** The sort orders a group by ascending timestamp. */
  lemma {:induction false} SortByTimeAscending(ps: seq<Pending>)
    ensures Ascending(SortByTime(ps))
  {
    if ps != [] {
      SortByTimeAscending(ps[1..]);
      InsertAscending(ps[0], SortByTime(ps[1..]));
    }
  }

  /** The head of the sorted group is one of its rows and the oldest of them. */
  lemma SortedHeadIsOldest(ps: seq<Pending>)
    requires ps != []
    ensures SortByTime(ps)[0] in ps
    ensures forall p :: p in ps ==> SortByTime(ps)[0].ts <= p.ts
  {
    var sorted := SortByTime(ps);
    SortByTimeAscending(ps);
    SortByTimePermutes(ps);
    assert sorted[0] in multiset(ps);
    forall p | p in ps ensures sorted[0].ts <= p.ts {
      assert p in multiset(sorted);
      var j :| 0 <= j < |sorted| && sorted[j] == p;
      assert j == 0 || sorted[0].ts <= sorted[j].ts;
    }
  }

  /** The entries with timestamp `t`, in order. */
  function AtTime(ps: seq<Pending>, t: real): seq<Pending>
  {
    if ps == [] then [] else (if ps[0].ts == t then [ps[0]] else []) + AtTime(ps[1..], t)
  }

  lemma {:induction false} InsertStable(p: Pending, s: seq<Pending>, t: real)
    ensures AtTime(Insert(p, s), t) == AtTime([p] + s, t)
  {
    assert ([p] + s)[1..] == s;
    if s != [] && s[0].ts < p.ts {
      InsertStable(p, s[1..], t);
      assert ([s[0]] + Insert(p, s[1..]))[1..] == Insert(p, s[1..]);
      assert ([p] + s[1..])[1..] == s[1..];
    }
  }

  /** The sort is stable: the entries sharing any one timestamp keep the
      order the caller gave them in. */
  lemma {:induction false} SortByTimeStable(ps: seq<Pending>, t: real)
    ensures AtTime(SortByTime(ps), t) == AtTime(ps, t)
  {
    if ps != [] {
      SortByTimeStable(ps[1..], t);
      InsertStable(ps[0], SortByTime(ps[1..]), t);
      assert ([ps[0]] + SortByTime(ps[1..]))[1..] == SortByTime(ps[1..]);
    }
  }

  // ---------------------------------------------------------------------
  // Id assignment and the edges a group adds to its vertex.

  function Number(ps: seq<Pending>, base: nat): seq<Edge>
  {
    seq(|ps|, i requires 0 <= i < |ps| => Edge(ps[i].target, ps[i].ts, base + i))
  }

  /** The edges a group adds in front of its vertex's list: sorted by
      ascending time, numbered from `base` in that order, stored newest first. */
  function Incoming(ps: seq<Pending>, base: nat): seq<Edge>
  {
    Reverse(Number(SortByTime(ps), base))
  }

  function Ids(es: seq<Edge>): seq<nat>
  {
    seq(|es|, i requires 0 <= i < |es| => es[i].id)
  }

  function Contents(es: seq<Edge>): seq<Pending>
  {
    seq(|es|, i requires 0 <= i < |es| => Pending(es[i].target, es[i].ts))
  }

  function Range(lo: nat, hi: nat): seq<nat>
    requires lo <= hi
  {
    seq(hi - lo, i requires 0 <= i < hi - lo => lo + i)
  }

  lemma IncomingAt(ps: seq<Pending>, base: nat, i: nat)
    requires i < |ps|
    ensures |Incoming(ps, base)| == |ps|
    ensures var p := SortByTime(ps)[|ps| - 1 - i];
      Incoming(ps, base)[i] == Edge(p.target, p.ts, base + |ps| - 1 - i)
  {
    var sorted := SortByTime(ps);
    var num := Number(sorted, base);
    var j := |ps| - 1 - i;
    assert num[j] == Edge(sorted[j].target, sorted[j].ts, base + j);
    assert Incoming(ps, base)[i] == num[j];
  }

  lemma IncomingNewestFirst(ps: seq<Pending>, base: nat)
    ensures NewestFirst(Incoming(ps, base))
  {
    var sorted := SortByTime(ps);
    SortByTimeAscending(ps);
    var r := Incoming(ps, base);
    var n := |ps|;
    forall i, j | 0 <= i < j < n ensures r[j].ts <= r[i].ts && r[j].id < r[i].id {
      IncomingAt(ps, base, i);
      IncomingAt(ps, base, j);
      assert sorted[n - 1 - j].ts <= sorted[n - 1 - i].ts;
    }
    PairsNewestFirst(r);
  }

  lemma IncomingContents(ps: seq<Pending>, base: nat)
    ensures multiset(Contents(Incoming(ps, base))) == multiset(ps)
  {
    var sorted := SortByTime(ps);
    var c := Contents(Incoming(ps, base));
    var rs := Reverse(sorted);
    assert |c| == |rs| == |ps| by { if ps != [] { IncomingAt(ps, base, 0); } }
    forall i | 0 <= i < |ps| ensures c[i] == rs[i] {
      IncomingAt(ps, base, i);
    }
    assert c == rs;
    ReverseMultiset(sorted);
    SortByTimePermutes(ps);
  }

  lemma IncomingIds(ps: seq<Pending>, base: nat)
    ensures multiset(Ids(Incoming(ps, base))) == multiset(Range(base, base + |ps|))
  {
    var r := Incoming(ps, base);
    var n := |ps|;
    var range := Range(base, base + n);
    assert |r| == n by { if n > 0 { IncomingAt(ps, base, 0); } }
    forall i | 0 <= i < n ensures Ids(r)[i] == Reverse(range)[i] {
      IncomingAt(ps, base, i);
    }
    assert Ids(r) == Reverse(range);
    ReverseMultiset(range);
  }

  /** The new edges of a group: one per row (duplicates included), newest
      first, with the ids base .. base + |ps| - 1 where a later timestamp
      gets a larger id. */
  lemma IncomingShape(ps: seq<Pending>, base: nat)
    ensures |Incoming(ps, base)| == |ps|
    ensures NewestFirst(Incoming(ps, base))
    ensures forall i :: 0 <= i < |ps| ==> Incoming(ps, base)[i].id == base + |ps| - 1 - i
    ensures multiset(Contents(Incoming(ps, base))) == multiset(ps)
    ensures multiset(Ids(Incoming(ps, base))) == multiset(Range(base, base + |ps|))
  {
    forall i | 0 <= i < |ps| ensures Incoming(ps, base)[i].id == base + |ps| - 1 - i {
      IncomingAt(ps, base, i);
    }
    IncomingNewestFirst(ps, base);
    IncomingContents(ps, base);
    IncomingIds(ps, base);
  }

  // ---------------------------------------------------------------------
  // Admission and the whole-batch effect.

  function VertexEdges(adj: seq<seq<Edge>>, v: nat): seq<Edge>
  {
    if v < |adj| then adj[v] else []
  }

  /** May an edge with timestamp `t` join a vertex whose newest-first list is
      `es`? Only if it is newer than the vertex's newest edge (or as new, under
      the "new" policy). */
  predicate Admissible(es: seq<Edge>, policy: InsertionPolicy, t: real)
  {
    es == [] || (if policy == Default then es[0].ts < t else es[0].ts <= t)
  }

  /** Every one of `times` may join the list `es`. */
  predicate AdmitsAllTimes(es: seq<Edge>, policy: InsertionPolicy, times: seq<real>)
  {
    forall j :: 0 <= j < |times| ==> Admissible(es, policy, times[j])
  }

  predicate AdmitsBatch(adj: seq<seq<Edge>>, policy: InsertionPolicy, batch: seq<Arrival>)
  {
    forall j :: 0 <= j < |batch| ==> Admissible(VertexEdges(adj, batch[j].src), policy, batch[j].ts)
  }

  /** Whatever the default policy admits, "new" admits too, and for a batch
      strictly newer than every stored edge of its vertices the two agree. */
  lemma PolicyNewExtendsDefault(adj: seq<seq<Edge>>, batch: seq<Arrival>)
    ensures AdmitsBatch(adj, Default, batch) ==> AdmitsBatch(adj, New, batch)
    ensures (forall j :: 0 <= j < |batch| ==> forall e :: e in VertexEdges(adj, batch[j].src) ==> e.ts < batch[j].ts)
      ==> AdmitsBatch(adj, Default, batch) && AdmitsBatch(adj, New, batch)
  {
    if forall j :: 0 <= j < |batch| ==> forall e :: e in VertexEdges(adj, batch[j].src) ==> e.ts < batch[j].ts {
      forall j | 0 <= j < |batch| ensures Admissible(VertexEdges(adj, batch[j].src), Default, batch[j].ts) {
        var es := VertexEdges(adj, batch[j].src);
        if es != [] { assert es[0] in es; }
      }
    }
  }

  /** Vertex `v`'s list after an accepted batch whose ids start at `base`. */
  function IngestAt(adj: seq<seq<Edge>>, base: nat, batch: seq<Arrival>, v: nat): seq<Edge>
  {
    Incoming(GroupOf(batch, v), base + CountBelow(batch, v)) + VertexEdges(adj, v)
  }

  /** The whole store after an accepted batch: groups are numbered in
      ascending vertex order, each from where the previous group stopped. */
  function Ingest(adj: seq<seq<Edge>>, base: nat, batch: seq<Arrival>, nv: nat): seq<seq<Edge>>
  {
    seq(nv, v requires 0 <= v < nv => IngestAt(adj, base, batch, v))
  }

  /** Every edge of vertex `v` is kept and its new ones are in front: the
      out-degree grows by the number of batch rows with source `v`. */
  lemma IngestAppendOnly(adj: seq<seq<Edge>>, base: nat, batch: seq<Arrival>, v: nat)
    ensures var after := IngestAt(adj, base, batch, v);
      |after| == |VertexEdges(adj, v)| + |GroupOf(batch, v)| &&
      after[|GroupOf(batch, v)|..] == VertexEdges(adj, v) &&
      multiset(Contents(after[..|GroupOf(batch, v)|])) == multiset(GroupOf(batch, v))
  {
    var g := GroupOf(batch, v);
    var b := base + CountBelow(batch, v);
    var inc := Incoming(g, b);
    if g != [] { IncomingAt(g, b, 0); }
    IncomingContents(g, b);
    SplitAt(inc, VertexEdges(adj, v));
    var after := IngestAt(adj, base, batch, v);
    assert after == inc + VertexEdges(adj, v) && |inc| == |g|;
    assert after[..|g|] == inc;
  }

  lemma SplitAt(a: seq<Edge>, b: seq<Edge>)
    ensures (a + b)[..|a|] == a && (a + b)[|a|..] == b
  {
  }

  /** Vertex-major, time-minor numbering: the new ids of vertex `v` are the
      block base + CountBelow(v) .. base + CountBelow(v + 1) - 1 (so every new
      id of a smaller vertex is smaller), and within the block a later
      timestamp has the larger id. */
  lemma IngestIdBlock(adj: seq<seq<Edge>>, base: nat, batch: seq<Arrival>, v: nat)
    ensures var after := IngestAt(adj, base, batch, v);
      var k := |GroupOf(batch, v)|;
      (forall i :: 0 <= i < k ==>
        base + CountBelow(batch, v) <= after[i].id < base + CountBelow(batch, v + 1)) &&
      (forall i, j :: 0 <= i < k && 0 <= j < k && after[i].ts < after[j].ts ==> after[i].id < after[j].id)
  {
    var g := GroupOf(batch, v);
    var b := base + CountBelow(batch, v);
    var inc := Incoming(g, b);
    CountBelowStep(batch, v);
    var after := IngestAt(adj, base, batch, v);
    assert after == inc + VertexEdges(adj, v);
    forall i | 0 <= i < |g| ensures b <= after[i].id < b + |g| {
      IncomingAt(g, b, i);
      assert after[i] == inc[i];
    }
    IncomingNewestFirst(g, b);
    NewestFirstPairs(inc);
    forall i, j | 0 <= i < |g| && 0 <= j < |g| && after[i].ts < after[j].ts
      ensures after[i].id < after[j].id
    {
      IncomingAt(g, b, i);
      assert after[i] == inc[i] && after[j] == inc[j];
      assert j < i;
    }
  }

  /** Ids of distinct vertices never interleave: each new id of a smaller
      vertex is below each new id of a larger one. */
  lemma IngestVertexMajor(adj: seq<seq<Edge>>, base: nat, batch: seq<Arrival>, u: nat, v: nat, i: nat, j: nat)
    requires u < v
    requires i < |GroupOf(batch, u)| && j < |GroupOf(batch, v)|
    ensures IngestAt(adj, base, batch, u)[i].id < IngestAt(adj, base, batch, v)[j].id
  {
    IngestIdBlock(adj, base, batch, u);
    IngestIdBlock(adj, base, batch, v);
    CountBelowMonotone(batch, u + 1, v);
  }

  // ---------------------------------------------------------------------
  // The store invariant.

  function TotalDegree(adj: seq<seq<Edge>>): nat
  {
    if adj == [] then 0 else |adj[0]| + TotalDegree(adj[1..])
  }

  /** How many edges of a list carry id `k`. */
  function OccursIn(es: seq<Edge>, k: nat): nat
  {
    if es == [] then 0 else (if es[0].id == k then 1 else 0) + OccursIn(es[1..], k)
  }

  /** How many edges of the whole store carry id `k`. */
  function Occurrences(adj: seq<seq<Edge>>, k: nat): nat
  {
    if adj == [] then 0 else OccursIn(adj[0], k) + Occurrences(adj[1..], k)
  }

  /** Each vertex list is newest first, its ids are below the counter and its
      targets below the vertex count, the counter is the number of stored
      edges, and every id below the counter is carried by exactly one edge:
      the ids of the store are 0 .. n - 1, each once, and none is reused. */
  ghost predicate StoreInvariant(adj: seq<seq<Edge>>, n: nat, nv: nat)
  {
    && |adj| == nv
    && AllNewestFirst(adj)
    && AllBounded(adj, n, nv)
    && IdsOnce(adj, n)
  }

  /** The store holds n edges and every id below n is carried by exactly one. */
  ghost predicate IdsOnce(adj: seq<seq<Edge>>, n: nat)
  {
    TotalDegree(adj) == n && forall k :: 0 <= k < n ==> Occurrences(adj, k) == 1
  }

  /** Every vertex list is newest first (one vertex at a time, so that the
      per-list orders are only looked at where a proof asks for them). */
  ghost predicate AllNewestFirst(adj: seq<seq<Edge>>)
  {
    adj == [] || (NewestFirst(adj[0]) && AllNewestFirst(adj[1..]))
  }

  lemma {:induction false} AllNewestFirstAt(adj: seq<seq<Edge>>, v: nat)
    requires AllNewestFirst(adj) && v < |adj|
    ensures NewestFirst(adj[v])
  {
    if v > 0 {
      AllNewestFirstAt(adj[1..], v - 1);
    }
  }

  lemma {:induction false} AllNewestFirstFrom(adj: seq<seq<Edge>>)
    requires forall v :: 0 <= v < |adj| ==> NewestFirst(adj[v])
    ensures AllNewestFirst(adj)
  {
    if adj != [] {
      assert NewestFirst(adj[0]);
      forall v | 0 <= v < |adj[1..]| ensures NewestFirst(adj[1..][v]) {
        assert adj[1..][v] == adj[v + 1];
      }
      AllNewestFirstFrom(adj[1..]);
    }
  }

  /** Every edge of a list has an id below `n` and a target below `nv`. */
  predicate Bounded(es: seq<Edge>, n: nat, nv: nat)
  {
    forall i :: 0 <= i < |es| ==> es[i].id < n && es[i].target < nv
  }

  ghost predicate AllBounded(adj: seq<seq<Edge>>, n: nat, nv: nat)
  {
    adj == [] || (Bounded(adj[0], n, nv) && AllBounded(adj[1..], n, nv))
  }

  lemma {:induction false} AllBoundedAt(adj: seq<seq<Edge>>, n: nat, nv: nat, v: nat)
    requires AllBounded(adj, n, nv) && v < |adj|
    ensures Bounded(adj[v], n, nv)
  {
    if v > 0 {
      AllBoundedAt(adj[1..], n, nv, v - 1);
    }
  }

  lemma {:induction false} AllBoundedFrom(adj: seq<seq<Edge>>, n: nat, nv: nat)
    requires forall v :: 0 <= v < |adj| ==> Bounded(adj[v], n, nv)
    ensures AllBounded(adj, n, nv)
  {
    if adj != [] {
      assert Bounded(adj[0], n, nv);
      forall v | 0 <= v < |adj[1..]| ensures Bounded(adj[1..][v], n, nv) {
        assert adj[1..][v] == adj[v + 1];
      }
      AllBoundedFrom(adj[1..], n, nv);
    }
  }

  lemma {:induction false} OccursInAppend(a: seq<Edge>, b: seq<Edge>, k: nat)
    ensures OccursIn(a + b, k) == OccursIn(a, k) + OccursIn(b, k)
  {
    if a == [] {
      assert a + b == b;
    } else {
      assert (a + b)[0] == a[0] && (a + b)[1..] == a[1..] + b;
      OccursInAppend(a[1..], b, k);
    }
  }

  /** No edge of a list bounded by `n` carries an id at or above `n`. */
  lemma {:induction false} OccursInAbove(es: seq<Edge>, n: nat, nv: nat, k: nat)
    requires Bounded(es, n, nv) && n <= k
    ensures OccursIn(es, k) == 0
  {
    if es != [] {
      assert Bounded(es[1..], n, nv) by {
        forall i | 0 <= i < |es[1..]| ensures es[1..][i].id < n && es[1..][i].target < nv {
          assert es[1..][i] == es[i + 1];
        }
      }
      OccursInAbove(es[1..], n, nv, k);
    }
  }

  lemma {:induction false} OccurrencesAbove(adj: seq<seq<Edge>>, n: nat, nv: nat, k: nat)
    requires AllBounded(adj, n, nv) && n <= k
    ensures Occurrences(adj, k) == 0
  {
    if adj != [] {
      OccursInAbove(adj[0], n, nv, k);
      OccurrencesAbove(adj[1..], n, nv, k);
    }
  }

  /** A list whose ids count down from base + |es| - 1 to base carries each
      of those ids once and no other. */
  lemma {:induction false} OccursInCountdown(es: seq<Edge>, base: nat, k: nat)
    requires forall i :: 0 <= i < |es| ==> es[i].id == base + |es| - 1 - i
    ensures OccursIn(es, k) == if base <= k < base + |es| then 1 else 0
  {
    if es != [] {
      forall i | 0 <= i < |es[1..]| ensures es[1..][i].id == base + |es[1..]| - 1 - i {
        assert es[1..][i] == es[i + 1];
      }
      OccursInCountdown(es[1..], base, k);
    }
  }

  lemma {:induction false} StoreUpdateCounts(adj: seq<seq<Edge>>, v: nat, x: seq<Edge>, k: nat)
    requires v < |adj|
    ensures Occurrences(adj[v := x + adj[v]], k) == Occurrences(adj, k) + OccursIn(x, k)
    ensures TotalDegree(adj[v := x + adj[v]]) == TotalDegree(adj) + |x|
  {
    var adj' := adj[v := x + adj[v]];
    if v == 0 {
      assert adj'[1..] == adj[1..];
      OccursInAppend(x, adj[0], k);
    } else {
      assert adj'[1..] == adj[1..][v - 1 := x + adj[1..][v - 1]];
      StoreUpdateCounts(adj[1..], v - 1, x, k);
    }
  }

  lemma {:induction false} StoreEmptiesCounts(adj: seq<seq<Edge>>, e: seq<seq<Edge>>, k: nat)
    requires forall u :: 0 <= u < |e| ==> e[u] == []
    ensures Occurrences(adj + e, k) == Occurrences(adj, k)
    ensures TotalDegree(adj + e) == TotalDegree(adj)
  {
    if adj == [] {
      assert adj + e == e;
      if e != [] {
        StoreEmptiesCounts([], e[1..], k);
        assert [] + e[1..] == e[1..];
      }
    } else {
      assert (adj + e)[1..] == adj[1..] + e;
      StoreEmptiesCounts(adj[1..], e, k);
    }
  }

  lemma StoreEmpty()
    ensures StoreInvariant([], 0, 0)
  {
  }

  /** Making room for more vertices (with no edges) keeps the invariant. */
  lemma StoreGrow(adj: seq<seq<Edge>>, n: nat, k: nat)
    requires StoreInvariant(adj, n, |adj|)
    ensures StoreInvariant(adj + seq(k, _ => []), n, |adj| + k)
  {
    var e: seq<seq<Edge>> := seq(k, _ => []);
    var adj' := adj + e;
    forall j | 0 <= j < n ensures Occurrences(adj', j) == 1 {
      StoreEmptiesCounts(adj, e, j);
    }
    StoreEmptiesCounts(adj, e, 0);
    forall v | 0 <= v < |adj'| ensures NewestFirst(adj'[v]) && Bounded(adj'[v], n, |adj| + k) {
      if v < |adj| {
        AllNewestFirstAt(adj, v);
        AllBoundedAt(adj, n, |adj|, v);
        assert adj'[v] == adj[v];
      } else {
        assert adj'[v] == [];
      }
    }
    AllNewestFirstFrom(adj');
    AllBoundedFrom(adj', n, |adj| + k);
  }

  lemma {:induction false} NewestFirstConcat(a: seq<Edge>, b: seq<Edge>)
    requires NewestFirst(a) && NewestFirst(b)
    requires forall i, j :: 0 <= i < |a| && 0 <= j < |b| ==> b[j].ts <= a[i].ts && b[j].id < a[i].id
    ensures NewestFirst(a + b)
  {
    if a == [] {
      assert a + b == b;
    } else {
      var c := a + b;
      assert c[1..] == a[1..] + b;
      forall i, j | 0 <= i < |a[1..]| && 0 <= j < |b| ensures b[j].ts <= a[1..][i].ts && b[j].id < a[1..][i].id {
        assert a[1..][i] == a[i + 1];
      }
      NewestFirstConcat(a[1..], b);
      forall k | 1 <= k < |c| ensures c[k].ts <= c[0].ts && c[k].id < c[0].id {
        if k < |a| { assert c[k] == a[k]; } else { assert c[k] == b[k - |a|]; }
      }
    }
  }

  /** Every new edge stems from a row of its group. */
  lemma IncomingFromGroup(ps: seq<Pending>, base: nat, i: nat)
    requires i < |Incoming(ps, base)|
    ensures Pending(Incoming(ps, base)[i].target, Incoming(ps, base)[i].ts) in ps
    ensures base <= Incoming(ps, base)[i].id < base + |ps|
  {
    var inc := Incoming(ps, base);
    IncomingAt(ps, base, i);
    IncomingContents(ps, base);
    assert Contents(inc)[i] == Pending(inc[i].target, inc[i].ts);
    assert Contents(inc)[i] in multiset(Contents(inc));
  }

  /** A vertex's list after its group is put in front. */
  lemma PrependedList(old_: seq<Edge>, n: nat, nv: nat, ps: seq<Pending>, policy: InsertionPolicy)
    requires NewestFirst(old_)
    requires Bounded(old_, n, nv)
    requires forall p :: p in ps ==> p.target < nv && Admissible(old_, policy, p.ts)
    ensures var l := Incoming(ps, n) + old_;
      NewestFirst(l) && Bounded(l, n + |ps|, nv)
  {
    var inc := Incoming(ps, n);
    assert |inc| == |ps| by { if ps != [] { IncomingAt(ps, n, 0); } }
    forall i, j | 0 <= i < |inc| && 0 <= j < |old_|
      ensures old_[j].ts <= inc[i].ts && old_[j].id < inc[i].id
    {
      IncomingFromGroup(ps, n, i);
      assert old_[j].ts <= old_[0].ts by {
        if j > 0 { assert NewestFirst(old_); }
      }
    }
    IncomingNewestFirst(ps, n);
    NewestFirstConcat(inc, old_);
    var l := inc + old_;
    forall i | 0 <= i < |l| ensures l[i].id < n + |ps| && l[i].target < nv {
      if i < |inc| {
        IncomingFromGroup(ps, n, i);
      } else {
        assert l[i] == old_[i - |inc|];
      }
    }
  }

  /** Putting an admissible group in front of one vertex's list, numbered from
      the counter, keeps the invariant with the counter advanced. */
  lemma StorePrepend(adj: seq<seq<Edge>>, n: nat, v: nat, ps: seq<Pending>, policy: InsertionPolicy)
    requires StoreInvariant(adj, n, |adj|)
    requires v < |adj|
    requires forall p :: p in ps ==> p.target < |adj| && Admissible(adj[v], policy, p.ts)
    ensures StoreInvariant(adj[v := Incoming(ps, n) + adj[v]], n + |ps|, |adj|)
  {
    AllNewestFirstAt(adj, v);
    AllBoundedAt(adj, n, |adj|, v);
    PrependedList(adj[v], n, |adj|, ps, policy);
    StoreIdsPrepend(adj, n, v, ps);
    StoreReplace(adj, n, n + |ps|, v, Incoming(ps, n) + adj[v]);
  }

  /** Replacing one vertex list by a newest-first list within the bounds,
      when the result carries each id below n' exactly once in n' edges,
      keeps the invariant. */
  lemma StoreReplace(adj: seq<seq<Edge>>, n: nat, n': nat, v: nat, l: seq<Edge>)
    requires StoreInvariant(adj, n, |adj|)
    requires v < |adj| && n <= n'
    requires NewestFirst(l)
    requires Bounded(l, n', |adj|)
    requires IdsOnce(adj[v := l], n')
    ensures StoreInvariant(adj[v := l], n', |adj|)
  {
    var adj' := adj[v := l];
    forall u | 0 <= u < |adj'| ensures NewestFirst(adj'[u]) && Bounded(adj'[u], n', |adj|) {
      if u != v {
        AllNewestFirstAt(adj, u);
        AllBoundedAt(adj, n, |adj|, u);
        assert adj'[u] == adj[u];
      }
    }
    AllNewestFirstFrom(adj');
    AllBoundedFrom(adj', n', |adj|);
  }

  /** The group's ids are the next |ps| values of the counter, so the store
      carries each id below n + |ps| exactly once, in n + |ps| edges. */
  lemma StoreIdsPrepend(adj: seq<seq<Edge>>, n: nat, v: nat, ps: seq<Pending>)
    requires StoreInvariant(adj, n, |adj|)
    requires v < |adj|
    ensures IdsOnce(adj[v := Incoming(ps, n) + adj[v]], n + |ps|)
  {
    var x := Incoming(ps, n);
    var adj' := adj[v := x + adj[v]];
    IncomingShape(ps, n);
    StoreUpdateCounts(adj, v, x, 0);
    forall k | 0 <= k < n + |ps| ensures Occurrences(adj', k) == 1 {
      StoreUpdateCounts(adj, v, x, k);
      OccursInCountdown(x, n, k);
      if n <= k {
        OccurrencesAbove(adj, n, |adj|, k);
      }
    }
  }

  /** In an admitted batch every row of a group is admissible for its
      vertex, and no target exceeds the batch's largest vertex. */
  lemma GroupRows(adj: seq<seq<Edge>>, policy: InsertionPolicy, batch: seq<Arrival>, v: nat)
    requires AdmitsBatch(adj, policy, batch)
    ensures var g := GroupOf(batch, v);
      && AdmitsAllTimes(VertexEdges(adj, v), policy, TimesOf(g))
      && MaxOf(TargetsOf(g)) <= MaxVertex(batch)
  {
    var g := GroupOf(batch, v);
    forall k | 0 <= k < |g| ensures Admissible(VertexEdges(adj, v), policy, g[k].ts) && g[k].target <= MaxVertex(batch) {
      assert g[k] in g;
      var b :| 0 <= b < |batch| && batch[b].src == v && g[k] == Pending(batch[b].dst, batch[b].ts);
    }
    if g != [] {
      var k :| 0 <= k < |TargetsOf(g)| && TargetsOf(g)[k] == MaxOf(TargetsOf(g));
    }
  }
}
