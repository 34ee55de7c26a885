/** Edges of one vertex, the newest-first order they are kept in, and the
    time-range query over them (a flat filter and the block-wise scan). */
module Timeline {

  /** One stored out-edge of a vertex: its target, its timestamp and the
      global edge id assigned at ingestion. */
  datatype Edge = Edge(target: nat, ts: real, id: nat)

  /** One end of a time-range query; Unbounded is -inf as a start and +inf as an end. */
  datatype Bound = Unbounded | At(t: real)

  predicate NotBefore(lo: Bound, t: real) { lo.Unbounded? || lo.t <= t }

  predicate NotAfter(hi: Bound, t: real) { hi.Unbounded? || t <= hi.t }

  /** Both ends of the range are inclusive. */
  predicate InRange(lo: Bound, hi: Bound, t: real) { NotBefore(lo, t) && NotAfter(hi, t) }

  /** Newest first: the head is at least as recent as every later entry and
      has a larger id than each of them, and so on down the list. */
  predicate NewestFirst(es: seq<Edge>) {
    es == [] ||
    ((forall k :: 1 <= k < |es| ==> es[k].ts <= es[0].ts && es[k].id < es[0].id) && NewestFirst(es[1..]))
  }

  /** Newest first, read pairwise: timestamps never increase along the list
      and ids strictly decrease. */
  lemma {:induction false} NewestFirstPairs(es: seq<Edge>)
    requires NewestFirst(es)
    ensures forall i, j :: 0 <= i < j < |es| ==> es[j].ts <= es[i].ts && es[j].id < es[i].id
  {
    if es != [] {
      NewestFirstPairs(es[1..]);
      forall i, j | 0 <= i < j < |es| ensures es[j].ts <= es[i].ts && es[j].id < es[i].id {
        if i > 0 { assert es[i] == es[1..][i - 1] && es[j] == es[1..][j - 1]; }
      }
    }
  }

  lemma {:induction false} PairsNewestFirst(es: seq<Edge>)
    requires forall i, j :: 0 <= i < j < |es| ==> es[j].ts <= es[i].ts && es[j].id < es[i].id
    ensures NewestFirst(es)
  {
    if es != [] {
      var tail := es[1..];
      forall i, j | 0 <= i < j < |tail| ensures tail[j].ts <= tail[i].ts && tail[j].id < tail[i].id {
        assert tail[i] == es[i + 1] && tail[j] == es[j + 1];
      }
      PairsNewestFirst(tail);
    }
  }

  function Reverse<T>(s: seq<T>): (r: seq<T>)
    ensures |r| == |s|
    ensures forall k :: 0 <= k < |s| ==> r[k] == s[|s| - 1 - k]
  {
    if s == [] then [] else Reverse(s[1..]) + [s[0]]
  }

  lemma ReverseAppend<T>(a: seq<T>, b: seq<T>)
    ensures Reverse(a + b) == Reverse(b) + Reverse(a)
  {
    assert |Reverse(a + b)| == |Reverse(b) + Reverse(a)|;
    forall k | 0 <= k < |a| + |b|
      ensures Reverse(a + b)[k] == (Reverse(b) + Reverse(a))[k]
    {
      if k < |b| {
        assert Reverse(a + b)[k] == (a + b)[|a| + |b| - 1 - k];
      }
    }
  }

  lemma ReverseMultiset<T>(s: seq<T>)
    ensures multiset(Reverse(s)) == multiset(s)
  {
    if s != [] {
      ReverseMultiset(s[1..]);
      assert s == [s[0]] + s[1..];
    }
  }

  /** A chain of blocks, head block first, read as one list. */
  function Flatten(chain: seq<seq<Edge>>): seq<Edge>
  {
    if chain == [] then [] else chain[0] + Flatten(chain[1..])
  }

  lemma FlattenCons(b: seq<Edge>, chain: seq<seq<Edge>>)
    ensures Flatten([b] + chain) == b + Flatten(chain)
  {
    assert ([b] + chain)[1..] == chain;
  }

  /** The edges of `es` whose timestamp lies in [lo, hi], in their stored order. */
  function InWindow(es: seq<Edge>, lo: Bound, hi: Bound): (r: seq<Edge>)
    ensures |r| <= |es|
  {
    if es == [] then []
    else (if InRange(lo, hi, es[0].ts) then [es[0]] else []) + InWindow(es[1..], lo, hi)
  }

  /** The filter keeps exactly the stored edges whose time is in range. */
  lemma {:induction false} InWindowMembers(es: seq<Edge>, lo: Bound, hi: Bound)
    ensures forall e :: e in InWindow(es, lo, hi) <==> e in es && InRange(lo, hi, e.ts)
  {
    if es != [] {
      InWindowMembers(es[1..], lo, hi);
      assert forall e :: e in es <==> e == es[0] || e in es[1..];
    }
  }

  /** Filtering keeps the newest-first order. */
  lemma {:induction false} InWindowNewestFirst(es: seq<Edge>, lo: Bound, hi: Bound)
    requires NewestFirst(es)
    ensures NewestFirst(InWindow(es, lo, hi))
  {
    if es != [] {
      InWindowNewestFirst(es[1..], lo, hi);
      var rest := InWindow(es[1..], lo, hi);
      InWindowMembers(es[1..], lo, hi);
      if InRange(lo, hi, es[0].ts) {
        forall e | e in rest ensures e.ts <= es[0].ts && e.id < es[0].id {
          var j :| 0 <= j < |es[1..]| && es[1..][j] == e;
          assert es[j + 1] == e;
        }
        NewestFirstCons(es[0], rest);
      } else {
        assert InWindow(es, lo, hi) == rest;
      }
    }
  }

  lemma NewestFirstCons(e: Edge, rest: seq<Edge>)
    requires NewestFirst(rest)
    requires forall x :: x in rest ==> x.ts <= e.ts && x.id < e.id
    ensures NewestFirst([e] + rest)
  {
    var r := [e] + rest;
    assert r[1..] == rest;
    forall k | 1 <= k < |r| ensures r[k].ts <= e.ts && r[k].id < e.id {
      assert r[k] == rest[k - 1] && rest[k - 1] in rest;
    }
  }

  lemma {:induction false} InWindowAppend(a: seq<Edge>, b: seq<Edge>, lo: Bound, hi: Bound)
    ensures InWindow(a + b, lo, hi) == InWindow(a, lo, hi) + InWindow(b, lo, hi)
  {
    if a == [] {
      assert a + b == b;
    } else {
      var rest := a[1..] + b;
      assert a + b == [a[0]] + rest;
      InWindowCons(a[0], rest, lo, hi);
      assert a == [a[0]] + a[1..];
      InWindowCons(a[0], a[1..], lo, hi);
      InWindowAppend(a[1..], b, lo, hi);
      ConcatAssoc(if InRange(lo, hi, a[0].ts) then [a[0]] else [], InWindow(a[1..], lo, hi), InWindow(b, lo, hi));
    }
  }

  lemma ConcatAssoc<T>(x: seq<T>, y: seq<T>, z: seq<T>)
    ensures x + (y + z) == (x + y) + z
  {
  }

  lemma InWindowCons(e: Edge, es: seq<Edge>, lo: Bound, hi: Bound)
    ensures InWindow([e] + es, lo, hi) == (if InRange(lo, hi, e.ts) then [e] else []) + InWindow(es, lo, hi)
  {
    assert ([e] + es)[1..] == es;
  }

  lemma {:induction false} NewestFirstSuffix(a: seq<Edge>, b: seq<Edge>)
    requires NewestFirst(a + b)
    ensures NewestFirst(a) && NewestFirst(b)
  {
    if a == [] {
      assert a + b == b;
    } else {
      assert (a + b)[1..] == a[1..] + b;
      NewestFirstSuffix(a[1..], b);
      forall k | 1 <= k < |a| ensures a[k].ts <= a[0].ts && a[k].id < a[0].id {
        assert a[k] == (a + b)[k] && a[0] == (a + b)[0];
      }
    }
  }

  /** In a newest-first list whose head is older than `lo`, nothing is in range. */
  lemma {:induction false} NothingAfterStart(es: seq<Edge>, lo: Bound, hi: Bound)
    requires NewestFirst(es) && es != [] && !NotBefore(lo, es[0].ts)
    ensures InWindow(es, lo, hi) == []
  {
    if |es| > 1 {
      assert es[1..][0] == es[1];
      NothingAfterStart(es[1..], lo, hi);
    }
  }

  /** The block-wise scan of a vertex's chain: blocks are visited head first,
      and the scan stops at the first block whose newest entry is already
      older than the start of the range. */
  function ScanChain(chain: seq<seq<Edge>>, lo: Bound, hi: Bound): seq<Edge>
  {
    if chain == [] then []
    else if chain[0] != [] && !NotBefore(lo, chain[0][0].ts) then []
    else InWindow(chain[0], lo, hi) + ScanChain(chain[1..], lo, hi)
  }

  /** Early termination is sound: on a newest-first chain the scan returns
      exactly the in-range edges of the flattened chain. */
  lemma {:induction false} ScanChainIsFilter(chain: seq<seq<Edge>>, lo: Bound, hi: Bound)
    requires NewestFirst(Flatten(chain))
    ensures ScanChain(chain, lo, hi) == InWindow(Flatten(chain), lo, hi)
  {
    if chain != [] {
      NewestFirstSuffix(chain[0], Flatten(chain[1..]));
      if chain[0] != [] && !NotBefore(lo, chain[0][0].ts) {
        assert Flatten(chain)[0] == chain[0][0];
        NothingAfterStart(Flatten(chain), lo, hi);
      } else {
        ScanChainIsFilter(chain[1..], lo, hi);
        InWindowAppend(chain[0], Flatten(chain[1..]), lo, hi);
      }
    }
  }

  /** An unbounded query returns every stored edge. */
  lemma {:induction false} InWindowUnbounded(es: seq<Edge>)
    ensures InWindow(es, Unbounded, Unbounded) == es
  {
    if es != [] {
      InWindowUnbounded(es[1..]);
    }
  }

  /** An end bound below every stored timestamp selects nothing; one at or
      above every stored timestamp (with no start bound) selects everything. */
  lemma {:induction false} InWindowEndBound(es: seq<Edge>, hi: real)
    ensures (forall e :: e in es ==> hi < e.ts) ==> InWindow(es, Unbounded, At(hi)) == []
    ensures (forall e :: e in es ==> e.ts <= hi) ==> InWindow(es, Unbounded, At(hi)) == es
  {
    if es != [] {
      assert forall e :: e in es[1..] ==> e in es;
      InWindowEndBound(es[1..], hi);
    }
  }
}
