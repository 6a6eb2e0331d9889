/**
 The breadth-first closure computed while some nodes are already marked, as they are
 after a call that ran out of memory: what the list then holds, exactly when it is
 still complete, and a graph for which it is not.
 */
module StaleMarks {
  import opened DepGraph

  /** The list once entry `i` is processed, when the nodes of `stale` count as listed. */
  function StaleGrown<T(==)>(g: Graph<T>, q: seq<T>, i: nat, stale: set<T>): (r: seq<T>)
    requires i < |q| && q[i] in g
  {
    q + Fresh(g[q[i]], stale + Elems(q))
  }

  lemma StaleProgress<T>(g: Graph<T>, q: seq<T>, i: nat, stale: set<T>)
    requires i < |q| && Closed(g) && Elems(q) <= g.Keys
    ensures var r := StaleGrown(g, q, i, stale);
            && q <= r && Elems(r) <= g.Keys && stale + Elems(r) == stale + Elems(q) + Elems(g[q[i]])
            && (r == q || g.Keys - Elems(r) < g.Keys - Elems(q))
  {
    var f := Fresh(g[q[i]], stale + Elems(q));
    var r := StaleGrown(g, q, i, stale);
    FreshFacts(g[q[i]], stale + Elems(q));
    assert Elems(r) == Elems(q) + Elems(f);
    if f != [] {
      assert f[0] in g.Keys - Elems(q) && f[0] !in g.Keys - Elems(r);
    }
  }

  /** Process entry `i` and those after it. */
  function StaleBfs<T(==)>(g: Graph<T>, q: seq<T>, i: nat, stale: set<T>): (r: seq<T>)
    requires i <= |q| && Closed(g) && Elems(q) <= g.Keys
    decreases g.Keys - Elems(q), |q| - i
  {
    if i == |q| then q
    else
      StaleProgress(g, q, i, stale);
      StaleBfs(g, StaleGrown(g, q, i, stale), i + 1, stale)
  }

  /** The list after `k` entries have been processed, fewer if there are fewer. */
  function StaleSteps<T(==)>(g: Graph<T>, q: seq<T>, stale: set<T>, k: nat): (r: seq<T>)
    requires Closed(g) && Elems(q) <= g.Keys
    ensures q <= r && Elems(r) <= g.Keys
  {
    if k == 0 then q
    else
      var r := StaleSteps(g, q, stale, k - 1);
      if k - 1 < |r| then
        StaleProgress(g, r, k - 1, stale);
        StaleGrown(g, r, k - 1, stale)
      else r
  }

  lemma {:induction false} FreshIn<T>(ds: seq<T>, seen: set<T>, v: T)
    requires v in Fresh(ds, seen)
    ensures v in ds && v !in seen
  {
    if ds[0] in seen {
      FreshIn(ds[1..], seen, v);
    } else if v != ds[0] {
      FreshIn(ds[1..], seen + {ds[0]}, v);
    }
  }

  /** What is added to reachable nodes can be reached. */
  lemma GrownReachable<T>(g: Graph<T>, u: T, q: seq<T>, i: nat, stale: set<T>)
    requires Closed(g) && Elems(q) <= g.Keys && i < |q| && forall v :: v in q ==> ReachablePlus(g, u, v)
    ensures q[i] in g && forall v :: v in StaleGrown(g, q, i, stale) ==> ReachablePlus(g, u, v)
  {
    assert q[i] in Elems(q);
    var ds, seen := g[q[i]], stale + Elems(q);
    assert StaleGrown(g, q, i, stale) == q + Fresh(ds, seen);
    forall v | v in StaleGrown(g, q, i, stale)
      ensures ReachablePlus(g, u, v)
    {
      if v !in q {
        FreshIn(ds, seen, v);
        PlusIsReachable(g, u, q[i]);
        ReachStep(g, u, q[i], v);
      }
    }
  }

  /** A stale node is never added. */
  lemma {:induction false} StaleNotAdded<T>(g: Graph<T>, q: seq<T>, stale: set<T>, k: nat, v: T)
    requires Closed(g) && Elems(q) <= g.Keys && v in stale && v !in q
    ensures v !in StaleSteps(g, q, stale, k)
  {
    if k > 0 {
      StaleNotAdded(g, q, stale, k - 1, v);
      var r := StaleSteps(g, q, stale, k - 1);
      if k - 1 < |r| {
        assert r[k - 1] in Elems(r);
        FreshFacts(g[r[k - 1]], stale + Elems(r));
      }
    }
  }

  /** The loop comes to the end of its list. */
  lemma {:induction false} StaleBfsIsSteps<T>(g: Graph<T>, q0: seq<T>, k: nat, stale: set<T>) returns (n: nat)
    requires Closed(g) && Elems(q0) <= g.Keys && k <= |StaleSteps(g, q0, stale, k)|
    ensures StaleBfs(g, StaleSteps(g, q0, stale, k), k, stale) == StaleSteps(g, q0, stale, n)
    decreases g.Keys - Elems(StaleSteps(g, q0, stale, k)), |StaleSteps(g, q0, stale, k)| - k
  {
    var q := StaleSteps(g, q0, stale, k);
    if k == |q| {
      n := k;
    } else {
      StaleProgress(g, q, k, stale);
      n := StaleBfsIsSteps(g, q0, k + 1, stale);
    }
  }

  /** Sets that agree on the entries of `ds` leave the same of them fresh. */
  lemma {:induction false} FreshSame<T>(ds: seq<T>, a: set<T>, b: set<T>)
    requires forall x :: x in ds ==> (x in a <==> x in b)
    ensures Fresh(ds, a) == Fresh(ds, b)
  {
    if ds != [] {
      assert ds[0] in ds && forall x :: x in ds[1..] ==> x in ds;
      if ds[0] in a {
        FreshSame(ds[1..], a, b);
      } else {
        FreshSame(ds[1..], a + {ds[0]}, b + {ds[0]});
      }
    }
  }

  /** No node that can be reached and is not listed is stale. */
  ghost predicate Harmless<T>(g: Graph<T>, u: T, q: seq<T>, stale: set<T>) {
    forall v :: v in stale && v in g && ReachablePlus(g, u, v) ==> v in q
  }

  lemma {:induction false} StaleSame<T>(g: Graph<T>, u: T, q: seq<T>, i: nat, stale: set<T>)
    requires Closed(g) && Elems(q) <= g.Keys && i <= |q| && Harmless(g, u, q, stale)
    requires forall v :: v in q ==> ReachablePlus(g, u, v)
    ensures StaleBfs(g, q, i, stale) == Bfs(g, q, i)
    decreases g.Keys - Elems(q), |q| - i
  {
    if i < |q| {
      StaleProgress(g, q, i, stale);
      BfsProgress(g, q, i);
      assert q[i] in Elems(q);
      forall v | v in g[q[i]]
        ensures ReachablePlus(g, u, v) && v in g
      {
        PlusIsReachable(g, u, q[i]);
        ReachStep(g, u, q[i], v);
      }
      FreshSame(g[q[i]], stale + Elems(q), Elems(q));
      FreshFacts(g[q[i]], Elems(q));
      StaleSame(g, u, Grown(g, q, i), i + 1, stale);
    }
  }

  /** The list is complete if and only if every stale node that can be reached is a direct dependency. */
  lemma StaleListsIff<T>(g: Graph<T>, u: T, stale: set<T>)
    requires Closed(g) && u in g
    ensures Elems(g[u]) <= g.Keys
    ensures ListsDependencies(g, u, StaleBfs(g, g[u], 0, stale)) <==> Harmless(g, u, g[u], stale)
  {
    hide ListsDependencies, StaleBfs, Bfs;
    if Harmless(g, u, g[u], stale) {
      forall v | v in g[u]
        ensures ReachablePlus(g, u, v)
      {
        ReachSelf(g, u);
        ReachStep(g, u, u, v);
      }
      StaleSame(g, u, g[u], 0, stale);
      BfsListsDependencies(g, u);
    } else {
      var v :| v in stale && v in g && ReachablePlus(g, u, v) && v !in g[u];
      var n := StaleBfsIsSteps(g, g[u], 0, stale);
      StaleNotAdded(g, g[u], stale, n, v);
      NotListed(g, u, StaleBfs(g, g[u], 0, stale), v);
    }
  }

  lemma NotListed<T>(g: Graph<T>, u: T, q: seq<T>, v: T)
    requires u in g && v in g && ReachablePlus(g, u, v) && v !in q
    ensures !ListsDependencies(g, u, q)
  {
  }

  // ---- more nodes -------------------------------------------------------------------------------

  lemma {:induction false} AfterInLarger<T>(g: Graph<T>, h: Graph<T>, u: T, n: nat)
    requires Closed(g) && u in g && forall x :: x in g ==> x in h && h[x] == g[x]
    ensures After(h, u, n) == After(g, u, n) && After(g, u, n) <= g.Keys
  {
    if n > 0 {
      AfterInLarger(g, h, u, n - 1);
    }
  }

  lemma PlusInLarger<T>(g: Graph<T>, h: Graph<T>, u: T, v: T)
    requires Closed(g) && u in g && forall x :: x in g ==> x in h && h[x] == g[x]
    ensures ReachablePlus(h, u, v) <==> ReachablePlus(g, u, v)
    ensures ReachablePlus(g, u, v) ==> v in g
  {
    if ReachablePlus(h, u, v) {
      var n: nat :| n > 0 && v in After(h, u, n);
      AfterInLarger(g, h, u, n);
    }
    if ReachablePlus(g, u, v) {
      var n: nat :| n > 0 && v in After(g, u, n);
      AfterInLarger(g, h, u, n);
    }
  }

  /** A list of dependencies stays one when nodes are added that no old node leads to. */
  lemma ListsInLarger<T>(g: Graph<T>, h: Graph<T>, u: T, q: seq<T>)
    requires Closed(g) && u in g && forall x :: x in g ==> x in h && h[x] == g[x]
    requires ListsDependencies(g, u, q)
    ensures ListsDependencies(h, u, q)
  {
    hide ReachablePlus;
    forall v | v in q
      ensures ReachablePlus(h, u, v)
    {
      PlusInLarger(g, h, u, v);
    }
    forall v | v in h && ReachablePlus(h, u, v)
      ensures v in q
    {
      PlusInLarger(g, h, u, v);
    }
    assert forall k :: 0 <= k < |q| ==> q[k] in Elems(q);
    forall j, j', k' | |g[u]| <= j < j' < |q| && 0 <= k' < |q| && Leads(h, q, k', j')
      ensures LedToBy(h, q, j, k')
    {
      assert Leads(g, q, k', j') && LedToBy(g, q, j, k');
      var k :| 0 <= k <= k' && k < j && Leads(g, q, k, j);
      assert Leads(h, q, k, j);
    }
  }

  // ---- what the list is, marks or not ---------------------------------------------------------------

  lemma {:induction false} FreshKeep<T>(ds: seq<T>, blocked: set<T>, seen: set<T>)
    ensures Fresh(ds, blocked + seen) == Fresh(Keep(ds, blocked), seen)
  {
    if ds != [] {
      var x, rest := ds[0], ds[1..];
      var k := Keep(rest, blocked);
      if x in blocked {
        assert Keep(ds, blocked) == [] + k == k;
        FreshKeep(rest, blocked, seen);
      } else {
        assert Keep(ds, blocked) == [x] + k && ([x] + k)[1..] == k;
        if x in seen {
          FreshKeep(rest, blocked, seen);
        } else {
          FreshKeep(rest, blocked, seen + {x});
          assert blocked + seen + {x} == blocked + (seen + {x});
        }
      }
    }
  }

  /** What stands in the way of the closure of `u`: stale nodes that are no direct dependency of it. */
  function InTheWay<T(==)>(g: Graph<T>, u: T, stale: set<T>): set<T>
    requires u in g
  {
    stale - Elems(g[u])
  }

  lemma {:induction false} StaleIsBfs<T>(g: Graph<T>, u: T, q: seq<T>, i: nat, stale: set<T>)
    requires Closed(g) && u in g && Elems(q) <= g.Keys && i <= |q| && Elems(g[u]) <= Elems(q)
    ensures var h := Without(g, InTheWay(g, u, stale)); Closed(h) && StaleBfs(g, q, i, stale) == Bfs(h, q, i)
    decreases g.Keys - Elems(q), |q| - i
  {
    hide Without;
    var b := InTheWay(g, u, stale);
    var h := Without(g, b);
    WithoutClosed(g, b);
    if i < |q| {
      StaleProgress(g, q, i, stale);
      assert q[i] in Elems(q);
      assert stale + Elems(q) == b + Elems(q);
      FreshKeep(g[q[i]], b, Elems(q));
      WithoutAt(g, b, q[i]);
      BfsProgress(h, q, i);
      StaleIsBfs(g, u, StaleGrown(g, q, i, stale), i + 1, stale);
    }
  }

  lemma WithoutAt<T>(g: Graph<T>, blocked: set<T>, u: T)
    requires u in g
    ensures Without(g, blocked)[u] == Keep(g[u], blocked)
  {
  }

  /** The list is always the complete one of the graph without what stands in the way. */
  lemma StaleLists<T>(g: Graph<T>, u: T, stale: set<T>)
    requires Closed(g) && u in g
    ensures Elems(g[u]) <= g.Keys
    ensures var h := Without(g, InTheWay(g, u, stale)); h[u] == g[u] && ListsDependencies(h, u, StaleBfs(g, g[u], 0, stale))
  {
    hide Without, ListsDependencies, StaleBfs, Bfs;
    var b := InTheWay(g, u, stale);
    var h := Without(g, b);
    WithoutAt(g, b, u);
    KeepAll(g[u], b);
    StaleIsBfs(g, u, g[u], 0, stale);
    BfsListsDependencies(h, u);
  }

  // ---- how long it is ----------------------------------------------------------------------------------

  /** Everything `u` reaches by at least one edge. */
  ghost function PlusSet<T>(g: Graph<T>, u: T): set<T> {
    set v | v in g && ReachablePlus(g, u, v)
  }

  lemma {:induction false} DistinctCount<T>(s: seq<T>)
    requires Distinct(s)
    ensures |Elems(s)| == |s|
  {
    if s != [] {
      var t, x := s[1..], s[0];
      assert Elems(s) == {x} + Elems(t);
      assert x !in t;
      DistinctCount(t);
    }
  }

  lemma ListLength<T>(g: Graph<T>, u: T, q: seq<T>)
    requires u in g && ListsDependencies(g, u, q)
    ensures |q| == |PlusSet(g, u)| + |g[u]| - |Elems(g[u])|
  {
    hide FoundInOrder, ReachablePlus;
    var n := |g[u]|;
    var tail := q[n..];
    assert q == g[u] + tail;
    assert Distinct(tail);
    DistinctCount(tail);
    forall x | x in tail
      ensures x !in g[u]
    {
      var j :| 0 <= j < |tail| && tail[j] == x;
      NotDirect(g, u, q, n + j);
    }
    assert Elems(q) == Elems(g[u]) + Elems(tail) && Elems(g[u]) !! Elems(tail);
    assert Elems(q) == PlusSet(g, u);
  }

  lemma ReachIsPlus<T>(g: Graph<T>, u: T)
    requires u in g
    ensures ReachSet(g, u) == {u} + PlusSet(g, u)
    ensures |ReachSet(g, u)| == |PlusSet(g, u)| + if u in PlusSet(g, u) then 0 else 1
  {
    forall v | v in g
      ensures v in ReachSet(g, u) <==> v == u || v in PlusSet(g, u)
    {
      if Reachable(g, u, v) && v != u {
        var n: nat :| v in After(g, u, n);
        assert n > 0;
      }
      ReachSelf(g, u);
    }
    if u in PlusSet(g, u) {
      assert {u} + PlusSet(g, u) == PlusSet(g, u);
    }
  }

  /** Reachable nodes that the list misses. */
  ghost function Missed<T>(g: Graph<T>, u: T, stale: set<T>): int
    requires u in g
  {
    |PlusSet(g, u)| - |PlusSet(Without(g, InTheWay(g, u, stale)), u)|
  }

  /** An array with two cells more than the list holds everything reachable and a terminator if and only if the nodes
      missed are no more than the direct dependencies repeated, and one if `u` depends on itself. */
  lemma StaleFitsIff<T>(g: Graph<T>, u: T, stale: set<T>)
    requires Closed(g) && u in g
    ensures Elems(g[u]) <= g.Keys
    ensures |ReachSet(g, u)| < |StaleBfs(g, g[u], 0, stale)| + 2
        <==> Missed(g, u, stale) <= |g[u]| - |Elems(g[u])| + if u in PlusSet(g, u) then 1 else 0
  {
    hide Without, ListsDependencies, StaleBfs, PlusSet, ReachSet;
    StaleLists(g, u, stale);
    ListLength(Without(g, InTheWay(g, u, stale)), u, StaleBfs(g, g[u], 0, stale));
    ReachIsPlus(g, u);
  }

  /** A complete list always gives cells enough. */
  lemma CompleteFits<T>(g: Graph<T>, u: T, q: seq<T>)
    requires u in g && ListsDependencies(g, u, q)
    ensures |ReachSet(g, u)| < |q| + 2
  {
    hide ListsDependencies, PlusSet, ReachSet;
    ListLength(g, u, q);
    ReachIsPlus(g, u);
    ElemsBound(g[u]);
  }

  // ---- a graph for which it is not -----------------------------------------------------------------

  const CHAIN: Graph<nat> := map[0 := [1], 1 := [2], 2 := [3], 3 := []]

  lemma ChainIs()
    ensures CHAIN[0] == [1] && CHAIN[1] == [2] && CHAIN[2] == [3] && CHAIN[3] == []
    ensures CHAIN.Keys == {0, 1, 2, 3} && Closed(CHAIN) && Elems(CHAIN[0]) <= CHAIN.Keys
  {
  }

  lemma ChainShort()
    ensures Closed(CHAIN) && Elems(CHAIN[0]) <= CHAIN.Keys && StaleBfs(CHAIN, CHAIN[0], 0, {1, 2}) == [1]
  {
    ChainIs();
    var q: seq<nat>, stale: set<nat> := [1], {1, 2};
    FreshFacts(CHAIN[1], stale + Elems(q));
    var f := Fresh(CHAIN[1], stale + Elems(q));
    assert f == [];
    assert StaleGrown(CHAIN, q, 0, stale) == q;
    assert StaleBfs(CHAIN, q, 0, stale) == StaleBfs(CHAIN, q, 1, stale);
  }

  lemma ChainReaches()
    ensures ReachablePlus(CHAIN, 0, 2)
  {
    hide Reachable, ReachablePlus;
    ChainIs();
    ReachSelf(CHAIN, 0);
    ReachStep(CHAIN, 0, 0, 1);
    ReachStep(CHAIN, 0, 1, 2);
  }

  /** The walk down to 3. */
  lemma ChainWalk()
    ensures var w := Emit(Descend(Descend(Descend(Start(0, map[]), 1), 2), 3));
            WalkInvariant(CHAIN, {}, 0, w) && w.done == [3] && w.path == [2, 1, 0]
  {
    hide WalkInvariant;
    ChainIs();
    var w0: Walk<nat> := Start(0, map[]);
    StartWalk(CHAIN, {}, 0, map[]);
    DescendWalk(CHAIN, {}, 0, w0);
    var w1 := Descend(w0, 1);
    DescendWalk(CHAIN, {}, 0, w1);
    var w2 := Descend(w1, 2);
    DescendWalk(CHAIN, {}, 0, w2);
    EmitWalk(CHAIN, {}, 0, Descend(w2, 3));
  }

  /** 0 needs 1, 1 needs 2, 2 needs 3, and 2 is stale: the list of 0 is 1 alone.  queue_ctors takes three cells for it,
      but its walk holds four nodes when it has come down to 3 and emits it. */
  lemma StaleWitness()
    ensures Closed(CHAIN) && Elems(CHAIN[0]) <= CHAIN.Keys
    ensures StaleBfs(CHAIN, CHAIN[0], 0, {1, 2}) == [1] && !ListsDependencies(CHAIN, 0, [1])
    ensures var w := Emit(Descend(Descend(Descend(Start(0, map[]), 1), 2), 3));
            WalkInvariant(CHAIN, {}, 0, w) && |w.done| + |w.path| == 4 > |[1]| + 2
  {
    hide StaleBfs, ListsDependencies, WalkInvariant, ReachablePlus, Emit, Descend, Start;
    ChainIs();
    ChainShort();
    ChainReaches();
    NotListed(CHAIN, 0, [1], 2);
    ChainWalk();
  }

  // ---- a list that is short and cells that suffice all the same --------------------------------------------

  const RING: Graph<nat> := map[0 := [1], 1 := [0]]

  lemma RingIs()
    ensures RING[0] == [1] && RING[1] == [0] && RING.Keys == {0, 1} && Closed(RING) && Elems(RING[0]) <= RING.Keys
  {
  }

  lemma RingShort()
    ensures Closed(RING) && Elems(RING[0]) <= RING.Keys && StaleBfs(RING, RING[0], 0, {0, 1}) == [1]
  {
    RingIs();
    var q: seq<nat>, stale: set<nat> := [1], {0, 1};
    FreshFacts(RING[1], stale + Elems(q));
    var f := Fresh(RING[1], stale + Elems(q));
    assert f == [];
    assert StaleGrown(RING, q, 0, stale) == q;
    assert StaleBfs(RING, q, 0, stale) == StaleBfs(RING, q, 1, stale);
  }

  /** 0 and 1 need each other, and 0 is stale: the list of 0 misses 0, and three cells are enough. */
  lemma ShortButFits()
    ensures Closed(RING) && Elems(RING[0]) <= RING.Keys
    ensures StaleBfs(RING, RING[0], 0, {0, 1}) == [1] && !ListsDependencies(RING, 0, [1])
    ensures |ReachSet(RING, 0)| < |[1]| + 2
  {
    hide StaleBfs, ListsDependencies, ReachablePlus, Reachable;
    RingIs();
    RingShort();
    ReachSelf(RING, 0);
    ReachStep(RING, 0, 0, 1);
    ReachStep(RING, 0, 1, 0);
    NotListed(RING, 0, [1], 0);
    assert ReachSet(RING, 0) <= {0, 1};
    SubsetSize(ReachSet(RING, 0), {0, 1});
  }
}
