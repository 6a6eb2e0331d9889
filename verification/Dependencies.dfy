/**
 The dynamic loader's dependency arrays: extend_bfs_deps, which turns a DSO's
 direct dependencies into its breadth-first closure, and queue_ctors, which
 emits the constructor order from a depth-first walk whose stack and output
 share one array.
 */
module Dependencies {
  import opened DepGraph
  import opened StaleMarks

  /** A loaded object.  `deps` is the NULL-terminated array without its terminator, and `depsSet` tells whether there
      is one; `lost` tells that the thread in the constructors did not survive a fork. */
  class Dso {
    var next: Dso?
    var prev: Dso?
    var symsNext: Dso?
    var tlsNext: Dso?     // tls.next, as the DSO that module belongs to
    var lazyNext: Dso?
    var depsSet: bool
    var deps: seq<Dso>
    var ndepsDirect: nat
    var bfsBuilt: bool
    var mark: bool
    var nextDep: nat
    var relocated: bool
    var constructed: bool
    var lost: bool

    constructor ()
      ensures next == null && prev == null && symsNext == null && tlsNext == null && lazyNext == null
      ensures !depsSet && deps == [] && ndepsDirect == 0 && !bfsBuilt && !mark && nextDep == 0 && !relocated && !constructed && !lost
    {
      next, prev, symsNext, tlsNext, lazyNext := null, null, null, null, null;
      depsSet, deps, ndepsDirect, bfsBuilt, mark, nextDep := false, [], 0, false, false, 0;
      relocated, constructed, lost := false, false, false;
    }
  }

  /** The element at place `i`, or null past either end. */
  ghost function Nth(s: seq<Dso>, i: int): Dso? {
    if 0 <= i < |s| then s[i] else null
  }

  /** The chain of `next` pointers. */
  ghost predicate NextOk(s: seq<Dso>)
    reads s`next
  {
    forall i :: 0 <= i < |s| ==> s[i].next == Nth(s, i + 1)
  }

  /** The direct dependencies of the DSOs on the loader's list. */
  ghost function Direct(list: seq<Dso>): (g: Graph<Dso>)
    requires forall d :: d in list ==> d.ndepsDirect <= |d.deps|
    reads list`deps, list`ndepsDirect
    ensures g.Keys == Elems<Dso>(list)
  {
    map d | d in list :: d.deps[..d.ndepsDirect]
  }

  /** Every dependency of a listed DSO is listed. */
  ghost predicate WellLinked(list: seq<Dso>)
    reads list`deps, list`ndepsDirect
  {
    && (forall d :: d in list ==> d.ndepsDirect <= |d.deps|)
    && Closed<Dso>(Direct(list))
  }

  ghost function MarkedIn(list: seq<Dso>): (r: set<Dso>)
    reads list`mark
  {
    set d | d in list && d.mark
  }

  /** Setting or clearing marks leaves the graph alone. */
  ghost predicate GraphIs(list: seq<Dso>, g: Graph<Dso>)
    reads list`deps, list`ndepsDirect
  {
    (forall d :: d in list ==> d.ndepsDirect <= |d.deps|) && Direct(list) == g
  }

  /** Clear every mark, along the list. */
  method ClearMarks(head: Dso, ghost list: seq<Dso>)
    requires list != [] && head == list[0] && NextOk(list)
    modifies list`mark
    ensures MarkedIn(list) == {}
  {
    var d: Dso? := head;
    ghost var i := 0;
    while d != null
      invariant 0 <= i <= |list| && d == Nth(list, i) && forall k :: 0 <= k < i ==> !list[k].mark
      decreases |list| - i
    {
      d.mark := false;
      d := d.next;
      i := i + 1;
    }
  }

  /** Mark the DSOs already listed. */
  method MarkAll(ds: seq<Dso>, ghost list: seq<Dso>)
    requires Elems<Dso>(ds) <= Elems<Dso>(list)
    modifies list`mark
    ensures MarkedIn(list) == old(MarkedIn(list)) + Elems<Dso>(ds)
  {
    for i := 0 to |ds|
      invariant MarkedIn(list) == old(MarkedIn(list)) + Elems<Dso>(ds[..i])
    {
      assert ds[i] in Elems<Dso>(ds) && ds[..i + 1] == ds[..i] + [ds[i]];
      assert Elems<Dso>(ds[..i + 1]) == Elems<Dso>(ds[..i]) + {ds[i]};
      ghost var m := MarkedIn(list);
      ds[i].mark := true;
      assert MarkedIn(list) == m + {ds[i]};
    }
    assert ds[..|ds|] == ds;
  }

  lemma FreshAt<T>(ds: seq<T>, j: nat, seen: set<T>)
    requires j < |ds|
    ensures Fresh<T>(ds[j..], seen)
         == (if ds[j] in seen then [] else [ds[j]]) + Fresh<T>(ds[j + 1..], seen + {ds[j]})
  {
    assert ds[j..][0] == ds[j] && ds[j..][1..] == ds[j + 1..];
    if ds[j] in seen {
      assert seen + {ds[j]} == seen;
    }
  }

  /** The entries of `ds` that are not marked, counted with repetitions: room asked of the allocator. */
  method CountUnmarked(ds: seq<Dso>, ghost list: seq<Dso>) returns (cnt: nat)
    requires Elems<Dso>(ds) <= Elems<Dso>(list)
    ensures cnt >= |Fresh<Dso>(ds, MarkedIn(list))|
  {
    hide Fresh;
    cnt := 0;
    ghost var seen := MarkedIn(list);
    assert ds[0..] == ds;
    for j := 0 to |ds|
      invariant cnt + |Fresh<Dso>(ds[j..], seen)| >= |Fresh<Dso>(ds, MarkedIn(list))|
      invariant MarkedIn(list) <= seen
    {
      assert ds[j] in Elems<Dso>(ds) && ds[j] in list;
      FreshAt<Dso>(ds, j, seen);
      if !ds[j].mark {
        cnt := cnt + 1;
      }
      seen := seen + {ds[j]};
    }
    FreshNone<Dso>(ds[|ds|..], seen);
  }

  lemma FreshNone<T>(ds: seq<T>, seen: set<T>)
    requires ds == []
    ensures Fresh<T>(ds, seen) == []
  {
  }

  /** List one dependency unless it is marked. */
  method AppendOne(p: Dso, d: Dso, ghost list: seq<Dso>, ghost g: Graph<Dso>)
    requires p in list && d in list && GraphIs(list, g)
    modifies list`mark, p`deps
    ensures p.deps == old(p.deps) + if d in old(MarkedIn(list)) then [] else [d]
    ensures MarkedIn(list) == old(MarkedIn(list)) + {d} && GraphIs(list, g)
  {
    if !d.mark {
      d.mark := true;
      p.deps := p.deps + [d];
    }
    assert forall c :: c in list ==> c.deps[..c.ndepsDirect] == old(c.deps[..c.ndepsDirect]);
  }

  /** Append the dependencies of one entry that are not marked yet, marking them. */
  method AppendUnmarked(p: Dso, ds: seq<Dso>, ghost list: seq<Dso>, ghost g: Graph<Dso>)
    requires p in list && Elems<Dso>(ds) <= Elems<Dso>(list) && GraphIs(list, g)
    modifies list`mark, p`deps
    ensures p.deps == old(p.deps) + Fresh<Dso>(ds, old(MarkedIn(list)))
    ensures MarkedIn(list) == old(MarkedIn(list)) + Elems<Dso>(ds) && GraphIs(list, g)
  {
    hide Fresh, MarkedIn, GraphIs;
    assert ds[0..] == ds;
    for j := 0 to |ds|
      invariant p.deps + Fresh<Dso>(ds[j..], MarkedIn(list)) == old(p.deps) + Fresh<Dso>(ds, old(MarkedIn(list)))
      invariant MarkedIn(list) == old(MarkedIn(list)) + Elems<Dso>(ds[..j]) && GraphIs(list, g)
    {
      assert ds[j] in Elems<Dso>(ds) && ds[..j + 1] == ds[..j] + [ds[j]];
      FreshAt<Dso>(ds, j, MarkedIn(list));
      AppendOne(p, ds[j], list, g);
    }
    FreshNone<Dso>(ds[|ds|..], MarkedIn(list));
    assert ds[..|ds|] == ds;
  }

  /** Drop what an earlier call may have left behind the first `n` entries. */
  method Truncate(p: Dso, n: nat, ghost list: seq<Dso>, ghost g: Graph<Dso>)
    requires p in list && GraphIs(list, g) && p.ndepsDirect <= n <= |p.deps|
    modifies p`deps
    ensures p.deps == old(p.deps)[..n] && GraphIs(list, g)
  {
    p.deps := p.deps[..n];
    assert forall c :: c in list ==> c.deps[..c.ndepsDirect] == old(c.deps[..c.ndepsDirect]);
  }

  /** One round of the growing loop, the array reallocated. */
  method GrowOnce(p: Dso, i: nat, n: nat, ghost list: seq<Dso>, ghost g: Graph<Dso>, ghost stale: set<Dso>) returns (n': nat)
    requires p in list && GraphIs(list, g) && Closed<Dso>(g) && i < n && p.ndepsDirect <= n <= |p.deps|
    requires Elems<Dso>(p.deps[..n]) <= g.Keys && MarkedIn(list) == stale + Elems<Dso>(p.deps[..n])
    modifies list`mark, p`deps
    ensures old(p.deps[..n])[i] in g && p.deps == StaleGrown<Dso>(g, old(p.deps[..n]), i, stale) && n' == |p.deps|
    ensures GraphIs(list, g) && MarkedIn(list) == stale + Elems<Dso>(p.deps) && Elems<Dso>(p.deps) <= g.Keys
  {
    hide Fresh, MarkedIn;
    ghost var q := p.deps[..n];
    var dep := p.deps[i];
    assert dep == q[i] && dep in Elems<Dso>(q) && dep in list;
    var direct := dep.deps[..dep.ndepsDirect];
    assert direct == g[dep] && Elems<Dso>(direct) <= Elems<Dso>(list);
    StaleProgress<Dso>(g, q, i, stale);
    var cnt := CountUnmarked(direct, list);
    Truncate(p, n, list, g);
    AppendUnmarked(p, direct, list, g);
    assert |p.deps| <= n + cnt; // the reallocated array is large enough
    n' := |p.deps|;
    assert p.deps[..n] == q;
  }

  /** What every round keeps: `n` entries are listed, all can be reached, and what is marked was stale or is listed. */
  ghost predicate Growing(p: Dso, list: seq<Dso>, g: Graph<Dso>, stale: set<Dso>, n: nat)
    requires p in g
    reads p`deps, list`deps, list`ndepsDirect, list`mark
  {
    && GraphIs(list, g) && |g[p]| <= n <= |p.deps| && g[p] <= p.deps[..n] && Elems<Dso>(p.deps[..n]) <= g.Keys
    && MarkedIn(list) == stale + Elems<Dso>(p.deps[..n])
    && forall v :: v in p.deps[..n] ==> ReachablePlus<Dso>(g, p, v)
  }

  /** One round and what it does to the run as a whole. */
  method GrowRound(p: Dso, i: nat, n: nat, ghost list: seq<Dso>, ghost g: Graph<Dso>, ghost stale: set<Dso>) returns (n': nat)
    requires p in list && p in g && Closed<Dso>(g) && i < n && Growing(p, list, g, stale, n)
    modifies list`mark, p`deps
    ensures Growing(p, list, g, stale, n') && n' == |p.deps| && i + 1 <= n'
    ensures p.deps == StaleGrown<Dso>(g, old(p.deps[..n]), i, stale)
    ensures p.deps == old(p.deps[..n]) || g.Keys - Elems<Dso>(p.deps) < g.Keys - Elems<Dso>(old(p.deps[..n]))
  {
    hide MarkedIn, Fresh, ReachablePlus, StaleGrown;
    ghost var q := p.deps[..n];
    assert p.ndepsDirect == |g[p]|;
    n' := GrowOnce(p, i, n, list, g, stale);
    StaleProgress<Dso>(g, q, i, stale);
    assert p.deps[..n'] == p.deps;
    GrownReachable<Dso>(g, p, q, i, stale);
  }

  lemma DirectCount(p: Dso, list: seq<Dso>, g: Graph<Dso>)
    requires p in list && p in g && GraphIs(list, g)
    ensures p.ndepsDirect == |g[p]|
  {
  }

  /** The growing loop: entry by entry, until every listed DSO has been processed.  When memory gives out the call ends,
      at run time, or passes over the entry, at start-up.  `k` entries have been processed before that. */
  method BfsLoop(p: Dso, runtime: bool, ghost list: seq<Dso>, ghost g: Graph<Dso>, ghost stale: set<Dso>)
    returns (ok: bool, ghost k: nat)
    requires p in list && p in g && Closed<Dso>(g) && Growing(p, list, g, stale, |g[p]|) && Elems<Dso>(p.deps) <= stale
    requires (g[p] == [] ==> p.deps == []) && (runtime || p.deps == g[p])
    modifies list`mark, p`deps
    ensures GraphIs(list, g) && g[p] <= p.deps && MarkedIn(list) == stale + Elems<Dso>(p.deps)
    ensures Elems<Dso>(g[p]) <= g.Keys && (g[p] == [] ==> p.deps == [])
    ensures ok ==> p.deps == StaleBfs<Dso>(g, g[p], 0, stale)
    ensures !ok && runtime ==> p.deps == if k == 0 then old(p.deps) else StaleSteps<Dso>(g, g[p], stale, k)
    ensures forall v :: v in p.deps ==> v in old(p.deps) || ReachablePlus<Dso>(g, p, v)
  {
    hide StaleBfs, StaleSteps, StaleGrown, MarkedIn, ReachablePlus, GraphIs, Closed, NextOk, WellLinked;
    ok, k := true, 0;
    DirectCount(p, list, g);
    var i: nat, n: nat := 0, p.ndepsDirect;
    assert n == |g[p]| && p.deps[..n] == g[p];
    StepsStart<Dso>(g, g[p], stale);
    while i < |p.deps|
      invariant Growing(p, list, g, stale, n) && i <= n
      invariant (i == 0 ==> ok && p.deps == old(p.deps)) && (runtime ==> ok) && (g[p] == [] ==> p.deps == [])
      invariant |p.deps| == n || i == 0
      invariant ok ==> k == i && p.deps[..n] == StaleSteps<Dso>(g, g[p], stale, i)
      invariant ok ==> StaleBfs<Dso>(g, p.deps[..n], i, stale) == StaleBfs<Dso>(g, g[p], 0, stale)
      decreases g.Keys - Elems<Dso>(p.deps[..n]), n - i
    {
      var memory := *;
      if memory {
        ghost var q := p.deps[..n];
        StaleUnfold<Dso>(g, q, i, stale);
        n := GrowRound(p, i, n, list, g, stale);
        assert p.deps[..n] == p.deps;
        if ok {
          StepsNext<Dso>(g, g[p], stale, i);
          k := i + 1;
        }
      } else {
        ok := false;
        if runtime {
          assert i > 0 ==> p.deps[..n] == p.deps;
          return;
        }
      }
      i := i + 1;
    }
    assert p.deps[..n] == p.deps;
    StaleUnfold<Dso>(g, p.deps, i, stale);
  }

  lemma StaleUnfold<T>(g: Graph<T>, q: seq<T>, i: nat, stale: set<T>)
    requires i <= |q| && Closed<T>(g) && Elems<T>(q) <= g.Keys
    ensures i == |q| ==> StaleBfs<T>(g, q, i, stale) == q
    ensures i < |q| ==> Elems<T>(StaleGrown<T>(g, q, i, stale)) <= g.Keys
                        && i + 1 <= |StaleGrown<T>(g, q, i, stale)|
                        && StaleBfs<T>(g, q, i, stale) == StaleBfs<T>(g, StaleGrown<T>(g, q, i, stale), i + 1, stale)
  {
    if i < |q| {
      StaleProgress<T>(g, q, i, stale);
    }
  }

  lemma StepsStart<T>(g: Graph<T>, q: seq<T>, stale: set<T>)
    requires Closed<T>(g) && Elems<T>(q) <= g.Keys
    ensures StaleSteps<T>(g, q, stale, 0) == q
  {
  }

  lemma StepsNext<T>(g: Graph<T>, q: seq<T>, stale: set<T>, k: nat)
    requires Closed<T>(g) && Elems<T>(q) <= g.Keys && k < |StaleSteps<T>(g, q, stale, k)|
    ensures var r := StaleSteps<T>(g, q, stale, k);
            r[k] in g && StaleSteps<T>(g, q, stale, k + 1) == StaleGrown<T>(g, r, k, stale)
  {
    var r := StaleSteps<T>(g, q, stale, k);
    assert r[k] in Elems<T>(r);
  }

  /** A list as extend_bfs_deps finds it: the direct dependencies first, and perhaps more behind them that a call which
      ran out of memory has left. */
  ghost predicate Extendable(p: Dso, list: seq<Dso>, runtime: bool)
    reads p`deps, p`ndepsDirect
  {
    && Elems<Dso>(p.deps) <= Elems<Dso>(list) && p.ndepsDirect <= |p.deps|
    && (p.ndepsDirect == 0 ==> p.deps == []) && (runtime || |p.deps| == p.ndepsDirect)
  }

  /** Record the breadth-first closure of the direct dependencies.  Marks that are still set, and entries left behind the
      direct ones, count as listed: the closure is complete if and only if none of them can be reached but is no direct
      dependency.  A call that runs out of memory at run time leaves the marks it has set. */
  method ExtendBfsDeps(p: Dso, head: Dso, runtime: bool, ghost list: seq<Dso>) returns (ok: bool, ghost k: nat)
    requires list != [] && head == list[0] && NextOk(list) && p in list && WellLinked(list)
    requires p.bfsBuilt || Extendable(p, list, runtime)
    modifies list`mark, p`deps, p`bfsBuilt
    ensures WellLinked(list) && Direct(list) == old(Direct(list))
    ensures old(Extendable(p, list, runtime)) && p.ndepsDirect == 0 ==> p.deps == []
    ensures old(p.bfsBuilt) ==> ok && p.bfsBuilt && p.deps == old(p.deps) && MarkedIn(list) == old(MarkedIn(list))
    ensures !old(p.bfsBuilt) ==>
              var g, stale := Direct(list), old(MarkedIn(list)) + Elems<Dso>(old(p.deps));
              && (ok || !runtime ==> p.bfsBuilt && MarkedIn(list) == {})
              && Elems<Dso>(g[p]) <= g.Keys
              && (ok ==> p.deps == StaleBfs<Dso>(g, g[p], 0, stale))
              && (ok ==> (ListsDependencies<Dso>(g, p, p.deps) <==> Harmless<Dso>(g, p, g[p], stale)))
              && (!ok && runtime ==> !p.bfsBuilt && MarkedIn(list) == stale + Elems<Dso>(p.deps)
                                     && p.deps == if k == 0 then old(p.deps) else StaleSteps<Dso>(g, g[p], stale, k))
              && forall v :: v in p.deps ==> v in old(p.deps) || ReachablePlus<Dso>(g, p, v)
  {
    hide StaleBfs, StaleSteps, ListsDependencies, Harmless;
    ok, k := true, 0;
    if p.bfsBuilt {
      return;
    }
    ok, k := RecordClosure(p, head, runtime, list, Direct(list));
  }

  method RecordClosure(p: Dso, head: Dso, runtime: bool, ghost list: seq<Dso>, ghost g: Graph<Dso>)
    returns (ok: bool, ghost k: nat)
    requires list != [] && head == list[0] && NextOk(list) && p in list && p in g && GraphIs(list, g) && Closed<Dso>(g)
    requires !p.bfsBuilt && Extendable(p, list, runtime)
    modifies list`mark, p`deps, p`bfsBuilt
    ensures GraphIs(list, g) && Elems<Dso>(g[p]) <= g.Keys && g[p] <= p.deps && (g[p] == [] ==> p.deps == [])
    ensures var stale := old(MarkedIn(list)) + Elems<Dso>(old(p.deps));
            && (ok || !runtime ==> p.bfsBuilt && MarkedIn(list) == {})
            && (ok ==> p.deps == StaleBfs<Dso>(g, g[p], 0, stale))
            && (ok ==> (ListsDependencies<Dso>(g, p, p.deps) <==> Harmless<Dso>(g, p, g[p], stale)))
            && (!ok && runtime ==> !p.bfsBuilt && MarkedIn(list) == stale + Elems<Dso>(p.deps)
                                   && p.deps == if k == 0 then old(p.deps) else StaleSteps<Dso>(g, g[p], stale, k))
    ensures forall v :: v in p.deps ==> v in old(p.deps) || ReachablePlus<Dso>(g, p, v)
  {
    hide StaleBfs, StaleSteps, ListsDependencies, MarkedIn, Harmless, ReachablePlus, GraphIs, NextOk, Growing, Closed;
    ghost var stale := MarkedIn(list) + Elems<Dso>(p.deps);
    MarkAll(p.deps, list);
    StartsGrowing(p, list, g, stale);
    ok, k := BfsLoop(p, runtime, list, g, stale);
    StaleListsIff<Dso>(g, p, stale);
    if !ok && runtime {
      return;
    }
    p.bfsBuilt := true;
    ClearMarks(head, list);
  }

  lemma StartsGrowing(p: Dso, list: seq<Dso>, g: Graph<Dso>, stale: set<Dso>)
    requires p in list && p in g && GraphIs(list, g) && Closed<Dso>(g) && MarkedIn(list) == stale && Elems<Dso>(p.deps) <= stale
    ensures Growing(p, list, g, stale, |g[p]|) && g[p] == p.deps[..p.ndepsDirect]
  {
    hide MarkedIn;
    var n := |g[p]|;
    assert p.deps[..n] == g[p];
    assert stale + Elems<Dso>(g[p]) == stale;
    forall v | v in g[p]
      ensures ReachablePlus<Dso>(g, p, v)
    {
      ReachSelf<Dso>(g, p);
      ReachStep<Dso>(g, p, p, v);
    }
  }

  // ---- queue_ctors ------------------------------------------------------------------------------------

  ghost function Cursors(list: seq<Dso>): (r: map<Dso, nat>)
    reads list`nextDep
  {
    map d | d in list :: d.nextDep
  }

  /** The shared array: `done` grows upwards from 0, `path` downwards from the end. */
  ghost predicate Laid(queue: array<Dso?>, qpos: int, spos: int, done: seq<Dso>, path: seq<Dso>)
    reads queue
  {
    && 0 <= qpos <= spos <= queue.Length
    && qpos == |done| && queue.Length - spos == |path|
    && (forall i :: 0 <= i < qpos ==> queue[i] == done[i])
    && (forall i :: 0 <= i < |path| ==> queue[spos + i] == path[i])
  }

  /** Marks, cursors and graph as the walk has them; `blocked` was marked before. */
  ghost predicate Mirrors(list: seq<Dso>, g: Graph<Dso>, blocked: set<Dso>, w: Walk<Dso>)
    reads list`deps, list`ndepsDirect, list`nextDep, list`mark
  {
    GraphIs(list, g) && Cursors(list) == w.cursor && MarkedIn(list) == w.Marked() + blocked
  }

  /** What the walk comes to: everything reachable without passing through a DSO that was marked before. */
  ghost function Nodes(g: Graph<Dso>, blocked: set<Dso>, root: Dso): set<Dso> {
    ReachSet<Dso>(Without<Dso>(g, blocked), root)
  }

  /** Pass over a dependency that is marked. */
  method StepAdvance(p: Dso, ghost list: seq<Dso>, ghost g: Graph<Dso>, ghost blocked: set<Dso>, ghost w: Walk<Dso>)
    requires p in list && Mirrors(list, g, blocked, w) && w.path != [] && w.path[0] == p && p in w.cursor
    modifies p`nextDep
    ensures Mirrors(list, g, blocked, Advance<Dso>(w)) && p.nextDep == old(p.nextDep) + 1
  {
    hide MarkedIn;
    p.nextDep := p.nextDep + 1;
    assert forall d :: d in list ==> d.deps[..d.ndepsDirect] == old(d.deps[..d.ndepsDirect]);
  }

  /** Enter a dependency that is not marked. */
  method StepDescend(c: Dso, ghost list: seq<Dso>, ghost g: Graph<Dso>, ghost blocked: set<Dso>, ghost w: Walk<Dso>)
    requires c in list && Mirrors(list, g, blocked, w)
    modifies c`nextDep, c`mark
    ensures Mirrors(list, g, blocked, Descend<Dso>(w, c))
  {
    hide MarkedIn, GraphIs;
    c.nextDep := 0;
    MarkOne(c, list);
    assert Descend<Dso>(w, c).Marked() == w.Marked() + {c};
  }

  method MarkOne(c: Dso, ghost list: seq<Dso>)
    requires c in list
    modifies c`mark
    ensures c.mark && MarkedIn(list) == old(MarkedIn(list)) + {c}
  {
    c.mark := true;
  }

  /** A walk never holds more nodes than there are to come to. */
  lemma WalkRoom(g: Graph<Dso>, blocked: set<Dso>, root: Dso, w: Walk<Dso>)
    requires WalkInvariant<Dso>(g, blocked, root, w)
    ensures w.Marked() <= Nodes(g, blocked, root) && |w.done| + |w.path| <= |Nodes(g, blocked, root)|
  {
    hide Reachable;
    assert Elems<Dso>(w.done + w.path) == w.Marked();
    DistinctBound<Dso>(w.done + w.path, Nodes(g, blocked, root));
  }

  lemma TopFacts(g: Graph<Dso>, blocked: set<Dso>, root: Dso, w: Walk<Dso>)
    requires WalkInvariant<Dso>(g, blocked, root, w) && w.path != []
    ensures var p := w.path[0];
            && p in g && p in w.cursor && w.cursor[p] <= |g[p]| && p in w.Marked()
            && (forall k :: 0 <= k < |g[p]| ==> g[p][k] in g)
  {
    hide Reachable, Without;
    var p := w.path[0];
    assert p in w.Marked() && Scanned<Dso>(g, blocked, w, p);
    assert forall k :: 0 <= k < |g[p]| ==> g[p][k] in g[p];
  }

  lemma MirrorFacts(list: seq<Dso>, g: Graph<Dso>, blocked: set<Dso>, w: Walk<Dso>, p: Dso)
    requires Mirrors(list, g, blocked, w) && p in g
    ensures p in list && p in w.cursor && p.nextDep == w.cursor[p]
    ensures p.ndepsDirect <= |p.deps| && p.deps[..p.ndepsDirect] == g[p]
    ensures p.mark <==> p in w.Marked() + blocked
  {
    assert p.mark <==> p in MarkedIn(list);
  }

  /** The stack grows downwards. */
  method PushPath(queue: array<Dso?>, spos0: nat, p: Dso, ghost qpos: nat, ghost done: seq<Dso>, ghost path: seq<Dso>)
    returns (spos: nat)
    requires Laid(queue, qpos, spos0, done, path) && qpos < spos0
    modifies queue
    ensures Laid(queue, qpos, spos, done, [p] + path)
  {
    spos := spos0 - 1;
    queue[spos] := p;
  }

  /** The queue grows upwards. */
  method PushDone(queue: array<Dso?>, qpos0: nat, p: Dso, ghost spos: nat, ghost done: seq<Dso>, ghost path: seq<Dso>)
    returns (qpos: nat)
    requires Laid(queue, qpos0, spos, done, path) && qpos0 < spos
    modifies queue
    ensures Laid(queue, qpos, spos, done + [p], path) && qpos == qpos0 + 1
  {
    queue[qpos0] := p;
    qpos := qpos0 + 1;
  }

  lemma LaidCount(queue: array<Dso?>, qpos: int, spos: int, done: seq<Dso>, path: seq<Dso>)
    requires Laid(queue, qpos, spos, done, path)
    ensures qpos == |done| && spos - qpos == queue.Length - |done| - |path| && qpos <= spos <= queue.Length
  {
  }

  /** The walk is at `p`, the innermost node of its path; the stack holds the rest of the path. */
  ghost predicate Down(p: Dso, queue: array<Dso?>, qpos: int, spos: int, list: seq<Dso>, g: Graph<Dso>, blocked: set<Dso>,
                       root: Dso, w: Walk<Dso>)
    reads queue, list`deps, list`ndepsDirect, list`nextDep, list`mark
  {
    && WalkInvariant<Dso>(g, blocked, root, w) && Mirrors(list, g, blocked, w)
    && w.path != [] && w.path[0] == p && Laid(queue, qpos, spos, w.done, w.path[1..])
  }

  lemma DownFacts(p: Dso, queue: array<Dso?>, qpos: int, spos: int, list: seq<Dso>, g: Graph<Dso>, blocked: set<Dso>,
                  root: Dso, w: Walk<Dso>)
    requires Down(p, queue, qpos, spos, list, g, blocked, root, w)
    ensures p in list && p in g && p in w.cursor && p.nextDep == w.cursor[p] <= |g[p]| && p in w.Marked()
    ensures p.ndepsDirect <= |p.deps| && p.deps[..p.ndepsDirect] == g[p]
    ensures forall k :: 0 <= k < |g[p]| ==> g[p][k] in g
    ensures w.Marked() <= Nodes(g, blocked, root) && |w.done| + |w.path| <= |Nodes(g, blocked, root)|
    ensures qpos == |w.done| && spos - qpos == queue.Length - |w.done| - |w.path| + 1 && qpos <= spos <= queue.Length
  {
    hide WalkInvariant, Mirrors, Laid, Nodes;
    TopFacts(g, blocked, root, w);
    MirrorFacts(list, g, blocked, w, p);
    WalkRoom(g, blocked, root, w);
    LaidCount(queue, qpos, spos, w.done, w.path[1..]);
  }

  /** Go down to a dependency that is not marked. */
  method Enter(p: Dso, c: Dso, queue: array<Dso?>, spos0: nat, ghost qpos: nat, ghost list: seq<Dso>,
               ghost g: Graph<Dso>, ghost blocked: set<Dso>, ghost root: Dso, ghost w: Walk<Dso>) returns (spos: nat)
    requires Down(p, queue, qpos, spos0, list, g, blocked, root, w) && qpos < spos0
    requires c in list && p in w.cursor && p in g && w.cursor[p] < |g[p]|
    requires c == g[p][w.cursor[p]] && c !in w.Marked() + blocked
    modifies queue, c`nextDep, c`mark
    ensures Down(c, queue, qpos, spos, list, g, blocked, root, Descend<Dso>(w, c))
  {
    hide WalkInvariant, Mirrors, Laid;
    DescendWalk<Dso>(g, blocked, root, w);
    DescendShape(w, c);
    spos := PushPath(queue, spos0, p, qpos, w.done, w.path[1..]);
    StepDescend(c, list, g, blocked, w);
  }

  /** Look at the next dependency of the node in hand.  A stack that has grown down to the queue is not stored to: then
      there is more to come to than there are cells. */
  method WalkStep(p0: Dso, queue: array<Dso?>, spos0: nat, qpos: nat, ghost list: seq<Dso>,
                  ghost g: Graph<Dso>, ghost blocked: set<Dso>, ghost root: Dso, ghost w0: Walk<Dso>)
    returns (ok: bool, p: Dso, spos: nat, ghost w: Walk<Dso>)
    requires Down(p0, queue, qpos, spos0, list, g, blocked, root, w0)
    requires p0 in list && p0.nextDep < p0.ndepsDirect
    modifies queue, list`nextDep, list`mark
    ensures !ok ==> queue.Length < |Nodes(g, blocked, root)|
    ensures ok ==> Down(p, queue, qpos, spos, list, g, blocked, root, w)
    ensures ok ==> if p == p0 then w.Marked() == w0.Marked() && |w.path| == |w0.path| && p.nextDep == old(p0.nextDep) + 1
                   else w.Marked() == w0.Marked() + {p} && p !in w0.Marked()
  {
    hide WalkInvariant, Mirrors, Laid, Nodes;
    ok, p, spos, w := true, p0, spos0, w0;
    DownFacts(p, queue, qpos, spos, list, g, blocked, root, w0);
    var c := p.deps[p.nextDep];
    assert c == g[p][w0.cursor[p]];
    MirrorFacts(list, g, blocked, w0, c);
    if c.mark {
      AdvanceWalk<Dso>(g, blocked, root, w0);
      StepAdvance(p, list, g, blocked, w0);
      w := Advance<Dso>(w0);
    } else if spos == qpos {
      ok := false;
    } else {
      spos := Enter(p, c, queue, spos, qpos, list, g, blocked, root, w0);
      DescendShape(w0, c);
      p, w := c, Descend<Dso>(w0, c);
    }
  }

  /** Walk down from the node in hand until one has no dependency left to visit. */
  method WalkDown(p0: Dso, queue: array<Dso?>, spos0: nat, qpos: nat, ghost list: seq<Dso>,
                  ghost g: Graph<Dso>, ghost blocked: set<Dso>, ghost root: Dso, ghost w0: Walk<Dso>)
    returns (ok: bool, p: Dso, spos: nat, ghost w: Walk<Dso>)
    requires Down(p0, queue, qpos, spos0, list, g, blocked, root, w0)
    modifies queue, list`nextDep, list`mark
    ensures !ok ==> queue.Length < |Nodes(g, blocked, root)|
    ensures ok ==> Down(p, queue, qpos, spos, list, g, blocked, root, w) && p in g && p in w.cursor && w.cursor[p] == |g[p]|
    ensures ok ==> w0.Marked() <= w.Marked() && (w.Marked() == w0.Marked() ==> |w.path| == |w0.path|)
  {
    hide Down, Nodes;
    ok, p, spos, w := true, p0, spos0, w0;
    DownFacts(p, queue, qpos, spos, list, g, blocked, root, w);
    while p.nextDep < p.ndepsDirect
      invariant Down(p, queue, qpos, spos, list, g, blocked, root, w) && p in list && p in g && p in w.cursor
      invariant p.nextDep == w.cursor[p] <= |g[p]| == p.ndepsDirect && w.Marked() <= Nodes(g, blocked, root)
      invariant w0.Marked() <= w.Marked() && (w.Marked() == w0.Marked() ==> |w.path| == |w0.path|)
      decreases Nodes(g, blocked, root) - w.Marked(), p.ndepsDirect - p.nextDep
    {
      ghost var m := w.Marked();
      ok, p, spos, w := WalkStep(p, queue, spos, qpos, list, g, blocked, root, w);
      if !ok {
        return;
      }
      DownFacts(p, queue, qpos, spos, list, g, blocked, root, w);
    }
  }

  lemma DescendShape(w: Walk<Dso>, c: Dso)
    requires w.path != [] && c !in w.Marked()
    ensures [w.path[0]] + w.path[1..] == w.path
    ensures Descend<Dso>(w, c).path[0] == c && Descend<Dso>(w, c).path[1..] == w.path && Descend<Dso>(w, c).done == w.done
    ensures Descend<Dso>(w, c).Marked() == w.Marked() + {c}
  {
  }

  /** Clear the marks of some DSOs. */
  method Unmark(ds: seq<Dso>, ghost list: seq<Dso>)
    requires Elems<Dso>(ds) <= Elems<Dso>(list)
    modifies list`mark
    ensures MarkedIn(list) == old(MarkedIn(list)) - Elems<Dso>(ds)
  {
    for i := 0 to |ds|
      invariant MarkedIn(list) == old(MarkedIn(list)) - Elems<Dso>(ds[..i])
    {
      assert ds[i] in Elems<Dso>(ds) && ds[..i + 1] == ds[..i] + [ds[i]];
      assert Elems<Dso>(ds[..i + 1]) == Elems<Dso>(ds[..i]) + {ds[i]};
      ghost var m := MarkedIn(list);
      ds[i].mark := false;
      assert MarkedIn(list) == m - {ds[i]};
    }
    assert ds[..|ds|] == ds;
  }

  /** Count the whole list and clear its marks. */
  method CountList(head: Dso, ghost list: seq<Dso>) returns (cnt: nat)
    requires list != [] && head == list[0] && NextOk(list)
    modifies list`mark
    ensures cnt == |list| && MarkedIn(list) == {}
  {
    var d: Dso? := head;
    cnt := 0;
    while d != null
      invariant 0 <= cnt <= |list| && d == Nth(list, cnt) && forall k :: 0 <= k < cnt ==> !list[k].mark
      decreases |list| - cnt
    {
      d.mark := false;
      d := d.next;
      cnt := cnt + 1;
    }
  }

  /** Size the queue, from `deps` if the closure is recorded and else from the whole list, and clear those marks. */
  method SizeQueue(dso: Dso, head: Dso, ghost list: seq<Dso>) returns (cnt: nat)
    requires dso in list && Elems<Dso>(dso.deps) <= Elems<Dso>(list)
    requires list != [] && head == list[0] && NextOk(list)
    modifies list`mark
    ensures cnt == Cells(dso, list) && MarkedIn(list) == if dso.bfsBuilt then old(MarkedIn(list)) - Elems<Dso>(dso.deps) else {}
  {
    hide MarkedIn;
    if dso.bfsBuilt {
      Unmark(dso.deps, list);
      cnt := |dso.deps| + 1;
    } else {
      cnt := CountList(head, list);
    }
    cnt := cnt + 1;
  }

  /** The cells queue_ctors takes. */
  ghost function Cells(dso: Dso, list: seq<Dso>): nat
    reads dso`bfsBuilt, dso`deps
  {
    if dso.bfsBuilt then |dso.deps| + 2 else |list| + 1
  }

  /** What the walk of queue_ctors will find marked that it has not marked itself. */
  ghost function Blocked(dso: Dso, list: seq<Dso>): set<Dso>
    reads dso`bfsBuilt, dso`deps, list`mark
  {
    (if dso.bfsBuilt then MarkedIn(list) - Elems<Dso>(dso.deps) else {}) - {dso}
  }

  /** The exact condition for the array of queue_ctors: a cell for every DSO the walk comes to, and one more. */
  ghost predicate Fits(dso: Dso, list: seq<Dso>)
    requires WellLinked(list)
    reads dso`bfsBuilt, dso`deps, list`deps, list`ndepsDirect, list`mark
  {
    |Nodes(Direct(list), Blocked(dso, list), dso)| < Cells(dso, list)
  }

  /** A DSO whose closure has been recorded lists everything it depends on. */
  ghost predicate Recorded(g: Graph<Dso>, d: Dso)
    requires d in g
    reads d`bfsBuilt, d`deps
  {
    d.bfsBuilt ==> ListsDependencies<Dso>(g, d, d.deps)
  }

  /** The array is large enough for a complete list, and without one. */
  lemma RecordedFits(dso: Dso, list: seq<Dso>)
    requires dso in list && WellLinked(list) && Recorded(Direct(list), dso)
    ensures Fits(dso, list)
  {
    hide ListsDependencies, ReachSet, Without;
    var g, b := Direct(list), Blocked(dso, list);
    ReachLess<Dso>(g, b, dso);
    SubsetSize<Dso>(Nodes(g, b, dso), ReachSet<Dso>(g, dso));
    if dso.bfsBuilt {
      CompleteFits<Dso>(g, dso, dso.deps);
    } else {
      assert ReachSet<Dso>(g, dso) <= Elems<Dso>(list) by { ReachListed(g, dso); }
      SubsetSize<Dso>(ReachSet<Dso>(g, dso), Elems<Dso>(list));
      ElemsBound<Dso>(list);
    }
  }

  lemma ReachListed(g: Graph<Dso>, root: Dso)
    ensures ReachSet<Dso>(g, root) <= g.Keys
  {
  }

  /** And then no mark is in the way of the walk. */
  lemma RecordedUnblocked(dso: Dso, list: seq<Dso>)
    requires dso in list && WellLinked(list) && Recorded(Direct(list), dso)
    ensures Unblocked<Dso>(Direct(list), Blocked(dso, list), dso)
  {
    hide ListsDependencies;
    var g := Direct(list);
    forall x | x in Blocked(dso, list)
      ensures !Reachable<Dso>(g, dso, x)
    {
      assert x in g && x != dso && x !in dso.deps;
      ListedOrSelf(g, dso, x);
    }
  }

  lemma ListedOrSelf(g: Graph<Dso>, d: Dso, x: Dso)
    requires d in g && x in g && ListsDependencies<Dso>(g, d, d.deps)
    ensures Reachable<Dso>(g, d, x) ==> x == d || x in d.deps
  {
    hide FoundInOrder, OnceFrom;
    if Reachable<Dso>(g, d, x) && x != d {
      var n: nat :| x in After<Dso>(g, d, n);
      assert n > 0;
      assert ReachablePlus<Dso>(g, d, x);
    }
  }

  /** The list that extend_bfs_deps leaves fits if and only if the DSOs it misses are no more than the direct
      dependencies repeated, and one if the DSO depends on itself. */
  lemma ExtendedFitsIff(dso: Dso, list: seq<Dso>, stale: set<Dso>)
    requires dso in list && WellLinked(list) && dso.bfsBuilt && MarkedIn(list) == {}
    requires Elems<Dso>(Direct(list)[dso]) <= Elems<Dso>(list) && dso.deps == StaleBfs<Dso>(Direct(list), Direct(list)[dso], 0, stale)
    ensures var g := Direct(list);
            Fits(dso, list) <==>
            Missed<Dso>(g, dso, stale) <= |g[dso]| - |Elems<Dso>(g[dso])| + if dso in PlusSet<Dso>(g, dso) then 1 else 0
  {
    hide StaleBfs, Missed, PlusSet, ReachSet;
    var g := Direct(list);
    assert Blocked(dso, list) == {};
    WithoutNone<Dso>(g);
    StaleFitsIff<Dso>(g, dso, stale);
  }

  /** The outer loop: resume the innermost unfinished node, emit the one it ends at. */
  method WalkAll(dso: Dso, queue: array<Dso?>, ghost list: seq<Dso>, ghost g: Graph<Dso>, ghost blocked: set<Dso>)
    returns (ok: bool, qpos: nat, ghost order: seq<Dso>)
    requires dso in list && GraphIs(list, g) && Closed<Dso>(g) && dso in g && dso !in blocked && queue.Length > 0
    requires MarkedIn(list) - {dso} == blocked
    modifies queue, list`nextDep, list`mark
    ensures !ok ==> queue.Length < |Nodes(g, blocked, dso)|
    ensures ok ==> ConstructorOrder<Dso>(Without<Dso>(g, blocked), dso, order) && qpos == |order| <= queue.Length
    ensures ok ==> Elems<Dso>(order) !! blocked && MarkedIn(list) == Elems<Dso>(order) + blocked
    ensures ok ==> forall i :: 0 <= i < qpos ==> queue[i] == order[i]
  {
    hide WalkInvariant, Mirrors, Laid, ConstructorOrder, GraphIs, MarkedIn, Nodes, Without;
    ok, qpos, order := true, 0, [];
    ghost var w := Start<Dso>(dso, Cursors(list));
    StartWalk<Dso>(g, blocked, dso, Cursors(list));
    NothingLaid(queue);
    var spos: nat := PushPath(queue, queue.Length, dso, 0, [], []);
    assert [dso] + [] == w.path;
    BeginMirror(dso, list, g, blocked);
    while spos < queue.Length
      invariant WalkInvariant<Dso>(g, blocked, dso, w) && Mirrors(list, g, blocked, w)
      invariant Laid(queue, qpos, spos, w.done, w.path)
      decreases Nodes(g, blocked, dso) - w.Marked(), |w.path|
    {
      ok, qpos, spos, w := WalkOne(queue, qpos, spos, list, g, blocked, dso, w);
      if !ok {
        return;
      }
    }
    PathEmpty(queue, qpos, spos, w.done, w.path);
    WalkDone<Dso>(g, blocked, dso, w);
    DoneUnblocked(g, blocked, dso, w);
    order := w.done;
    MirrorMarks(list, g, blocked, w);
  }

  lemma DoneUnblocked(g: Graph<Dso>, blocked: set<Dso>, root: Dso, w: Walk<Dso>)
    requires WalkInvariant<Dso>(g, blocked, root, w)
    ensures Elems<Dso>(w.done) !! blocked
  {
  }

  /** One round of the outer loop. */
  method WalkOne(queue: array<Dso?>, qpos0: nat, spos0: nat, ghost list: seq<Dso>,
                 ghost g: Graph<Dso>, ghost blocked: set<Dso>, ghost root: Dso, ghost w0: Walk<Dso>)
    returns (ok: bool, qpos: nat, spos: nat, ghost w: Walk<Dso>)
    requires WalkInvariant<Dso>(g, blocked, root, w0) && Mirrors(list, g, blocked, w0)
    requires Laid(queue, qpos0, spos0, w0.done, w0.path) && spos0 < queue.Length
    modifies queue, list`nextDep, list`mark
    ensures !ok ==> queue.Length < |Nodes(g, blocked, root)|
    ensures ok ==> WalkInvariant<Dso>(g, blocked, root, w) && Mirrors(list, g, blocked, w) && Laid(queue, qpos, spos, w.done, w.path)
    ensures ok ==> var nodes := Nodes(g, blocked, root);
                   nodes - w.Marked() < nodes - w0.Marked() || (w.Marked() == w0.Marked() && |w.path| < |w0.path|)
  {
    hide WalkInvariant, Mirrors, Laid, Nodes;
    PathTop(queue, qpos0, spos0, w0.done, w0.path);
    qpos := qpos0;
    var p := queue[spos0];
    var p1;
    ok, p1, spos, w := WalkDown(p, queue, spos0 + 1, qpos0, list, g, blocked, root, w0);
    if !ok {
      return;
    }
    DownFacts(p1, queue, qpos0, spos, list, g, blocked, root, w);
    if qpos0 == spos {
      ok := false;
      return;
    }
    EmitWalk<Dso>(g, blocked, root, w);
    qpos := PushDone(queue, qpos0, p1, spos, w.done, w.path[1..]);
    EmitShape(w);
    EmitMirror(list, g, blocked, w);
    w := Emit<Dso>(w);
  }

  lemma NothingLaid(queue: array<Dso?>)
    ensures Laid(queue, 0, queue.Length, [], [])
  {
  }

  /** The walk begins at the root. */
  method BeginMirror(dso: Dso, ghost list: seq<Dso>, ghost g: Graph<Dso>, ghost blocked: set<Dso>)
    requires dso in list && GraphIs(list, g) && MarkedIn(list) - {dso} == blocked
    modifies dso`nextDep, dso`mark
    ensures Mirrors(list, g, blocked, Start<Dso>(dso, old(Cursors(list))))
  {
    hide MarkedIn, GraphIs;
    dso.nextDep := 0;
    MarkOne(dso, list);
    assert Cursors(list) == old(Cursors(list))[dso := 0];
    assert Start<Dso>(dso, old(Cursors(list))).Marked() == {dso};
  }

  lemma PathTop(queue: array<Dso?>, qpos: int, spos: int, done: seq<Dso>, path: seq<Dso>)
    requires Laid(queue, qpos, spos, done, path) && spos < queue.Length
    ensures path != [] && queue[spos] == path[0] && Laid(queue, qpos, spos + 1, done, path[1..])
  {
  }

  lemma PathEmpty(queue: array<Dso?>, qpos: int, spos: int, done: seq<Dso>, path: seq<Dso>)
    requires Laid(queue, qpos, spos, done, path) && spos >= queue.Length
    ensures path == [] && qpos == |done| <= queue.Length && forall i :: 0 <= i < qpos ==> queue[i] == done[i]
  {
  }

  lemma EmitShape(w: Walk<Dso>)
    requires w.path != []
    ensures Emit<Dso>(w).done == w.done + [w.path[0]] && Emit<Dso>(w).path == w.path[1..]
    ensures Emit<Dso>(w).Marked() == w.Marked()
  {
    assert w.path == [w.path[0]] + w.path[1..];
  }

  lemma EmitMirror(list: seq<Dso>, g: Graph<Dso>, blocked: set<Dso>, w: Walk<Dso>)
    requires Mirrors(list, g, blocked, w) && w.path != []
    ensures Mirrors(list, g, blocked, Emit<Dso>(w))
  {
    EmitShape(w);
  }

  lemma MirrorMarks(list: seq<Dso>, g: Graph<Dso>, blocked: set<Dso>, w: Walk<Dso>)
    requires Mirrors(list, g, blocked, w) && w.path == []
    ensures MarkedIn(list) == Elems<Dso>(w.done) + blocked
  {
  }

  /** The queue, up to its NULL entry; no memory for it; a DSO whose constructors were under way in a thread that a fork has
      left behind; or a store that falls outside the array, or on a cell of it that is still in use. */
  datatype Queueing = Queued(queue: array<Dso?>) | NoMemory | Inconsistent | Overrun

  ghost predicate SomeLost(order: seq<Dso>)
    reads order`lost
  {
    exists i :: 0 <= i < |order| && order[i].lost
  }

  /** Walk, end the queue, and take the marks back.  Every store finds a free cell if and only if there is one for each DSO
      the walk comes to, and one more. */
  method FillQueue(dso: Dso, cnt: nat, ghost list: seq<Dso>, ghost g: Graph<Dso>, ghost blocked: set<Dso>)
    returns (ok: bool, queue: array<Dso?>, qpos: nat, ghost order: seq<Dso>)
    requires dso in list && GraphIs(list, g) && Closed<Dso>(g) && dso in g && cnt > 0
    requires MarkedIn(list) - {dso} == blocked
    modifies list`mark, list`nextDep
    ensures ok <==> |Nodes(g, blocked, dso)| < cnt
    ensures ok ==> ConstructorOrder<Dso>(Without<Dso>(g, blocked), dso, order) && fresh(queue) && qpos == |order| && IsQueue(queue, order)
    ensures ok ==> MarkedIn(list) == blocked && forall d :: d in order ==> !d.mark
  {
    hide ConstructorOrder, MarkedIn, GraphIs, Closed, Nodes, Without;
    queue := new Dso?[cnt](i => null);
    ok, qpos, order := WalkAll(dso, queue, list, g, blocked);
    if !ok {
      return;
    }
    OrderIsReach(g, blocked, dso, order);
    if qpos == cnt {
      ok := false;
      return;
    }
    queue[qpos] := null;
    GraphKeys(list, g);
    UnmarkQueue(queue, qpos, order, list);
    NoneMarked(order, list);
  }

  lemma GraphKeys(list: seq<Dso>, g: Graph<Dso>)
    requires GraphIs(list, g)
    ensures g.Keys == Elems<Dso>(list)
  {
  }

  /** Queue the constructors of everything `dso` depends on, dependencies first; what is marked and not listed is passed
      over.  Unless the array is overrun, marks are only cleared. */
  method QueueCtors(dso: Dso, head: Dso, memory: bool, ghost list: seq<Dso>) returns (r: Queueing, ghost order: seq<Dso>)
    requires list != [] && head == list[0] && NextOk(list) && dso in list && WellLinked(list)
    requires Elems<Dso>(dso.deps) <= Elems<Dso>(list)
    modifies list`mark, list`nextDep
    ensures r.NoMemory? <==> !memory
    ensures r.Overrun? <==> memory && !old(Fits(dso, list))
    ensures !r.Overrun? ==> MarkedIn(list) <= old(MarkedIn(list))
    ensures memory && !r.Overrun? ==> ConstructorOrder<Dso>(Without<Dso>(Direct(list), old(Blocked(dso, list))), dso, order)
    ensures memory && !r.Overrun? ==> MarkedIn(list) == old(Blocked(dso, list)) && forall d :: d in order ==> !d.mark
    ensures Recorded(Direct(list), dso) ==> !r.Overrun? && (memory ==> ConstructorOrder<Dso>(Direct(list), dso, order))
    ensures r.Inconsistent? <==> memory && !r.Overrun? && SomeLost(order)
    ensures r.Queued? ==> fresh(r.queue) && IsQueue(r.queue, order)
  {
    hide ConstructorOrder, MarkedIn, SomeLost, NextOk, GraphIs, Closed, Nodes, Without, Recorded, Unblocked, Direct, Fits,
         Cells;
    order := [];
    LinkedGraph(list);
    FitsIs(dso, list);
    ghost var g, blocked := Direct(list), Blocked(dso, list);
    if Recorded(g, dso) {
      RecordedFits(dso, list);
      RecordedUnblocked(dso, list);
    }
    var cnt := SizeQueue(dso, head, list);
    if !memory {
      return NoMemory, order;
    }
    var ok, queue, qpos;
    ok, queue, qpos, order := FillQueue(dso, cnt, list, g, blocked);
    assert Direct(list) == g && Recorded(g, dso) == old(Recorded(g, dso));
    if !ok {
      return Overrun, order;
    }
    if Recorded(g, dso) {
      OrderWithout<Dso>(g, blocked, dso, order);
    }
    var lost := AnyLost(queue, qpos, order);
    r := if lost then Inconsistent else Queued(queue);
  }

  lemma FitsIs(dso: Dso, list: seq<Dso>)
    requires WellLinked(list)
    ensures Fits(dso, list) <==> |Nodes(Direct(list), Blocked(dso, list), dso)| < Cells(dso, list)
    ensures Cells(dso, list) > 0
  {
  }

  lemma LinkedGraph(list: seq<Dso>)
    requires WellLinked(list)
    ensures GraphIs(list, Direct(list)) && Closed<Dso>(Direct(list))
  {
  }

  ghost predicate IsQueue(queue: array<Dso?>, order: seq<Dso>)
    reads queue
  {
    |order| < queue.Length && queue[|order|] == null && forall i :: 0 <= i < |order| ==> queue[i] == order[i]
  }

  /** Was a constructor of the queue under way in a thread that is gone? */
  method AnyLost(queue: array<Dso?>, qpos: nat, ghost order: seq<Dso>) returns (lost: bool)
    requires qpos == |order| <= queue.Length && forall i :: 0 <= i < qpos ==> queue[i] == order[i]
    ensures lost <==> SomeLost(order)
  {
    for i := 0 to qpos
      invariant forall k :: 0 <= k < i ==> !order[k].lost
    {
      assert queue[i] == order[i];
      if queue[i].lost {
        return true;
      }
    }
    lost := false;
  }

  lemma OrderIsReach(g: Graph<Dso>, blocked: set<Dso>, root: Dso, order: seq<Dso>)
    requires ConstructorOrder<Dso>(Without<Dso>(g, blocked), root, order)
    ensures Elems<Dso>(order) == Nodes(g, blocked, root) <= g.Keys && |order| == |Nodes(g, blocked, root)|
  {
    hide Reachable;
    DistinctCount<Dso>(order);
  }

  lemma NoneMarked(order: seq<Dso>, list: seq<Dso>)
    requires Elems<Dso>(order) <= Elems<Dso>(list) && MarkedIn(list) !! Elems<Dso>(order)
    ensures forall d :: d in order ==> !d.mark
  {
    forall d | d in order
      ensures !d.mark
    {
      assert d in Elems<Dso>(order) && d in list && d !in MarkedIn(list);
    }
  }

  /** Take the marks of the queued DSOs back. */
  method UnmarkQueue(queue: array<Dso?>, qpos: nat, ghost order: seq<Dso>, ghost list: seq<Dso>)
    requires Elems<Dso>(order) <= Elems<Dso>(list) && qpos == |order| <= queue.Length
    requires forall i :: 0 <= i < qpos ==> queue[i] == order[i]
    modifies list`mark
    ensures MarkedIn(list) == old(MarkedIn(list)) - Elems<Dso>(order)
  {
    for i := 0 to qpos
      invariant MarkedIn(list) == old(MarkedIn(list)) - Elems<Dso>(order[..i])
    {
      assert queue[i] == order[i] && order[i] in Elems<Dso>(order) && order[..i + 1] == order[..i] + [order[i]];
      assert Elems<Dso>(order[..i + 1]) == Elems<Dso>(order[..i]) + {order[i]};
      ghost var m := MarkedIn(list);
      queue[i].mark := false;
      assert MarkedIn(list) == m - {order[i]};
    }
    assert order[..qpos] == order;
  }
}
