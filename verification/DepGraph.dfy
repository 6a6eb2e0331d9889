/**
 Dependency graphs as values: reachability, the breadth-first closure that
 extend_bfs_deps records and the depth-first order that queue_ctors emits.
 A graph maps every node to the sequence of its direct dependencies.
 */
module DepGraph {

  type Graph<T(==)> = map<T, seq<T>>

  ghost predicate Closed<T>(g: Graph<T>) {
    forall u :: u in g ==> forall v :: v in g[u] ==> v in g
  }

  function Elems<T>(s: seq<T>): (r: set<T>)
    ensures (forall x :: x in r ==> x in s) && (forall x :: x in s ==> x in r)
  {
    set x | x in s
  }

  // ---- reachability ------------------------------------------------------------------------

  /** Nodes at the end of some path of exactly `n` edges from `u`. */
  ghost function After<T>(g: Graph<T>, u: T, n: nat): (r: set<T>)
  {
    if n == 0 then {u} else set w, v | w in After(g, u, n - 1) && w in g && v in g[w] :: v
  }

  ghost predicate Reachable<T>(g: Graph<T>, u: T, v: T) {
    exists n: nat :: v in After(g, u, n)
  }

  /** Reachable by at least one edge. */
  ghost predicate ReachablePlus<T>(g: Graph<T>, u: T, v: T) {
    exists n: nat :: n > 0 && v in After(g, u, n)
  }

  lemma ReachSelf<T>(g: Graph<T>, u: T)
    ensures Reachable(g, u, u)
  {
    assert u in After(g, u, 0);
  }

  lemma AfterStep<T>(g: Graph<T>, u: T, n: nat, w: T, v: T)
    requires w in After(g, u, n) && w in g && v in g[w]
    ensures v in After(g, u, n + 1)
  {
  }

  lemma ReachStep<T>(g: Graph<T>, u: T, w: T, v: T)
    requires Reachable(g, u, w) && w in g && v in g[w]
    ensures ReachablePlus(g, u, v) && Reachable(g, u, v)
  {
    var n: nat :| w in After(g, u, n);
    AfterStep(g, u, n, w, v);
  }

  lemma PlusIsReachable<T>(g: Graph<T>, u: T, v: T)
    requires ReachablePlus(g, u, v)
    ensures Reachable(g, u, v)
  {
  }

  /** A set that holds the start and is closed under edges holds everything reachable. */
  lemma {:induction false} AfterWithin<T>(g: Graph<T>, u: T, n: nat, s: set<T>)
    requires u in s && forall w, v :: w in s && w in g && v in g[w] ==> v in s
    ensures After(g, u, n) <= s
  {
    if n > 0 {
      AfterWithin(g, u, n - 1, s);
    }
  }

  lemma ReachWithin<T>(g: Graph<T>, u: T, s: set<T>)
    requires u in s && forall w, v :: w in s && w in g && v in g[w] ==> v in s
    ensures forall v :: Reachable(g, u, v) ==> v in s
  {
    forall v | Reachable(g, u, v)
      ensures v in s
    {
      var n: nat :| v in After(g, u, n);
      AfterWithin(g, u, n, s);
    }
  }

  // ---- breadth first --------------------------------------------------------------------------

  /** The entries of `ds` not in `seen`, first occurrences only. */
  function Fresh<T(==)>(ds: seq<T>, seen: set<T>): (r: seq<T>)
  {
    if ds == [] then []
    else if ds[0] in seen then Fresh(ds[1..], seen)
    else [ds[0]] + Fresh(ds[1..], seen + {ds[0]})
  }

  /** Process entry `i` and those after it: each appends its dependencies that are not listed yet. */
  function Bfs<T(==)>(g: Graph<T>, q: seq<T>, i: nat): (r: seq<T>)
    requires i <= |q| && Closed(g) && Elems(q) <= g.Keys
    decreases g.Keys - Elems(q), |q| - i
  {
    if i == |q| then q
    else
      BfsProgress(g, q, i);
      Bfs(g, Grown(g, q, i), i + 1)
  }

  /** The list once entry `i` is processed. */
  function Grown<T(==)>(g: Graph<T>, q: seq<T>, i: nat): (r: seq<T>)
    requires i < |q| && q[i] in g
  {
    q + Fresh(g[q[i]], Elems(q))
  }

  lemma BfsProgress<T>(g: Graph<T>, q: seq<T>, i: nat)
    requires i < |q| && Closed(g) && Elems(q) <= g.Keys
    ensures var r := Grown(g, q, i);
            && q <= r && Elems(r) == Elems(q) + Elems(g[q[i]]) && Elems(r) <= g.Keys
            && (r == q || g.Keys - Elems(r) < g.Keys - Elems(q))
  {
    var f := Fresh(g[q[i]], Elems(q));
    var r := Grown(g, q, i);
    FreshFacts(g[q[i]], Elems(q));
    assert Elems(r) == Elems(q) + Elems(f);
    if f != [] {
      assert f[0] in g.Keys - Elems(q) && f[0] !in g.Keys - Elems(r);
    }
  }

  ghost predicate Distinct<T>(s: seq<T>) {
    forall i, j :: 0 <= i < j < |s| ==> s[i] != s[j]
  }

  lemma {:induction false} FreshFacts<T>(ds: seq<T>, seen: set<T>)
    ensures var f := Fresh(ds, seen);
            && Distinct(f)
            && (forall x :: x in f <==> x in ds && x !in seen)
  {
    if ds != [] {
      var s1 := if ds[0] in seen then seen else seen + {ds[0]};
      FreshFacts(ds[1..], s1);
      assert ds == [ds[0]] + ds[1..];
    }
  }

  lemma {:induction false} FreshSnoc<T>(ds: seq<T>, seen: set<T>, x: T)
    ensures var f := Fresh(ds, seen); Fresh(ds + [x], seen) == if x in seen || x in f then f else f + [x]
    decreases |ds|
  {
    if ds == [] {
      assert [] + [x] == [x] && [x][1..] == [];
    } else {
      assert (ds + [x])[1..] == ds[1..] + [x];
      FreshSnoc(ds[1..], if ds[0] in seen then seen else seen + {ds[0]}, x);
    }
  }

  /** Where `x` stands first in `ds`. */
  function First<T(==)>(ds: seq<T>, x: T): (n: nat)
    ensures n <= |ds| && (n < |ds| ==> ds[n] == x) && forall k :: 0 <= k < n ==> ds[k] != x
  {
    if ds == [] || ds[0] == x then 0 else 1 + First(ds[1..], x)
  }

  lemma {:induction false} FreshEntry<T>(ds: seq<T>, seen: set<T>, i: nat)
    requires i < |Fresh(ds, seen)|
    ensures var f := Fresh(ds, seen); f[i] in ds && f[i] !in seen && (i > 0 ==> f[i] != f[0])
  {
    if ds[0] in seen {
      FreshEntry(ds[1..], seen, i);
    } else if i > 0 {
      FreshEntry(ds[1..], seen + {ds[0]}, i - 1);
    }
  }

  /** Fresh entries come in the order in which they stand first. */
  lemma {:induction false} FreshInOrder<T>(ds: seq<T>, seen: set<T>, i: nat, j: nat)
    requires i < j < |Fresh(ds, seen)|
    ensures First(ds, Fresh(ds, seen)[i]) < First(ds, Fresh(ds, seen)[j]) < |ds|
  {
    FreshEntry(ds, seen, i);
    FreshEntry(ds, seen, j);
    if ds[0] in seen {
      FreshInOrder(ds[1..], seen, i, j);
    } else if i > 0 {
      FreshInOrder(ds[1..], seen + {ds[0]}, i - 1, j - 1);
    }
  }

  /** Entries from `n` on are pairwise distinct and differ from all before them. */
  ghost predicate OnceFrom<T>(q: seq<T>, n: nat) {
    forall i, j :: 0 <= i < j < |q| && n <= j ==> q[i] != q[j]
  }

  /** Every entry below `i` has its dependencies listed. */
  ghost predicate Processed<T>(g: Graph<T>, q: seq<T>, i: nat)
    requires i <= |q| && Elems(q) <= g.Keys
  {
    forall k :: 0 <= k < i ==> Elems(g[q[k]]) <= Elems(q)
  }

  /** An entry listed earlier (from `n` on) was found no later: whatever entry leads to the later one,
      an entry no later in the list, and before the earlier one itself, leads to that. */
  ghost predicate FoundInOrder<T>(g: Graph<T>, q: seq<T>, n: nat)
    requires Elems(q) <= g.Keys
  {
    forall j, j', k' :: n <= j < j' < |q| && 0 <= k' < |q| && Leads(g, q, k', j') ==> LedToBy(g, q, j, k')
  }

  /** Entry `j` is a direct dependency of entry `k`. */
  ghost predicate Leads<T>(g: Graph<T>, q: seq<T>, k: int, j: int)
    requires 0 <= k < |q| && 0 <= j < |q| && Elems(q) <= g.Keys
  {
    q[j] in g[q[k]]
  }

  /** Some entry before entry `j`, and no later than entry `last`, leads to it. */
  ghost predicate LedToBy<T>(g: Graph<T>, q: seq<T>, j: int, last: int)
    requires 0 <= j < |q| && Elems(q) <= g.Keys
  {
    exists k :: 0 <= k <= last && k < j && Leads(g, q, k, j)
  }

  /** What the list satisfies while entry `i` is next: the first `n` entries were given. */
  ghost predicate BfsInvariant<T>(g: Graph<T>, q: seq<T>, i: nat, n: nat) {
    && Closed(g) && n <= |q| && i <= |q| && Elems(q) <= g.Keys
    && OnceFrom(q, n)
    && Processed(g, q, i)
    && (var last := i - 1; forall j :: n <= j < |q| ==> LedToBy(g, q, j, last))
    && FoundInOrder(g, q, n)
  }

  lemma BfsStart<T>(g: Graph<T>, q: seq<T>)
    requires Closed(g) && Elems(q) <= g.Keys
    ensures BfsInvariant(g, q, 0, |q|)
  {
  }

  lemma GrownOnce<T>(g: Graph<T>, q: seq<T>, i: nat, n: nat)
    requires n <= |q| && i < |q| && q[i] in g && OnceFrom(q, n)
    ensures OnceFrom(Grown(g, q, i), n)
  {
    FreshFacts(g[q[i]], Elems(q));
    var f, r := Fresh(g[q[i]], Elems(q)), Grown(g, q, i);
    forall a, b | 0 <= a < b < |r| && n <= b
      ensures r[a] != r[b]
    {
      if b >= |q| {
        assert r[b] == f[b - |q|] && r[b] in f;
        if a < |q| {
          assert r[a] in q;
        }
      }
    }
  }

  lemma GrownLed<T>(g: Graph<T>, q: seq<T>, i: nat, n: nat, j: nat)
    requires BfsInvariant(g, q, i, n) && i < |q| && n <= j < |Grown(g, q, i)|
    requires Elems(Grown(g, q, i)) <= g.Keys
    ensures LedToBy(g, Grown(g, q, i), j, i)
  {
    var f, r := Fresh(g[q[i]], Elems(q)), Grown(g, q, i);
    if j < |q| {
      assert LedToBy(g, q, j, i - 1);
      var k :| 0 <= k <= i - 1 && k < j && Leads(g, q, k, j);
      assert Leads(g, r, k, j);
    } else {
      FreshFacts(g[q[i]], Elems(q));
      assert r[j] == f[j - |q|] && r[j] in f;
      assert Leads(g, r, i, j);
    }
  }

  lemma BfsStep<T>(g: Graph<T>, q: seq<T>, i: nat, n: nat)
    requires BfsInvariant(g, q, i, n) && i < |q|
    ensures BfsInvariant(g, Grown(g, q, i), i + 1, n)
  {
    var r := Grown(g, q, i);
    BfsProgress(g, q, i);
    GrownOnce(g, q, i, n);
    forall j | n <= j < |r|
      ensures LedToBy(g, r, j, i)
    {
      GrownLed(g, q, i, n, j);
    }
    forall j, j', k' | n <= j < j' < |r| && 0 <= k' < |r| && Leads(g, r, k', j')
      ensures LedToBy(g, r, j, k')
    {
      GrownInOrder(g, q, i, n, j, j', k');
    }
  }

  lemma GrownInOrder<T>(g: Graph<T>, q: seq<T>, i: nat, n: nat, j: nat, j': nat, k': nat)
    requires BfsInvariant(g, q, i, n) && i < |q| && OnceFrom(Grown(g, q, i), n)
    requires var r := Grown(g, q, i);
             Elems(r) <= g.Keys && n <= j < j' < |r| && k' < |r| && Leads(g, r, k', j')
    ensures LedToBy(g, Grown(g, q, i), j, k')
  {
    var r := Grown(g, q, i);
    if k' < i {
      assert r[j'] in Elems(g[q[k']]);
      var m :| 0 <= m < |q| && q[m] == r[j'];
      assert r[m] == r[j'] && j' < |q|;
      assert Leads(g, q, k', j');
      assert LedToBy(g, q, j, k');
      var k :| 0 <= k <= k' && k < j && Leads(g, q, k, j);
      assert Leads(g, r, k, j);
    } else {
      GrownLed(g, q, i, n, j);
      var k :| 0 <= k <= i && k < j && Leads(g, r, k, j);
    }
  }

  lemma {:induction false} BfsFinishes<T>(g: Graph<T>, q: seq<T>, i: nat, n: nat)
    requires BfsInvariant(g, q, i, n)
    ensures var r := Bfs(g, q, i); BfsInvariant(g, r, |r|, n) && q <= r
    decreases g.Keys - Elems(q), |q| - i
  {
    if i < |q| {
      BfsProgress(g, q, i);
      BfsStep(g, q, i, n);
      BfsFinishes(g, Grown(g, q, i), i + 1, n);
    }
  }

  // ---- what the breadth-first list is -----------------------------------------------------------

  /** `q` lists `u`'s dependencies: the direct ones first, then every other node reachable by at least one
      edge, once each, in breadth-first order. */
  ghost predicate ListsDependencies<T>(g: Graph<T>, u: T, q: seq<T>)
    requires u in g
  {
    && g[u] <= q && Elems(q) <= g.Keys
    && OnceFrom(q, |g[u]|)
    && (forall v :: v in q ==> ReachablePlus(g, u, v))
    && (forall v :: v in g && ReachablePlus(g, u, v) ==> v in q)
    && FoundInOrder(g, q, |g[u]|)
  }

  lemma BfsListsDependencies<T>(g: Graph<T>, u: T)
    requires Closed(g) && u in g
    ensures Elems(g[u]) <= g.Keys && ListsDependencies(g, u, Bfs(g, g[u], 0))
  {
    var d, r := g[u], Bfs(g, g[u], 0);
    BfsStart(g, d);
    BfsFinishes(g, d, 0, |d|);
    forall j | 0 <= j < |r|
      ensures ReachablePlus(g, u, r[j])
    {
      ListedIsReachable(g, u, r, j);
    }
    forall v | v in g && ReachablePlus(g, u, v)
      ensures v in r
    {
      ReachableIsListed(g, u, r, v);
    }
  }

  lemma {:induction false} ListedIsReachable<T>(g: Graph<T>, u: T, r: seq<T>, j: nat)
    requires Closed(g) && u in g && g[u] <= r && BfsInvariant(g, r, |r|, |g[u]|) && j < |r|
    ensures ReachablePlus(g, u, r[j])
    decreases j
  {
    if j < |g[u]| {
      assert r[j] in g[u];
      ReachSelf(g, u);
      ReachStep(g, u, u, r[j]);
    } else {
      assert LedToBy(g, r, j, |r| - 1);
      var k :| 0 <= k < j && Leads(g, r, k, j);
      ListedIsReachable(g, u, r, k);
      PlusIsReachable(g, u, r[k]);
      assert r[k] in Elems(r);
      ReachStep(g, u, r[k], r[j]);
    }
  }

  lemma ReachableIsListed<T>(g: Graph<T>, u: T, r: seq<T>, v: T)
    requires Closed(g) && u in g && g[u] <= r && BfsInvariant(g, r, |r|, |g[u]|) && ReachablePlus(g, u, v)
    ensures v in r
  {
    var n: nat :| n > 0 && v in After(g, u, n);
    AfterListed(g, u, r, n);
  }

  lemma {:induction false} AfterListed<T>(g: Graph<T>, u: T, r: seq<T>, n: nat)
    requires Closed(g) && u in g && g[u] <= r && BfsInvariant(g, r, |r|, |g[u]|) && n > 0
    ensures After(g, u, n) <= Elems(r)
  {
    if n == 1 {
      assert After(g, u, 0) == {u};
    } else {
      AfterListed(g, u, r, n - 1);
    }
    forall v | v in After(g, u, n)
      ensures v in r
    {
      var w :| w in After(g, u, n - 1) && w in g && v in g[w];
      if n > 1 {
        var k :| 0 <= k < |r| && r[k] == w;
        assert v in Elems(g[r[k]]);
      } else {
        var k :| 0 <= k < |g[u]| && g[u][k] == v;
        assert r[k] == v;
      }
    }
  }

  /** Breadth-first order is order of distance: whatever path leads to a later entry, one no longer leads
      to an earlier entry. */
  lemma {:induction false} BfsLevels<T>(g: Graph<T>, u: T, q: seq<T>, j: nat, j': nat, n: nat) returns (m: nat)
    requires Closed(g) && u in g && ListsDependencies(g, u, q)
    requires j <= j' < |q| && n > 0 && q[j'] in After(g, u, n)
    ensures 0 < m <= n && q[j] in After(g, u, m)
    decreases n
  {
    if j == j' {
      m := n;
    } else if j < |g[u]| {
      m := 1;
      assert u in After(g, u, 0) && q[j] == g[u][j];
      AfterStep(g, u, 0, u, q[j]);
    } else {
      var k, k' := StepBack(g, u, q, j, j', n);
      m := BfsLevels(g, u, q, k, k', n - 1);
      assert q[k] in Elems(q);
      AfterStep(g, u, m, q[k], q[j]);
      m := m + 1;
    }
  }

  lemma StepBack<T>(g: Graph<T>, u: T, q: seq<T>, j: nat, j': nat, n: nat) returns (k: nat, k': nat)
    requires Closed(g) && u in g && ListsDependencies(g, u, q)
    requires |g[u]| <= j < j' < |q| && n > 0 && q[j'] in After(g, u, n)
    ensures n > 1 && k <= k' < |q| && q[k'] in After(g, u, n - 1) && k < j && q[j] in g[q[k]]
  {
    var w :| w in After(g, u, n - 1) && w in g && q[j'] in g[w];
    NotDirect(g, u, q, j');
    assert n > 1;
    assert ReachablePlus(g, u, w);
    k' :| 0 <= k' < |q| && q[k'] == w;
    assert Leads(g, q, k', j') && LedToBy(g, q, j, k');
    k :| 0 <= k <= k' && k < j && Leads(g, q, k, j);
  }

  lemma NotDirect<T>(g: Graph<T>, u: T, q: seq<T>, j: nat)
    requires u in g && g[u] <= q && OnceFrom(q, |g[u]|) && |g[u]| <= j < |q|
    ensures q[j] !in g[u]
  {
    forall k | 0 <= k < |g[u]|
      ensures g[u][k] != q[j]
    {
      assert q[k] == g[u][k];
    }
  }

  // ---- nodes left out -------------------------------------------------------------------------------

  /** The entries of `ds` that are not in `blocked`. */
  function Keep<T(==)>(ds: seq<T>, blocked: set<T>): (r: seq<T>)
  {
    if ds == [] then []
    else (if ds[0] in blocked then [] else [ds[0]]) + Keep(ds[1..], blocked)
  }

  /** The graph without the edges that lead to a node of `blocked`. */
  function Without<T(==)>(g: Graph<T>, blocked: set<T>): (h: Graph<T>)
    ensures h.Keys == g.Keys
  {
    map u | u in g :: Keep(g[u], blocked)
  }

  lemma {:induction false} KeepIn<T>(ds: seq<T>, blocked: set<T>, v: T)
    ensures v in Keep(ds, blocked) <==> v in ds && v !in blocked
  {
    if ds != [] {
      KeepIn(ds[1..], blocked, v);
    }
  }

  lemma WithoutEdge<T>(g: Graph<T>, blocked: set<T>, u: T, v: T)
    requires u in g
    ensures v in Without(g, blocked)[u] <==> v in g[u] && v !in blocked
  {
    KeepIn(g[u], blocked, v);
  }

  lemma WithoutClosed<T>(g: Graph<T>, blocked: set<T>)
    requires Closed(g)
    ensures Closed(Without(g, blocked))
  {
    forall u, v | u in g && v in Without(g, blocked)[u]
      ensures v in g
    {
      WithoutEdge(g, blocked, u, v);
    }
  }

  lemma {:induction false} KeepAll<T>(ds: seq<T>, blocked: set<T>)
    requires forall v :: v in ds ==> v !in blocked
    ensures Keep(ds, blocked) == ds
  {
    if ds != [] {
      assert ds[0] in ds && forall v :: v in ds[1..] ==> v in ds;
      KeepAll(ds[1..], blocked);
    }
  }

  lemma WithoutNone<T>(g: Graph<T>)
    ensures Without(g, {}) == g
  {
    forall u | u in g
      ensures Keep(g[u], {}) == g[u]
    {
      KeepAll(g[u], {});
    }
  }

  // ---- depth first --------------------------------------------------------------------------------

  /** A depth-first walk: nodes emitted, the path to the current node (innermost first), and how many
      dependencies of each node have been looked at. */
  datatype Walk<!T(==)> = Walk(done: seq<T>, path: seq<T>, cursor: map<T, nat>) {
    function Marked(): set<T> {
      Elems(done) + Elems(path)
    }
  }

  /** The start of a node's dependency list has been visited, or was marked before the walk began. */
  ghost predicate Scanned<T>(g: Graph<T>, blocked: set<T>, w: Walk<T>, u: T) {
    && u in g && u in w.cursor && w.cursor[u] <= |g[u]|
    && forall k :: 0 <= k < w.cursor[u] ==> g[u][k] in w.Marked() + blocked
  }

  /** A dependency of an emitted node came first, or is one the emitted node is itself needed by. */
  ghost predicate DepsFirst<T>(g: Graph<T>, done: seq<T>) {
    forall i, v :: 0 <= i < |done| && done[i] in g && v in g[done[i]] ==> v in done[..i] || Reachable(g, v, done[i])
  }

  /** The walk never enters a node of `blocked`, the nodes that are marked before it begins. */
  ghost predicate WalkInvariant<T>(g: Graph<T>, blocked: set<T>, root: T, w: Walk<T>) {
    && Closed(g) && root in g && root in w.Marked() && w.Marked() <= g.Keys && w.Marked() !! blocked
    && Distinct(w.done + w.path)
    && (forall x :: x in w.Marked() ==> Reachable(Without(g, blocked), root, x))
    && (forall i :: 0 < i < |w.path| ==> w.path[i - 1] in g[w.path[i]])
    && (forall x :: x in w.path ==> Scanned(g, blocked, w, x))
    && (forall u :: u in w.done ==> Elems(g[u]) <= w.Marked() + blocked)
    && DepsFirst(Without(g, blocked), w.done)
  }

  /** The constructor order for `root`: everything it reaches, once each, dependencies first except
      around cycles. */
  ghost predicate ConstructorOrder<T>(g: Graph<T>, root: T, s: seq<T>) {
    && Distinct(s)
    && (forall v :: v in g ==> (v in s <==> Reachable(g, root, v)))
    && (forall v :: v in s ==> v in g)
    && (forall i, v :: 0 <= i < |s| && s[i] in g && v in g[s[i]] && !Reachable(g, v, s[i]) ==> v in s[..i])
  }

  function Start<T(==)>(root: T, cursor: map<T, nat>): (w: Walk<T>) {
    Walk([], [root], cursor[root := 0])
  }

  function Advance<T(==)>(w: Walk<T>): (r: Walk<T>)
    requires w.path != [] && w.path[0] in w.cursor
  {
    w.(cursor := w.cursor[w.path[0] := w.cursor[w.path[0]] + 1])
  }

  function Descend<T(==)>(w: Walk<T>, c: T): (r: Walk<T>) {
    w.(path := [c] + w.path, cursor := w.cursor[c := 0])
  }

  function Emit<T(==)>(w: Walk<T>): (r: Walk<T>)
    requires w.path != []
  {
    w.(done := w.done + [w.path[0]], path := w.path[1..])
  }

  lemma StartWalk<T>(g: Graph<T>, blocked: set<T>, root: T, cursor: map<T, nat>)
    requires Closed(g) && root in g && root !in blocked
    ensures WalkInvariant(g, blocked, root, Start(root, cursor))
  {
    ReachSelf(Without(g, blocked), root);
  }

  lemma AdvanceWalk<T>(g: Graph<T>, blocked: set<T>, root: T, w: Walk<T>)
    requires WalkInvariant(g, blocked, root, w) && w.path != []
    requires w.path[0] in w.cursor && w.path[0] in g && w.cursor[w.path[0]] < |g[w.path[0]]|
    requires g[w.path[0]][w.cursor[w.path[0]]] in w.Marked() + blocked
    ensures WalkInvariant(g, blocked, root, Advance(w))
  {
    hide Without;
    forall x | x in w.path
      ensures Scanned(g, blocked, Advance(w), x)
    {
      assert Scanned(g, blocked, w, x);
    }
  }

  lemma DescendWalk<T>(g: Graph<T>, blocked: set<T>, root: T, w: Walk<T>)
    requires WalkInvariant(g, blocked, root, w) && w.path != []
    requires w.path[0] in w.cursor && w.path[0] in g && w.cursor[w.path[0]] < |g[w.path[0]]|
    requires g[w.path[0]][w.cursor[w.path[0]]] !in w.Marked() + blocked
    ensures WalkInvariant(g, blocked, root, Descend(w, g[w.path[0]][w.cursor[w.path[0]]]))
  {
    hide Without, Reachable;
    var p := w.path[0];
    var c := g[p][w.cursor[p]];
    var r, h := Descend(w, c), Without(g, blocked);
    assert p in w.Marked() && c in g[p];
    WithoutEdge(g, blocked, p, c);
    ReachStep(h, root, p, c);
    assert r.Marked() == w.Marked() + {c};
    forall x | x in r.path
      ensures Scanned(g, blocked, r, x)
    {
      assert x == c || Scanned(g, blocked, w, x);
    }
    forall i, j | 0 <= i < j < |r.done + r.path|
      ensures (r.done + r.path)[i] != (r.done + r.path)[j]
    {
      DescendDistinct(w, c, i, j);
    }
  }

  lemma DescendDistinct<T>(w: Walk<T>, c: T, i: nat, j: nat)
    requires Distinct(w.done + w.path) && c !in w.Marked() && i < j < |w.done| + |w.path| + 1
    ensures var s := w.done + ([c] + w.path); s[i] != s[j]
  {
    var s, t, n := w.done + ([c] + w.path), w.done + w.path, |w.done|;
    assert forall k :: 0 <= k < |t| ==> t[k] in w.Marked();
    assert s[i] == if i < n then t[i] else if i == n then c else t[i - 1];
    assert s[j] == if j < n then t[j] else if j == n then c else t[j - 1];
  }

  /** Every node on the path leads to its innermost node. */
  lemma {:induction false} PathLeads<T>(g: Graph<T>, path: seq<T>, i: nat)
    requires forall k :: 0 < k < |path| ==> path[k] in g && path[k - 1] in g[path[k]]
    requires i < |path|
    ensures Reachable(g, path[i], path[0])
    decreases |path|
  {
    if i == 0 {
      ReachSelf(g, path[0]);
    } else {
      PathLeads(g, path[1..], i - 1);
      ReachStep(g, path[i], path[1], path[0]);
    }
  }

  lemma EmitWalk<T>(g: Graph<T>, blocked: set<T>, root: T, w: Walk<T>)
    requires WalkInvariant(g, blocked, root, w) && w.path != []
    requires w.path[0] in w.cursor && w.path[0] in g && w.cursor[w.path[0]] == |g[w.path[0]]|
    ensures WalkInvariant(g, blocked, root, Emit(w))
  {
    hide Reachable, Without;
    var p, r, h := w.path[0], Emit(w), Without(g, blocked);
    assert r.done + r.path == w.done + w.path;
    assert w.path == [p] + w.path[1..];
    assert r.Marked() == w.Marked();
    assert Scanned(g, blocked, w, p);
    assert Elems(g[p]) <= w.Marked() + blocked;
    forall x | x in r.path
      ensures Scanned(g, blocked, r, x)
    {
      assert Scanned(g, blocked, w, x);
    }
    forall v | v in h[p] && v !in w.done
      ensures Reachable(h, v, p)
    {
      WithoutEdge(g, blocked, p, v);
      assert v in Elems(g[p]);
      var k :| 0 <= k < |w.path| && w.path[k] == v;
      PathUnblocked(g, blocked, root, w);
      PathLeads(h, w.path, k);
    }
    EmitDepsFirst(h, w.done, p);
  }

  lemma PathUnblocked<T>(g: Graph<T>, blocked: set<T>, root: T, w: Walk<T>)
    requires WalkInvariant(g, blocked, root, w)
    ensures var h := Without(g, blocked);
            forall k :: 0 < k < |w.path| ==> w.path[k] in h && w.path[k - 1] in h[w.path[k]]
  {
    hide Without, Reachable;
    forall k | 0 < k < |w.path|
      ensures w.path[k] in g && w.path[k - 1] in Without(g, blocked)[w.path[k]]
    {
      assert w.path[k] in w.Marked() && w.path[k - 1] in w.Marked();
      WithoutEdge(g, blocked, w.path[k], w.path[k - 1]);
    }
  }

  lemma EmitDepsFirst<T>(g: Graph<T>, done: seq<T>, p: T)
    requires DepsFirst(g, done) && p in g
    requires forall v :: v in g[p] && v !in done ==> Reachable(g, v, p)
    ensures DepsFirst(g, done + [p])
  {
    var r := done + [p];
    forall i, v | 0 <= i < |r| && r[i] in g && v in g[r[i]]
      ensures v in r[..i] || Reachable(g, v, r[i])
    {
      if i < |done| {
        assert r[..i] == done[..i] && r[i] == done[i];
      } else {
        assert r[..i] == done;
      }
    }
  }

  lemma WalkDone<T>(g: Graph<T>, blocked: set<T>, root: T, w: Walk<T>)
    requires WalkInvariant(g, blocked, root, w) && w.path == []
    ensures ConstructorOrder(Without(g, blocked), root, w.done)
  {
    hide Without;
    assert w.done + w.path == w.done;
    assert w.Marked() == Elems(w.done);
    var h := Without(g, blocked);
    forall u, v | u in Elems(w.done) && u in h && v in h[u]
      ensures v in Elems(w.done)
    {
      WithoutEdge(g, blocked, u, v);
      assert v in Elems(g[u]);
    }
    ReachWithin(h, root, Elems(w.done));
  }

  /** Everything `root` reaches. */
  ghost function ReachSet<T>(g: Graph<T>, root: T): (nodes: set<T>) {
    set v | v in g && Reachable(g, root, v)
  }

  // ---- when nothing reachable is left out ------------------------------------------------------------

  lemma {:induction false} ReachTrans<T>(g: Graph<T>, u: T, v: T, n: nat)
    requires Reachable(g, u, v)
    ensures forall x :: x in After(g, v, n) ==> Reachable(g, u, x)
  {
    if n > 0 {
      ReachTrans(g, u, v, n - 1);
      forall x | x in After(g, v, n)
        ensures Reachable(g, u, x)
      {
        var w :| w in After(g, v, n - 1) && w in g && x in g[w];
        ReachStep(g, u, w, x);
      }
    }
  }

  ghost predicate Unblocked<T>(g: Graph<T>, blocked: set<T>, u: T) {
    forall x :: x in blocked ==> !Reachable(g, u, x)
  }

  lemma {:induction false} AfterWithout<T>(g: Graph<T>, blocked: set<T>, u: T, n: nat)
    requires Unblocked(g, blocked, u)
    ensures After(Without(g, blocked), u, n) == After(g, u, n)
  {
    if n > 0 {
      var h := Without(g, blocked);
      AfterWithout(g, blocked, u, n - 1);
      AfterLess(g, blocked, u, n);
      forall x | x in After(g, u, n)
        ensures x in After(h, u, n)
      {
        var w :| w in After(g, u, n - 1) && w in g && x in g[w];
        ReachStep(g, u, w, x);
        WithoutEdge(g, blocked, w, x);
        AfterStep(h, u, n - 1, w, x);
      }
    }
  }

  lemma ReachWithout<T>(g: Graph<T>, blocked: set<T>, u: T, x: T)
    requires Unblocked(g, blocked, u)
    ensures Reachable(Without(g, blocked), u, x) <==> Reachable(g, u, x)
  {
    if Reachable(g, u, x) {
      var n: nat :| x in After(g, u, n);
      AfterWithout(g, blocked, u, n);
    }
    if Reachable(Without(g, blocked), u, x) {
      var n: nat :| x in After(Without(g, blocked), u, n);
      AfterWithout(g, blocked, u, n);
    }
  }

  lemma UnblockedFrom<T>(g: Graph<T>, blocked: set<T>, u: T, v: T)
    requires Unblocked(g, blocked, u) && Reachable(g, u, v)
    ensures Unblocked(g, blocked, v)
  {
    forall x | x in blocked
      ensures !Reachable(g, v, x)
    {
      if Reachable(g, v, x) {
        var n: nat :| x in After(g, v, n);
        ReachTrans(g, u, v, n);
      }
    }
  }

  /** Then the order is that of the whole graph. */
  lemma OrderWithout<T>(g: Graph<T>, blocked: set<T>, root: T, s: seq<T>)
    requires Unblocked(g, blocked, root) && ConstructorOrder(Without(g, blocked), root, s)
    ensures ConstructorOrder(g, root, s)
  {
    hide Reachable, Without, Unblocked;
    var h := Without(g, blocked);
    forall v | v in g
      ensures v in s <==> Reachable(g, root, v)
    {
      ReachWithout(g, blocked, root, v);
    }
    forall i, v | 0 <= i < |s| && s[i] in g && v in g[s[i]] && !Reachable(g, v, s[i])
      ensures v in s[..i]
    {
      assert s[i] in s;
      ReachStep(g, root, s[i], v);
      UnblockedFrom(g, blocked, root, v);
      ReachWithout(g, blocked, v, s[i]);
      ReachedIsFree(g, blocked, root, v);
      WithoutEdge(g, blocked, s[i], v);
    }
  }

  lemma ReachedIsFree<T>(g: Graph<T>, blocked: set<T>, u: T, v: T)
    requires Unblocked(g, blocked, u) && Reachable(g, u, v)
    ensures v !in blocked
  {
  }

  /** Leaving edges out never adds to what is reached. */
  lemma ReachLess<T>(g: Graph<T>, blocked: set<T>, u: T)
    requires u in g
    ensures ReachSet(Without(g, blocked), u) <= ReachSet(g, u)
  {
    hide Without;
    var h := Without(g, blocked);
    forall v | v in ReachSet(h, u)
      ensures v in ReachSet(g, u)
    {
      var n: nat :| v in After(h, u, n);
      AfterLess(g, blocked, u, n);
    }
  }

  lemma {:induction false} AfterLess<T>(g: Graph<T>, blocked: set<T>, u: T, n: nat)
    ensures After(Without(g, blocked), u, n) <= After(g, u, n)
  {
    if n > 0 {
      AfterLess(g, blocked, u, n - 1);
      forall w, v | w in After(g, u, n - 1) && w in g && v in Without(g, blocked)[w]
        ensures v in g[w]
      {
        WithoutEdge(g, blocked, w, v);
      }
    }
  }

  // ---- how many nodes a walk can mark -------------------------------------------------------------

  lemma {:induction false} DistinctBound<T>(s: seq<T>, r: set<T>)
    requires Distinct(s) && Elems(s) <= r
    ensures |s| <= |r|
  {
    if s != [] {
      var t, x := s[..|s| - 1], s[|s| - 1];
      assert x in Elems(s);
      forall y | y in t
        ensures y in r - {x}
      {
        assert y in Elems(s);
      }
      DistinctBound(t, r - {x});
    }
  }

  lemma {:induction false} SubsetSize<T>(a: set<T>, b: set<T>)
    requires a <= b
    ensures |a| <= |b|
  {
    assert b == a + (b - a);
  }

  lemma {:induction false} ElemsBound<T>(s: seq<T>)
    ensures |Elems(s)| <= |s|
  {
    if s != [] {
      ElemsBound(s[1..]);
      assert Elems(s) == {s[0]} + Elems(s[1..]);
    }
  }
}
