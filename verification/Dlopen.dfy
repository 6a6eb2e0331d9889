/**
 What dlopen does to the loader's lists, and how a failing call takes it back: the
 DSO list, the global symbol chain, the list of TLS modules with its counters, and
 the head of the lazy-relocation list.
 */
module Dlopen {
  import opened DepGraph
  import opened StaleMarks
  import opened Dependencies

  ghost predicate Within(s: seq<Dso>, t: seq<Dso>) {
    forall d :: d in s ==> d in t
  }

  ghost predicate SymsNextOk(s: seq<Dso>)
    reads s`symsNext
  {
    forall i :: 0 <= i < |s| ==> s[i].symsNext == Nth(s, i + 1)
  }

  ghost predicate OffChain(list: seq<Dso>, syms: seq<Dso>)
    reads list`symsNext
  {
    forall d :: d in list && d !in syms ==> d.symsNext == null
  }

  /** The dependencies of listed DSOs are listed. */
  ghost predicate AllIn(list: seq<Dso>)
    reads list`deps, list`ndepsDirect
  {
    forall d :: d in list ==> Within(d.deps, list) && d.ndepsDirect <= |d.deps|
  }

  ghost predicate TlsNextOk(s: seq<Dso>)
    reads s`tlsNext
  {
    forall i :: 0 <= i < |s| ==> s[i].tlsNext == Nth(s, i + 1)
  }

  /** tls_cnt, tls_offset and tls_align. */
  datatype Counters = Counters(cnt: nat, offset: nat, align: nat)

  /** The lists at the time dlopen was called, and what is known of the recorded dependencies since then: that all are
      complete, and that nothing is left of a call that ran out of memory. */
  datatype Snapshot = Snapshot(list: seq<Dso>, syms: seq<Dso>, tls: seq<Dso>, exact: bool, clean: bool)

  /** The dependencies of a DSO have been loaded. */
  ghost predicate HasDeps(d: Dso)
    reads d`depsSet, d`deps, d`ndepsDirect
  {
    d.depsSet && d.ndepsDirect <= |d.deps| && (d.ndepsDirect == 0 ==> d.deps == [])
  }

  /** What a DSO has recorded. */
  datatype Entry = Entry(deps: seq<Dso>, direct: nat, built: bool, mark: bool)

  type Table = map<Dso, Entry>

  ghost function TableOf(list: seq<Dso>): (t: Table)
    reads list`deps, list`ndepsDirect, list`bfsBuilt, list`mark
    ensures t.Keys == Elems<Dso>(list)
  {
    map d | d in list :: Entry(d.deps, d.ndepsDirect, d.bfsBuilt, d.mark)
  }

  ghost predicate Shaped(t: Table) {
    forall d :: d in t ==> t[d].direct <= |t[d].deps|
  }

  ghost function GraphOf(t: Table): (g: Graph<Dso>)
    requires Shaped(t)
    ensures g.Keys == t.Keys
  {
    map d | d in t :: t[d].deps[..t[d].direct]
  }

  ghost function MarkedOf(t: Table): set<Dso> {
    set d | d in t && t[d].mark
  }

  /** Every closure that has been recorded is complete. */
  ghost predicate AllComplete(t: Table) {
    Shaped(t) && forall d :: d in t && t[d].built ==> ListsDependencies<Dso>(GraphOf(t), d, t[d].deps)
  }

  /** No mark is set, and nothing stands behind the direct dependencies of a DSO whose closure is not recorded. */
  ghost predicate NothingLeft(t: Table) {
    forall d :: d in t ==> !t[d].mark && (t[d].built || |t[d].deps| == t[d].direct)
  }

  ghost predicate Exact(list: seq<Dso>)
    reads list`deps, list`ndepsDirect, list`bfsBuilt, list`mark
  {
    AllComplete(TableOf(list))
  }

  ghost predicate Clean(list: seq<Dso>)
    reads list`deps, list`ndepsDirect, list`bfsBuilt, list`mark
  {
    NothingLeft(TableOf(list))
  }

  /** As a DSO is before its closure is recorded. */
  ghost predicate Blank(d: Dso)
    reads d`bfsBuilt, d`mark
  {
    !d.mark && !d.bfsBuilt
  }

  /** As a DSO is before its dependencies are loaded. */
  ghost predicate New(d: Dso)
    reads d`bfsBuilt, d`mark, d`depsSet, d`deps, d`ndepsDirect
  {
    Blank(d) && !d.depsSet && d.deps == [] && d.ndepsDirect == 0
  }

  class Loader {
    var head: Dso
    var tail: Dso
    var symsTail: Dso
    var tlsHead: Dso?
    var tlsTail: Dso?
    var tls: Counters
    var lazyHead: Dso?
    ghost var list: seq<Dso>
    ghost var syms: seq<Dso>
    ghost var modules: seq<Dso>

    /** The program alone, without TLS. */
    constructor (app: Dso, align: nat)
      requires app.next == null && app.symsNext == null && app.deps == [] && app.ndepsDirect == 0 && Blank(app)
      ensures Valid() && list == [app] && syms == [app] && modules == [] && Exact(list) && Clean(list)
    {
      head, tail, symsTail := app, app, app;
      tlsHead, tlsTail, lazyHead := null, null, null;
      tls := Counters(0, 0, align);
      list, syms, modules := [app], [app], [];
    }

    ghost predicate ListOk()
      reads this`list, this`head, this`tail, list`next
    {
      |list| > 0 && Distinct(list) && head == list[0] && tail == list[|list| - 1] && NextOk(list)
    }

    /** The chain find_sym follows starts at head; DSOs that are not on it have no link. */
    ghost predicate SymsOk()
      reads this`list, this`syms, this`head, this`symsTail, list`symsNext, syms`symsNext
    {
      && |syms| > 0 && Distinct(syms) && Within(syms, list) && syms[0] == head && symsTail == syms[|syms| - 1]
      && SymsNextOk(syms) && OffChain(list, syms)
    }

    ghost predicate TlsOk()
      reads this`list, this`modules, this`tlsHead, this`tlsTail, modules`tlsNext
    {
      TlsLinked(list)
    }

    ghost predicate DepsOk()
      reads this`list, list`deps, list`ndepsDirect
    {
      AllIn(list)
    }

    ghost predicate Valid()
      reads this, list, syms, modules
    {
      ListOk() && SymsOk() && TlsOk() && DepsOk()
    }

    /** Between calls every DSO has its dependencies recorded and is relocated. */
    ghost predicate Settled()
      reads this`list, list`depsSet, list`deps, list`ndepsDirect, list`relocated
    {
      forall d :: d in list ==> HasDeps(d) && d.relocated
    }

    /** During a call the lists have only grown, and what was there before depends on what was there before. */
    ghost predicate During(s: Snapshot)
      reads this, list, syms, modules, s.list
    {
      Valid() && Begun(s) && s.list <= list && s.syms <= syms && s.tls <= modules
    }

    /** add_syms. */
    method AddSyms(p: Dso)
      requires ListOk() && SymsOk() && p in list
      modifies this`symsTail, this`syms, list`symsNext
      ensures SymsOk() && syms == if p in old(syms) then old(syms) else old(syms) + [p]
    {
      OnChain(list, syms, symsTail, p);
      assert symsTail in list by { assert symsTail in syms; }
      hide ListOk, SymsNextOk, OffChain, Distinct, Within;
      if p.symsNext == null && symsTail != p {
        AppendSyms(p);
      }
    }

    method AppendSyms(p: Dso)
      requires ListOk() && SymsOk() && p in list && p !in syms
      modifies this`symsTail, this`syms, symsTail`symsNext
      ensures SymsOk() && syms == old(syms) + [p]
    {
      assert p.symsNext == null;
      symsTail.symsNext := p;
      symsTail := p;
      syms := syms + [p];
      ghost var was := old(syms);
      forall i | 0 <= i < |syms|
        ensures syms[i].symsNext == Nth(syms, i + 1)
      {
        if i < |was| - 1 {
          assert was[i] != was[|was| - 1];
        }
      }
    }

    /** revert_syms: every link from the old tail on is cut. */
    method RevertSyms(oldTail: Dso, ghost n: nat)
      requires ListOk() && SymsOk() && 0 < n <= |syms| && oldTail == syms[n - 1]
      modifies this`symsTail, this`syms, syms`symsNext
      ensures SymsOk() && syms == old(syms)[..n]
    {
      hide Cut, ListOk, SymsNextOk, OffChain, Distinct, Within;
      CutLinks(oldTail, list, syms, n);
      CutChain(list, syms, n);
      symsTail := oldTail;
      syms := syms[..n];
    }

    /** The end of the DSO list. */
    method AppendDso(p: Dso)
      requires ListOk() && SymsOk() && DepsOk() && TlsLinked(list + [p])
      requires p !in list && p.next == null && p.symsNext == null && p.deps == [] && p.ndepsDirect == 0
      modifies this`tail, this`list, tail`next, p`prev
      ensures Valid() && list == old(list) + [p]
    {
      hide ListOk, OffChain, Within, Distinct, SymsNextOk, TlsLinked, AllIn;
      ghost var was := list;
      TailListed();
      OffChainMore(was, syms, p);
      AllInMore(was, p);
      WithinMore(syms, was, p);
      LinkDso(p);
      HeadKept(was);
    }

    lemma HeadKept(was: seq<Dso>)
      requires ListOk() && was != [] && was <= list
      ensures head == was[0]
    {
    }

    method LinkDso(p: Dso)
      requires ListOk() && p !in list && p.next == null
      modifies this`tail, this`list, tail`next, p`prev
      ensures ListOk() && list == old(list) + [p]
    {
      tail.next := p;
      p.prev := tail;
      tail := p;
      list := list + [p];
      ghost var was := old(list);
      forall i | 0 <= i < |list|
        ensures list[i].next == Nth(list, i + 1)
      {
        if i < |was| - 1 {
          assert was[i] != was[|was| - 1];
        }
      }
    }

    /** The end of the TLS list, and the counters, whatever the layout makes of them. */
    method LinkTls(p: Dso, ghost all: seq<Dso>)
      requires TlsLinked(all) && p in all && p !in modules && p.tlsNext == null
      modifies this`tlsHead, this`tlsTail, this`modules, this`tls, all`tlsNext
      ensures TlsLinked(all) && modules == old(modules) + [p]
    {
      var offset: nat, align: nat := *, *;
      tls := Counters(tls.cnt + 1, offset, align);
      assert tlsTail != null ==> tlsTail in modules;
      if tlsTail != null {
        tlsTail.tlsNext := p;
      } else {
        tlsHead := p;
      }
      tlsTail := p;
      modules := modules + [p];
      ghost var was := old(modules);
      forall i | 0 <= i < |modules|
        ensures modules[i].tlsNext == Nth(modules, i + 1)
      {
        if i < |was| - 1 {
          assert was[i] != was[|was| - 1];
        }
      }
    }

    ghost predicate TlsLinked(all: seq<Dso>)
      reads this`modules, this`tlsHead, this`tlsTail, modules`tlsNext
    {
      && Distinct(modules) && Within(modules, all) && TlsNextOk(modules)
      && tlsHead == Nth(modules, 0) && tlsTail == Nth(modules, |modules| - 1)
    }

    /** load_library: nothing found, a DSO that is already there, or a new one at the end of the list, with or
        without TLS.  `budget` bounds how many more libraries there are. */
    method LoadLibrary(budget: nat, ghost s: Snapshot) returns (p: Dso?, left: nat)
      requires During(s)
      modifies this`tail, this`list, this`tlsHead, this`tlsTail, this`modules, this`tls, list`next, list`tlsNext
      ensures During(s) && old(list) <= list && Grew(old(list), list) && left <= budget
      ensures p != null ==> p in list
      ensures p == null || left == budget ==> list == old(list) && modules == old(modules) && tls == old(tls)
      ensures p != null ==> (list == old(list) && p in old(list)) || (list == old(list) + [p] && p !in old(list) && !p.relocated && New(p))
      ensures forall d :: d in list && d !in old(list) ==> fresh(d) && New(d)
      ensures MarkedIn(list) == old(MarkedIn(list))
    {
      hide ListOk, SymsOk, TlsOk, DepsOk, Begun;
      left := budget;
      if * {
        return null, left;
      }
      if * {
        var i: nat := *;
        p := NthDso(i);
        return p, left;
      }
      if budget == 0 {
        return null, left;
      }
      left := budget - 1;
      p := NewDso();
    }

    method NthDso(i: nat) returns (p: Dso?)
      requires ListOk()
      ensures p != null ==> p in list
    {
      p := head;
      var k := 0;
      while p != null && k < i
        invariant 0 <= k && p == Nth(list, k)
      {
        p := p.next;
        k := k + 1;
      }
    }

    lemma TailListed()
      requires ListOk()
      ensures |list| > 0 && tail == list[|list| - 1]
    {
    }

    lemma TlsWider(p: Dso)
      requires TlsLinked(list)
      ensures TlsLinked(list + [p])
    {
      WithinMore(modules, list, p);
    }

    method NewDso() returns (p: Dso)
      requires Valid()
      modifies this`tail, this`list, this`tlsHead, this`tlsTail, this`modules, this`tls, list`next, list`tlsNext
      ensures Valid() && fresh(p) && list == old(list) + [p] && !p.relocated && New(p)
      ensures modules == old(modules) || modules == old(modules) + [p]
    {
      hide ListOk, SymsOk, DepsOk, TlsLinked;
      TailListed();
      p := new Dso();
      TlsWider(p);
      assert p !in modules;
      if * {
        LinkTls(p, list + [p]);
      }
      AppendDso(p);
    }

    /** load_direct_deps: a DSO without dependencies gets them one by one; any step may fail. */
    method LoadDirectDeps(p: Dso, budget: nat, ghost s: Snapshot) returns (ok: bool, left: nat)
      requires During(s) && p in list && (p in s.list ==> p.depsSet) && (p.depsSet ==> HasDeps(p))
      modifies this`tail, this`list, this`tlsHead, this`tlsTail, this`modules, this`tls, list`next, list`tlsNext
      modifies p`deps, p`depsSet, p`ndepsDirect
      ensures During(s) && old(list) <= list && Grew(old(list), list) && left <= budget
      ensures left == budget ==> list == old(list)
      ensures forall d :: d in list && d !in old(list) ==> fresh(d) && New(d)
      ensures ok ==> HasDeps(p) && (old(p.depsSet) || |p.deps| == p.ndepsDirect)
      ensures old(p.depsSet) ==> p.deps == old(p.deps) && p.ndepsDirect == old(p.ndepsDirect)
    {
      hide During, Valid, ListOk, SymsOk, TlsOk, DepsOk;
      left := budget;
      if p.depsSet {
        return true, left;
      }
      if * {
        return false, left;
      }
      StartDeps(p, s);
      var n: nat := *;
      while n > 0
        invariant During(s) && p in list && p !in s.list && p.depsSet
        invariant old(list) <= list && Grew(old(list), list) && left <= budget && (left == budget ==> list == old(list))
        invariant forall d :: d in list && d !in old(list) ==> fresh(d) && New(d)
        decreases n
      {
        var dep;
        assert forall i :: 0 <= i < |list| ==> list[i] in list;
        dep, left := LoadLibrary(left, s);
        if dep == null {
          return false, left;
        }
        AddDep(p, dep, s);
        n := n - 1;
      }
      EndDeps(p, s);
      ok := true;
    }

    method StartDeps(p: Dso, ghost s: Snapshot)
      requires During(s) && p in list && p !in s.list
      modifies p`deps, p`depsSet, p`ndepsDirect
      ensures During(s) && p.depsSet
    {
      hide ListOk, SymsOk, TlsOk, Begun;
      NotOld(p, s);
      p.deps, p.depsSet, p.ndepsDirect := [], true, 0;
    }

    /** One more dependency of a new DSO. */
    method AddDep(p: Dso, dep: Dso, ghost s: Snapshot)
      requires During(s) && p in list && dep in list && p !in s.list
      modifies p`deps
      ensures During(s) && p.deps == old(p.deps) + [dep]
    {
      hide ListOk, SymsOk, TlsOk, Begun;
      NotOld(p, s);
      p.deps := p.deps + [dep];
    }

    method EndDeps(p: Dso, ghost s: Snapshot)
      requires During(s) && p in list && p !in s.list && p.depsSet
      modifies p`ndepsDirect
      ensures During(s) && HasDeps(p) && |p.deps| == p.ndepsDirect
    {
      hide ListOk, SymsOk, TlsOk, Begun;
      NotOld(p, s);
      p.ndepsDirect := |p.deps|;
    }

    lemma NotOld(p: Dso, s: Snapshot)
      requires p !in s.list
      ensures forall i :: 0 <= i < |s.list| ==> s.list[i] != p
    {
    }

    /** What has been loaded by the call is as loading leaves it. */
    ghost predicate NewBlank(s: Snapshot)
      reads this`list, list`deps, list`ndepsDirect, list`bfsBuilt, list`mark
    {
      forall d :: d in list && d !in s.list ==> Blank(d) && |d.deps| == d.ndepsDirect
    }

    /** extend_bfs_deps. */
    method ExtendDeps(p: Dso, ghost s: Snapshot) returns (ok: bool, ghost built: bool, ghost stale: set<Dso>)
      requires During(s) && p in list && HasDeps(p) && NewBlank(s) && (p in s.list ==> list == s.list)
      modifies list`mark, p`deps, p`bfsBuilt
      ensures During(AfterExtend(s, ok)) && HasDeps(p) && WellLinked(list) && (ok ==> p.bfsBuilt)
      ensures ok && s.exact && s.clean ==> Exact(list) && Clean(list)
      ensures built == !old(p.bfsBuilt) && stale == old(MarkedIn(list)) + Elems<Dso>(old(p.deps))
      ensures ok && built ==> MarkedIn(list) == {} && Complete(p, list, stale)
      ensures p.ndepsDirect <= |p.deps| && p.deps[..p.ndepsDirect] == old(p.deps[..p.ndepsDirect])
      ensures !ok ==> MarkedIn(list) == old(MarkedIn(list)) + Elems<Dso>(old(p.deps)) + Elems<Dso>(p.deps)
      ensures old(p.bfsBuilt) ==> MarkedIn(list) == old(MarkedIn(list))
    {
      hide ListOk, SymsOk, TlsOk, DepsOk, Begun, MarkedIn, Complete, Exact, Clean, NewBlank, HasDeps, WellLinked;
      built, stale := !p.bfsBuilt, MarkedIn(list) + Elems<Dso>(p.deps);
      TableFacts(s);
      ok := ExtendKnown(p, s);
    }

    method ExtendKnown(p: Dso, ghost s: Snapshot) returns (ok: bool)
      requires ListOk() && DepsOk() && Begun(s) && s.list <= list
      requires p in list && HasDeps(p) && (p in s.list ==> list == s.list) && Known(TableOf(list), TableOf(s.list), Elems<Dso>(s.list))
      modifies list`mark, p`deps, p`bfsBuilt
      ensures DepsOk() && Begun(AfterExtend(s, ok)) && HasDeps(p) && WellLinked(list) && (ok ==> p.bfsBuilt)
      ensures ok && s.exact && s.clean ==> Exact(list) && Clean(list)
      ensures ok && !old(p.bfsBuilt) ==> MarkedIn(list) == {} && Complete(p, list, old(MarkedIn(list)) + Elems<Dso>(old(p.deps)))
      ensures p.ndepsDirect <= |p.deps| && p.deps[..p.ndepsDirect] == old(p.deps[..p.ndepsDirect])
      ensures !ok ==> MarkedIn(list) == old(MarkedIn(list)) + Elems<Dso>(old(p.deps)) + Elems<Dso>(p.deps)
      ensures old(p.bfsBuilt) ==> MarkedIn(list) == old(MarkedIn(list))
    {
      hide ListOk, DepsOk, MarkedIn, Extended, AllComplete, NothingLeft, TableOf, Complete, GraphOf, Within, WellLinked;
      HeadOfList();
      LinkedByDeps();
      ghost var t := TableOf(list);
      ok := ExtendFor(p);
      OldTable(s);
      Kept(p, t, TableOf(list), Elems<Dso>(s.list), ok);
      StillBegun(p, s, ok);
    }

    method ExtendFor(p: Dso) returns (ok: bool)
      requires list != [] && head == list[0] && NextOk(list) && p in list && WellLinked(list) && HasDeps(p) && DepsOk()
      modifies list`mark, p`deps, p`bfsBuilt
      ensures Extended(p, old(TableOf(list)), TableOf(list), ok) && DepsOk() && WellLinked(list) && HasDeps(p) && (ok ==> p.bfsBuilt)
      ensures ok && !old(p.bfsBuilt) ==> MarkedIn(list) == {} && Complete(p, list, old(MarkedIn(list)) + Elems<Dso>(old(p.deps)))
      ensures p.ndepsDirect <= |p.deps| && p.deps[..p.ndepsDirect] == old(p.deps[..p.ndepsDirect])
      ensures !ok ==> MarkedIn(list) == old(MarkedIn(list)) + Elems<Dso>(old(p.deps)) + Elems<Dso>(p.deps)
      ensures old(p.bfsBuilt) ==> MarkedIn(list) == old(MarkedIn(list))
    {
      hide Harmless, ListsDependencies, MarkedIn, MarkedOf, GraphOf, Direct, TableOf, Closed, Within, NextOk;
      TableView(list);
      ghost var t := TableOf(list);
      ok := ExtendRun(p);
      TableView(list);
      if t[p].built {
        SameMarks(t, TableOf(list));
      }
    }

    method ExtendRun(p: Dso) returns (ok: bool)
      requires list != [] && head == list[0] && NextOk(list) && p in list && WellLinked(list) && HasDeps(p) && DepsOk()
      modifies list`mark, p`deps, p`bfsBuilt
      ensures DepsOk() && WellLinked(list) && Direct(list) == old(Direct(list)) && HasDeps(p)
      ensures if old(p.bfsBuilt) then ok && p.bfsBuilt && p.deps == old(p.deps) && MarkedIn(list) == old(MarkedIn(list))
              else p.bfsBuilt == ok
      ensures !ok ==> MarkedIn(list) == old(MarkedIn(list)) + Elems<Dso>(old(p.deps)) + Elems<Dso>(p.deps)
      ensures ok && !old(p.bfsBuilt) ==> MarkedIn(list) == {} && Complete(p, list, old(MarkedIn(list)) + Elems<Dso>(old(p.deps)))
    {
      hide Harmless, ListsDependencies, ReachablePlus, StaleSteps, StaleBfs, NextOk, MarkedIn, Direct, Closed, Within;
      ghost var g, before := Direct(list), p.deps;
      LinkedByDeps();
      ghost var k;
      ok, k := ExtendBfsDeps(p, head, true, list);
      DepsInside(g, p, list, before);
    }

    /** The table of the DSOs that were there before. */
    lemma OldTable(s: Snapshot)
      requires s.list <= list
      ensures TableOf(s.list) == Only(TableOf(list), Elems<Dso>(s.list))
    {
      assert forall i :: 0 <= i < |s.list| ==> s.list[i] == list[i];
    }

    lemma TableFacts(s: Snapshot)
      requires During(s) && NewBlank(s)
      ensures Known(TableOf(list), TableOf(s.list), Elems<Dso>(s.list))
    {
      hide AllComplete, NothingLeft, ListOk, SymsOk, TlsOk, DepsOk;
      OldTable(s);
      assert forall i :: 0 <= i < |s.list| ==> s.list[i] == list[i];
    }

    /** What stays known of the DSOs that were there before. */
    lemma StillBegun(p: Dso, s: Snapshot, ok: bool)
      requires DepsOk() && s.list <= list && s.list != [] && s.syms != [] && Within(s.syms, s.list) && Within(s.tls, s.list)
      requires forall d :: d in s.list && d != p ==> HasDeps(d) && d.relocated && Within(d.deps, s.list)
      requires p in s.list ==> HasDeps(p) && p.relocated && list == s.list
      requires s.exact && (!ok || s.clean) ==> Exact(s.list)
      requires s.clean && ok ==> Clean(s.list)
      ensures Begun(AfterExtend(s, ok))
    {
      hide Exact, Clean;
    }

    lemma HeadOfList()
      requires ListOk()
      ensures list != [] && head == list[0] && NextOk(list)
    {
    }

    lemma LinkedByDeps()
      requires DepsOk()
      ensures WellLinked(list) && forall d :: d in list ==> Elems<Dso>(d.deps) <= Elems<Dso>(list)
    {
    }

    /** `p` is what load_library returned: an old DSO, or the only new one. */
    ghost predicate Found(p: Dso, s: Snapshot)
      reads this`list
    {
      (list == s.list && p in s.list) || (list == s.list + [p] && p !in s.list)
    }

    /** load_deps: from `p` to the end of the list, which grows meanwhile. */
    method LoadDeps(p: Dso, budget: nat, ghost s: Snapshot) returns (ok: bool)
      requires During(s) && Found(p, s) && (p !in s.list ==> New(p))
      modifies this`tail, this`list, this`tlsHead, this`tlsTail, this`modules, this`tls
      modifies list`next, list`tlsNext, list`deps, list`depsSet, list`ndepsDirect
      ensures During(s) && old(list) <= list && Grew(old(list), list)
      ensures forall d :: d in list && d !in old(list) ==> fresh(d) && Blank(d)
      ensures ok ==> NewBlank(s) && forall d :: d in list ==> HasDeps(d)
      ensures p in s.list ==> list == s.list && p.deps == old(p.deps)
    {
      hide During, DepsUpTo;
      OldHaveDeps(p, s);
      if p.depsSet {
        return true;
      }
      NewAtEnd(p, s);
      var q: Dso?, left := p, budget;
      ghost var i: nat := |s.list|;
      while q != null
        invariant During(s) && old(list) <= list && Grew(old(list), list) && DepsUpTo(s, i)
        invariant |s.list| <= i <= |list| && q == Nth(list, i)
        invariant forall d :: d in list && d !in old(list) ==> fresh(d) && Blank(d)
        decreases left, |list| - i
      {
        assert forall k :: 0 <= k < |list| ==> list[k] in list;
        ok, left, q := StepDeps(q, i, left, s);
        if !ok {
          return;
        }
        i := i + 1;
      }
      AllHaveDeps(s);
      ok := true;
    }

    /** The first `n` DSOs of the list have their dependencies recorded, those of the call just so; the others are new. */
    ghost predicate DepsUpTo(s: Snapshot, n: nat)
      reads this`list, list`depsSet, list`deps, list`ndepsDirect, list`bfsBuilt, list`mark
    {
      && |s.list| <= n <= |list|
      && (forall k :: 0 <= k < n ==> HasDeps(list[k]))
      && (forall k :: |s.list| <= k < n ==> Blank(list[k]) && |list[k].deps| == list[k].ndepsDirect)
      && (forall k :: n <= k < |list| ==> New(list[k]))
    }

    lemma NewAtEnd(p: Dso, s: Snapshot)
      requires During(s) && Found(p, s) && !p.depsSet && (p !in s.list ==> New(p))
      ensures p !in s.list && list == s.list + [p] && DepsUpTo(s, |s.list|)
    {
      hide Exact, Clean;
    }

    lemma AllHaveDeps(s: Snapshot)
      requires During(s) && DepsUpTo(s, |list|)
      ensures NewBlank(s) && forall d :: d in list ==> HasDeps(d)
    {
      hide Exact, Clean, ListOk, SymsOk, TlsOk, DepsOk;
      assert forall k :: 0 <= k < |s.list| ==> list[k] == s.list[k];
    }

    /** One round of load_deps. */
    method StepDeps(q: Dso, ghost i: nat, budget: nat, ghost s: Snapshot) returns (ok: bool, left: nat, r: Dso?)
      requires During(s) && |s.list| <= i < |list| && list[i] == q && DepsUpTo(s, i)
      modifies this`tail, this`list, this`tlsHead, this`tlsTail, this`modules, this`tls
      modifies list`next, list`tlsNext, list`deps, list`depsSet, list`ndepsDirect
      ensures During(s) && old(list) <= list && Grew(old(list), list) && left <= budget
      ensures left == budget ==> list == old(list)
      ensures forall d :: d in list && d !in old(list) ==> fresh(d) && Blank(d)
      ensures ok ==> i < |list| && DepsUpTo(s, i + 1) && r == Nth(list, i + 1)
    {
      hide During;
      NewFrom(s, i);
      assert q in list;
      ghost var was := list;
      r := null;
      ok, left := LoadDirectDeps(q, budget, s);
      assert forall k :: 0 <= k < |was| ==> was[k] == list[k];
      if ok {
        forall k | |was| <= k < |list|
          ensures New(list[k])
        {
          LaterIsNew(s, was, k);
        }
        r := NextOf(q, i, s);
      }
    }

    lemma LaterIsNew(s: Snapshot, was: seq<Dso>, k: nat)
      requires During(s) && was <= list && |was| <= k < |list|
      ensures list[k] in list && list[k] !in was
    {
    }

    lemma OldHaveDeps(p: Dso, s: Snapshot)
      requires During(s) && Found(p, s) && (p !in s.list ==> New(p))
      ensures p.depsSet ==> p in s.list && list == s.list && NewBlank(s) && forall d :: d in list ==> HasDeps(d)
      ensures p in s.list ==> p.depsSet
    {
      hide Exact, Clean;
    }

    lemma NewFrom(s: Snapshot, i: nat)
      requires During(s) && |s.list| <= i < |list|
      ensures list[i] !in s.list && forall k :: 0 <= k < |list| && k != i ==> list[k] != list[i]
    {
      hide Exact, Clean;
    }

    method NextOf(q: Dso, ghost i: nat, ghost s: Snapshot) returns (r: Dso?)
      requires During(s) && i < |list| && list[i] == q
      ensures r == Nth(list, i + 1)
    {
      r := q.next;
    }

    /** prepare_lazy. */
    method PrepareLazy(p: Dso) returns (ok: bool)
      modifies this`lazyHead, p`lazyNext
    {
      if * {
        return true;
      }
      if * {
        return false;
      }
      p.lazyNext := lazyHead;
      lazyHead := p;
      ok := true;
    }

    /** reloc_all: from `p` to the end of the list; relocation may fail anywhere.  `scope` is the chain in which it looks
        symbols up. */
    method RelocAll(p: Dso, ghost s: Snapshot) returns (ok: bool, ghost scope: seq<Dso>)
      requires During(s) && |s.list| < |list| && list[|s.list|] == p
      modifies list`relocated
      ensures During(s) && (ok ==> RelocatedUpTo(|list|)) && scope == syms
    {
      hide During, RelocatedUpTo;
      scope := syms;
      var q: Dso? := p;
      ghost var i := |s.list|;
      OldRelocated(s);
      while q != null
        invariant During(s) && |s.list| <= i <= |list| && q == Nth(list, i) && RelocatedUpTo(i)
        decreases |list| - i
      {
        if * {
          return false, scope;
        }
        assert q in list;
        q := StepReloc(q, i, s);
        i := i + 1;
      }
      ok := true;
    }

    ghost predicate RelocatedUpTo(n: nat)
      reads this`list, list`relocated
    {
      n <= |list| && forall k :: 0 <= k < n ==> list[k].relocated
    }

    lemma OldRelocated(s: Snapshot)
      requires During(s)
      ensures RelocatedUpTo(|s.list|)
    {
    }

    method StepReloc(q: Dso, ghost i: nat, ghost s: Snapshot) returns (r: Dso?)
      requires During(s) && |s.list| <= i < |list| && list[i] == q && RelocatedUpTo(i)
      modifies q`relocated
      ensures During(s) && RelocatedUpTo(i + 1) && r == Nth(list, i + 1)
    {
      hide ListOk, SymsOk, TlsOk, DepsOk;
      r := NextOf(q, i, s);
      q.relocated := true;
    }

    /** redo_lazy_relocs, as far as the head of the lazy list goes. */
    method RedoLazy() returns (ok: bool)
      requires ListOk()
      modifies this`lazyHead
    {
      var i: nat := *;
      lazyHead := NthDso(i);
      ok := *;
    }

    /** What happens when a call fails: chain, list, TLS and lazy head are put back, and the DSOs loaded by the
        call, `freed`, are gone. */
    method Rollback(origTail: Dso, origSymsTail: Dso, origTlsTail: Dso?, origTls: Counters, origLazyHead: Dso?,
                    ghost s: Snapshot) returns (ghost freed: seq<Dso>)
      requires During(s) && Distinct(s.tls)
      requires origTail == s.list[|s.list| - 1] && origSymsTail == s.syms[|s.syms| - 1]
      requires origTlsTail == Nth(s.tls, |s.tls| - 1)
      modifies this, list`next, list`symsNext, list`tlsNext
      ensures Valid() && Begun(s) && list == s.list && syms == s.syms && modules == s.tls
      ensures tls == origTls && lazyHead == origLazyHead
      ensures old(list) == s.list + freed && forall d :: d in freed ==> d !in s.list
    {
      hide ListOk, SymsOk, TlsLinked, DepsOk, Begun;
      freed := Walk(origTail, s);
      RestoreChains(origSymsTail, origTlsTail, s);
      tls := origTls;
      lazyHead := origLazyHead;
      RestoreList(origTail, s);
    }

    method RestoreChains(origSymsTail: Dso, origTlsTail: Dso?, ghost s: Snapshot)
      requires During(s) && origSymsTail == s.syms[|s.syms| - 1] && origTlsTail == Nth(s.tls, |s.tls| - 1)
      modifies this`symsTail, this`syms, this`tlsHead, this`tlsTail, this`modules, list`symsNext, list`tlsNext
      ensures ListOk() && SymsOk() && TlsLinked(s.list) && Begun(s) && s.list <= list && syms == s.syms && modules == s.tls
    {
      hide ListOk, SymsOk, TlsLinked, DepsOk, Begun;
      SymsInside(s);
      RevertSyms(origSymsTail, |s.syms|);
      RestoreTls(origTlsTail, s);
    }

    lemma SymsInside(s: Snapshot)
      requires During(s)
      ensures 0 < |s.syms| <= |syms| && syms[|s.syms| - 1] == s.syms[|s.syms| - 1] && syms[..|s.syms|] == s.syms
      ensures Within(s.tls, s.list) && Within(s.syms, s.list) && s.list != []
      ensures forall i :: 0 <= i < |syms| ==> syms[i] in list
      ensures forall i :: 0 <= i < |modules| ==> modules[i] in list
      ensures |s.list| <= |list| && list[|s.list| - 1] == s.list[|s.list| - 1] && list[..|s.list|] == s.list
    {
      hide Exact, Clean, HasDeps, DepsOk, NextOk, SymsNextOk, TlsNextOk, OffChain, Distinct;
    }

    /** The loop that frees what was loaded. */
    method Walk(origTail: Dso, ghost s: Snapshot) returns (ghost freed: seq<Dso>)
      requires During(s) && origTail == s.list[|s.list| - 1]
      ensures list == s.list + freed && forall d :: d in freed ==> d !in s.list
    {
      hide SymsOk, TlsOk, DepsOk, Begun, NextOk, Distinct;
      SymsInside(s);
      ghost var k := |s.list|;
      NextAt(list, k - 1);
      var p := origTail.next;
      freed := [];
      while p != null
        invariant |s.list| <= k <= |list| && p == Nth(list, k) && freed == list[|s.list|..k]
        decreases |list| - k
      {
        NextAt(list, k);
        freed := freed + [p];
        p := p.next;
        k := k + 1;
      }
      assert list == s.list + freed;
      DistinctParts(s.list, freed);
    }

    method RestoreTls(origTlsTail: Dso?, ghost s: Snapshot)
      requires TlsLinked(list) && s.tls <= modules && Within(s.tls, s.list) && origTlsTail == Nth(s.tls, |s.tls| - 1)
      modifies this`tlsHead, this`tlsTail, this`modules, modules`tlsNext
      ensures TlsLinked(s.list) && modules == s.tls
    {
      ghost var was := modules;
      assert origTlsTail != null ==> was[|s.tls| - 1] == origTlsTail;
      if origTlsTail == null {
        tlsHead := null;
      }
      tlsTail := origTlsTail;
      if tlsTail != null {
        tlsTail.tlsNext := null;
      }
      modules := s.tls;
      TlsCut(was, s.tls);
    }

    method RestoreList(origTail: Dso, ghost s: Snapshot)
      requires ListOk() && SymsOk() && TlsLinked(s.list) && Begun(s) && s.list <= list && syms == s.syms
      requires origTail == s.list[|s.list| - 1]
      modifies this`tail, this`list, list`next
      ensures Valid() && Begun(s) && list == s.list
    {
      hide ListOk, TlsLinked, SymsNextOk, Distinct, Begun, OffChain, Within, AllIn;
      BegunDeps(s);
      ghost var was := list;
      OffChainLess(was, syms, s.list);
      CutList(origTail, s);
      HeadStays(was);
    }

    lemma HeadStays(was: seq<Dso>)
      requires ListOk() && list <= was
      ensures was != [] && head == was[0]
    {
    }

    lemma BegunDeps(s: Snapshot)
      requires Begun(s)
      ensures s.list != [] && Within(s.syms, s.list) && AllIn(s.list)
    {
      hide Exact, Clean;
    }

    method CutList(origTail: Dso, ghost s: Snapshot)
      requires ListOk() && s.list <= list && s.list != [] && origTail == s.list[|s.list| - 1]
      modifies this`tail, this`list, list`next
      ensures ListOk() && list == s.list
    {
      ghost var was := list;
      assert was[|s.list| - 1] == origTail && was[..|s.list|] == s.list;
      tail := origTail;
      tail.next := null;
      list := s.list;
      NextCut(was, list);
    }

    /** The lists as they are. */
    ghost function Now(): Snapshot
      reads this`list, this`syms, this`modules, list`deps, list`ndepsDirect, list`bfsBuilt, list`mark
    {
      Snapshot(list, syms, modules, Exact(list), Clean(list))
    }

    /** prepare_lazy for what is not relocated yet. */
    method PrepareAll(p: Dso, ghost s: Snapshot) returns (ok: bool)
      requires During(s) && p in list
      modifies this`lazyHead, list`lazyNext
      ensures During(s)
    {
      hide ListOk, SymsOk, TlsOk, DepsOk, Begun;
      ok := PrepareLazy(p);
      var i := 0;
      while ok && i < |p.deps|
        invariant During(s)
      {
        DepListed(p, i, s);
        if !p.deps[i].relocated {
          ok := PrepareLazy(p.deps[i]);
        }
        i := i + 1;
      }
    }

    lemma DepListed(p: Dso, i: nat, s: Snapshot)
      requires During(s) && p in list && i < |p.deps|
      ensures p.deps[i] in list
    {
    }

    /** add_syms for `p` and its dependencies: those not yet on the chain go to its end, once each and in order. */
    method AddAll(p: Dso, ghost s: Snapshot)
      requires During(s) && p in list
      modifies this`symsTail, this`syms, list`symsNext
      ensures During(s) && syms == Joined(old(syms), p, p.deps)
    {
      hide During, Joined, JoinedUpTo;
      AddOne(p, s);
      var i := 0;
      JoinedFirst(old(syms), p, p.deps);
      while i < |p.deps|
        invariant 0 <= i <= |p.deps| && During(s) && syms == JoinedUpTo(old(syms), p, p.deps, i)
      {
        DepListed(p, i, s);
        AddOne(p.deps[i], s);
        JoinedNext(old(syms), p, p.deps, i);
        i := i + 1;
      }
      JoinedAll(old(syms), p, p.deps);
    }

    method AddOne(p: Dso, ghost s: Snapshot)
      requires During(s) && p in list
      modifies this`symsTail, this`syms, list`symsNext
      ensures During(s) && syms == if p in old(syms) then old(syms) else old(syms) + [p]
    {
      hide ListOk, SymsOk, TlsOk, DepsOk, Begun;
      AddSyms(p);
    }

    /** Lazy preparation, symbols and relocation.  Relocation looks symbols up in a chain that has `p` and its dependencies
        on it. */
    method Bind(p: Dso, lazy: bool, global: bool, ghost s: Snapshot) returns (ok: bool, ghost scope: seq<Dso>)
      requires During(s) && p in list && (p in s.list ==> list == s.list)
      requires p !in s.list ==> !p.relocated && |s.list| < |list| && list[|s.list|] == p
      modifies this`lazyHead, this`symsTail, this`syms, list`lazyNext, list`symsNext, list`relocated
      ensures During(s) && (ok ==> RelocatedUpTo(|list|))
      ensures ok ==> syms == if global || old(!p.relocated) then Joined(old(syms), p, p.deps) else old(syms)
      ensures ok && old(!p.relocated) ==> scope == Joined(old(syms), p, p.deps)
    {
      hide During, RelocatedUpTo, Joined;
      OldRelocated(s);
      OldIsRelocated(p, s);
      scope := [];
      if !p.relocated && lazy {
        ok := PrepareAll(p, s);
        if !ok {
          return;
        }
      }
      if !p.relocated || global {
        AddAll(p, s);
      }
      ok := true;
      if !p.relocated {
        ok, scope := RelocAll(p, s);
      }
    }

    lemma OldIsRelocated(p: Dso, s: Snapshot)
      requires During(s)
      ensures p in s.list ==> p.relocated
    {
    }

    /** The constructor queue, unless `p` is constructed. */
    method QueueFor(p: Dso, ghost s: Snapshot) returns (ok: bool, overrun: bool, queue: array?<Dso?>, ghost order: seq<Dso>)
      requires During(s) && p in list && WellLinked(list)
      modifies list`mark, list`nextDep
      ensures WellLinked(list) && (ok ==> !overrun && (p.constructed || old(Fits(p, list))))
      ensures overrun ==> !p.constructed && !old(Fits(p, list))
      ensures !overrun ==> During(s) && (old(Exact(list)) ==> Exact(list)) && (old(Clean(list)) ==> Clean(list))
      ensures ok ==> IsQueueFor(p, list, old(Blocked(p, list)), queue, order)
    {
      hide ListOk, SymsOk, TlsOk, DepsOk, Begun, Exact, Clean, Fits, Blocked, WellLinked, IsQueueFor, MarkedIn, Elems, NextOk;
      ok, overrun, queue, order := true, false, null, [];
      if p.constructed {
        NoQueue(p, list, Blocked(p, list));
        return;
      }
      HeadOfList();
      LinkedByDeps();
      ok, overrun, queue, order := QueueKnown(p, head, list, s);
    }

    /** What stands in the way of a complete closure of `p`: marks still set when the call began, and what `p` lists. */
    ghost predicate InTheWay(p: Dso, before: set<Dso>, listed: seq<Dso>, stale: set<Dso>, s: Snapshot)
      requires p.ndepsDirect <= |p.deps|
      reads p`deps, p`ndepsDirect
    {
      stale == before + Elems<Dso>(if p in s.list then listed else p.deps[..p.ndepsDirect])
    }

    method LoadKeepingMarks(p: Dso, budget: nat, ghost s: Snapshot) returns (ok: bool)
      requires During(s) && Found(p, s) && (p !in s.list ==> New(p))
      modifies this`tail, this`list, this`tlsHead, this`tlsTail, this`modules, this`tls
      modifies list`next, list`tlsNext, list`deps, list`depsSet, list`ndepsDirect
      ensures During(s) && old(list) <= list && Grew(old(list), list) && p in list
      ensures forall d :: d in list && d !in old(list) ==> fresh(d)
      ensures ok ==> NewBlank(s) && forall d :: d in list ==> HasDeps(d)
      ensures p in s.list ==> list == s.list && p.deps == old(p.deps)
      ensures MarkedIn(list) == old(MarkedIn(list)) && p.bfsBuilt == old(p.bfsBuilt)
    {
      hide During, NewBlank, HasDeps;
      assert p in list;
      ok := LoadDeps(p, budget, s);
    }

    /** load_deps and extend_bfs_deps. */
    method Gather(p: Dso, budget: nat, ghost s: Snapshot)
      returns (ok: bool, exhausted: bool, ghost t: Snapshot, ghost built: bool, ghost stale: set<Dso>)
      requires During(s) && Found(p, s) && (p !in s.list ==> New(p))
      modifies this`tail, this`list, this`tlsHead, this`tlsTail, this`modules, this`tls
      modifies list`next, list`tlsNext, list`deps, list`depsSet, list`ndepsDirect, list`mark, p`bfsBuilt
      ensures During(t) && old(list) <= list && Grew(old(list), list) && p in list
      ensures forall d :: d in list && d !in old(list) ==> fresh(d)
      ensures p in s.list ==> list == s.list
      ensures t == (if exhausted then AfterExtend(s, false) else if ok then AfterExtend(s, true) else s) && !(ok && exhausted)
      ensures ok ==> forall d :: d in list ==> HasDeps(d)
      ensures ok && s.exact && s.clean ==> Exact(list) && Clean(list)
      ensures ok ==> WellLinked(list) && p.bfsBuilt && built == !old(p.bfsBuilt) && p.ndepsDirect <= |p.deps|
      ensures ok && built ==> Complete(p, list, stale) && InTheWay(p, old(MarkedIn(list)), old(p.deps), stale, s)
      ensures exhausted ==> MarkedIn(list) == stale && old(MarkedIn(list)) <= stale
      ensures ok ==> MarkedIn(list) == if built then {} else old(MarkedIn(list))
    {
      hide During, MarkedIn, Complete, Exact, Clean, WellLinked, New, Found;
      exhausted, t, built, stale := false, s, false, {};
      ok := LoadKeepingMarks(p, budget, s);
      if !ok {
        return;
      }
      assert forall i :: 0 <= i < |list| ==> list[i] in list;
      assert p !in s.list ==> p.deps[..p.ndepsDirect] == p.deps;
      hide NewBlank;
      ok, built, stale := ExtendDeps(p, s);
      exhausted, t := !ok, AfterExtend(s, ok);
      stale := if ok then stale else MarkedIn(list);
    }

    /** Everything between load_library and success; any step may fail. */
    method Open(p: Dso, lazy: bool, global: bool, budget: nat, origSymsTail: Dso, ghost s: Snapshot)
      returns (ok: bool, exhausted: bool, overrun: bool, queue: array?<Dso?>, ghost order: seq<Dso>,
               ghost t: Snapshot, ghost built: bool, ghost stale: set<Dso>, ghost scope: seq<Dso>)
      requires During(s) && Found(p, s) && (p !in s.list ==> !p.relocated && New(p)) && origSymsTail == s.syms[|s.syms| - 1]
      modifies this, list
      ensures p in list && (!overrun ==> During(t)) && (ok ==> !overrun && Settled() && (!global ==> syms == s.syms))
      ensures forall d :: d in list && d !in old(list) ==> fresh(d)
      ensures t == s.(exact := t.exact, clean := t.clean) && (exhausted ==> !ok && !overrun && t.exact == s.exact)
      ensures s.clean && !exhausted ==> t == s
      ensures ok && s.exact && s.clean ==> Exact(list) && Clean(list)
      ensures ok || overrun ==> WellLinked(list) && p.bfsBuilt && built == !old(p.bfsBuilt) && p.ndepsDirect <= |p.deps|
      ensures (ok || overrun) && built ==> Complete(p, list, stale) && InTheWay(p, old(MarkedIn(list)), old(p.deps), stale, s)
      ensures exhausted ==> MarkedIn(list) == stale && old(MarkedIn(list)) <= stale
      ensures var marked := if built then {} else old(MarkedIn(list));
              && (overrun ==> !p.constructed && !Ample(p, list, marked))
              && (ok ==> p.constructed || Ample(p, list, marked))
              && (ok ==> IsQueueFor(p, list, marked - Elems<Dso>(p.deps) - {p}, queue, order))
      ensures s.exact && s.clean ==> !overrun
      ensures ok && global ==> syms == Joined(old(syms), p, p.deps)
      ensures ok && p !in s.list ==> scope == Joined(old(syms), p, p.deps)
    {
      hide Joined, During, Settled, MarkedIn, Complete, Exact, Clean, InTheWay, WellLinked, HasDeps, New, IsQueueFor, Fits, Ample,
           Blocked;
      assert p in list;
      overrun, queue, order, scope := false, null, [], [];
      ok, exhausted, t, built, stale := Gather(p, budget, s);
      assert forall i :: 0 <= i < |list| ==> list[i] in list;
      if ok {
        if s.exact && s.clean {
          ExactFits(p, list);
        }
        FitsIsAmple(p, list);
        ok, overrun, queue, order, scope := Finish(p, lazy, global, origSymsTail, t);
      }
    }

    /** queue_ctors, symbols and relocation. */
    method Finish(p: Dso, lazy: bool, global: bool, origSymsTail: Dso, ghost s: Snapshot)
      returns (ok: bool, overrun: bool, queue: array?<Dso?>, ghost order: seq<Dso>, ghost scope: seq<Dso>)
      requires During(s) && p in list && (p in s.list ==> list == s.list) && forall d :: d in list ==> HasDeps(d)
      requires p !in s.list ==> !p.relocated && |s.list| < |list| && list[|s.list|] == p
      requires origSymsTail == s.syms[|s.syms| - 1] && WellLinked(list)
      modifies this`lazyHead, this`symsTail, this`syms
      modifies list`lazyNext, list`symsNext, list`relocated, list`mark, list`nextDep
      ensures WellLinked(list) && (ok ==> !overrun && (p.constructed || old(Fits(p, list))))
      ensures overrun ==> !p.constructed && !old(Fits(p, list))
      ensures !overrun ==> During(s) && (ok ==> Settled() && (!global ==> syms == s.syms))
      ensures !overrun ==> (old(Exact(list)) ==> Exact(list)) && (old(Clean(list)) ==> Clean(list))
      ensures ok ==> IsQueueFor(p, list, old(Blocked(p, list)), queue, order)
      ensures ok && global ==> syms == Joined(old(syms), p, p.deps)
      ensures ok && p !in s.list ==> scope == Joined(old(syms), p, p.deps)
    {
      hide Joined, During, Settled, Exact, Clean, HasDeps, WellLinked, Fits, Blocked, IsQueueFor;
      scope := [];
      ok, overrun, queue, order := QueueFor(p, s);
      if ok {
        ok, scope := BindAll(p, lazy, global, origSymsTail, s);
      }
    }

    method BindAll(p: Dso, lazy: bool, global: bool, origSymsTail: Dso, ghost s: Snapshot)
      returns (ok: bool, ghost scope: seq<Dso>)
      requires During(s) && p in list && (p in s.list ==> list == s.list) && forall d :: d in list ==> HasDeps(d)
      requires p !in s.list ==> !p.relocated && |s.list| < |list| && list[|s.list|] == p
      requires origSymsTail == s.syms[|s.syms| - 1]
      modifies this`lazyHead, this`symsTail, this`syms, list`lazyNext, list`symsNext, list`relocated
      ensures During(s) && (ok ==> Settled() && (!global ==> syms == s.syms))
      ensures ok && global ==> syms == Joined(old(syms), p, p.deps)
      ensures ok && p !in s.list ==> scope == Joined(old(syms), p, p.deps)
    {
      hide During, RelocatedUpTo, Settled, HasDeps, Joined;
      ok, scope := Bind(p, lazy, global, s);
      if !ok {
        return;
      }
      AllSettled();
      if !global {
        Revert(origSymsTail, s);
      }
      ok := RedoLazyDuring(s);
    }

    lemma AllSettled()
      requires RelocatedUpTo(|list|) && forall d :: d in list ==> HasDeps(d)
      ensures Settled()
    {
    }

    method Revert(origSymsTail: Dso, ghost s: Snapshot)
      requires During(s) && origSymsTail == s.syms[|s.syms| - 1]
      modifies this`symsTail, this`syms, list`symsNext
      ensures During(s) && syms == s.syms
    {
      hide ListOk, SymsOk, TlsOk, DepsOk, Begun;
      SymsInside(s);
      RevertSyms(origSymsTail, |s.syms|);
    }

    method RedoLazyDuring(ghost s: Snapshot) returns (ok: bool)
      requires During(s)
      modifies this`lazyHead
      ensures During(s)
    {
      hide ListOk, SymsOk, TlsOk, DepsOk, Begun;
      ok := RedoLazy();
    }

    /** dlopen with libc already in the list.  A call that fails once loading has begun leaves every list, link
        and counter as it was, and no DSO that stays depends on, or is linked to, one that is gone.  Of the recorded
        dependencies: as long as no call is `exhausted`, that is, runs out of memory while it records them, all are
        complete, no mark is left and the constructor queue fits its array.  What such a call leaves makes a later list
        incomplete exactly if it stands in the way, and a later queue overrun its array exactly if that is not ample; of an
        `overrun` nothing else is claimed. */
    method DlOpen(lazy: bool, global: bool, budget: nat)
      returns (p: Dso?, failed: bool, exhausted: bool, overrun: bool, queue: array?<Dso?>, ghost order: seq<Dso>,
               ghost freed: seq<Dso>, ghost built: bool, ghost stale: set<Dso>, ghost scope: seq<Dso>)
      requires Valid() && Settled()
      modifies this, list
      ensures old(Exact(list) && Clean(list)) ==> !overrun
      ensures !overrun ==> Valid() && Settled() && (exhausted ==> failed)
      ensures failed ==> !overrun && p == null && list == old(list) && syms == old(syms) && modules == old(modules)
      ensures failed ==> forall i :: 0 <= i < |list| ==> list[i].next == old(list[i].next)
      ensures failed ==> forall i :: 0 <= i < |syms| ==> syms[i].symsNext == old(syms[i].symsNext)
      ensures failed ==> forall d :: d in list && d !in syms ==> d.symsNext == null
      ensures failed ==> forall i :: 0 <= i < |modules| ==> modules[i].tlsNext == old(modules[i].tlsNext)
      ensures forall d :: d in freed ==> fresh(d)
      ensures !overrun && !failed ==> old(list) <= list && (!global ==> syms == old(syms))
      ensures p != null && !overrun && global ==> syms == Joined(old(syms), p, p.deps)
      ensures p != null && !overrun && p !in old(list) ==> scope == Joined(old(syms), p, p.deps)
      ensures !overrun && p == null ==> list == old(list) && syms == old(syms) && modules == old(modules)
      ensures !overrun && p == null ==> tls == old(tls) && lazyHead == old(lazyHead)
      ensures old(Exact(list) && Clean(list)) && !exhausted ==> Exact(list) && Clean(list)
      ensures old(Exact(list)) && exhausted ==> Exact(list)
      ensures exhausted ==> !overrun && old(MarkedIn(list)) <= stale && MarkedIn(list) == stale * Elems<Dso>(list)
      ensures p != null ==> p in list && p.bfsBuilt && WellLinked(list) && p.ndepsDirect <= |p.deps|
      ensures p != null && built ==> Complete(p, list, stale)
      ensures p != null && built && p in old(list) ==> stale == old(MarkedIn(list)) + Elems<Dso>(old(p.deps))
      ensures p != null && built && p !in old(list) ==> stale == old(MarkedIn(list)) + Elems<Dso>(p.deps[..p.ndepsDirect])
      ensures overrun ==> p != null && !p.constructed
      ensures p != null && !p.constructed ==> (overrun <==> !Ample(p, list, if built then {} else old(MarkedIn(list))))
      ensures p != null && !overrun ==>
                var marked := if built then {} else old(MarkedIn(list));
                IsQueueFor(p, list, marked - Elems<Dso>(p.deps) - {p}, queue, order)
      ensures p != null && built ==> (Ample(p, list, {}) <==> Affordable(p, list, stale))
    {
      hide Valid, Settled, Exact, Clean, Complete, MarkedIn, Ample, Affordable, IsQueueFor, WellLinked, Elems, Joined;
      LinkView();
      p, failed, exhausted, overrun, queue, order, freed, built, stale, scope := Attempt(lazy, global, budget);
      if p != null && built {
        AmpleIff(p, list, stale);
      }
      if !overrun {
        LinkView();
      }
    }

    /** Every link, by the lists. */
    lemma LinkView()
      requires Valid()
      ensures forall i :: 0 <= i < |list| ==> list[i].next == Nth(list, i + 1)
      ensures forall i :: 0 <= i < |syms| ==> syms[i].symsNext == Nth(syms, i + 1)
      ensures forall d :: d in list && d !in syms ==> d.symsNext == null
      ensures forall i :: 0 <= i < |modules| ==> modules[i].tlsNext == Nth(modules, i + 1)
    {
      hide Distinct, Within;
    }

    method Attempt(lazy: bool, global: bool, budget: nat)
      returns (p: Dso?, failed: bool, exhausted: bool, overrun: bool, queue: array?<Dso?>, ghost order: seq<Dso>,
               ghost freed: seq<Dso>, ghost built: bool, ghost stale: set<Dso>, ghost scope: seq<Dso>)
      requires Valid() && Settled()
      modifies this, list
      ensures old(Exact(list) && Clean(list)) ==> !overrun
      ensures !overrun ==> Valid() && Settled() && (exhausted ==> failed)
      ensures failed ==> !overrun && p == null && list == old(list) && syms == old(syms) && modules == old(modules)
      ensures forall d :: d in freed ==> fresh(d)
      ensures !overrun && !failed ==> old(list) <= list && (!global ==> syms == old(syms))
      ensures p != null && !overrun && global ==> syms == Joined(old(syms), p, p.deps)
      ensures p != null && !overrun && p !in old(list) ==> scope == Joined(old(syms), p, p.deps)
      ensures !overrun && p == null ==> list == old(list) && syms == old(syms) && modules == old(modules)
      ensures !overrun && p == null ==> tls == old(tls) && lazyHead == old(lazyHead)
      ensures old(Exact(list) && Clean(list)) && !exhausted ==> Exact(list) && Clean(list)
      ensures old(Exact(list)) && exhausted ==> Exact(list)
      ensures exhausted ==> !overrun && old(MarkedIn(list)) <= stale && MarkedIn(list) == stale * Elems<Dso>(list)
      ensures p != null ==> p in list && p.bfsBuilt && WellLinked(list) && p.ndepsDirect <= |p.deps|
      ensures p != null && built ==> Complete(p, list, stale)
      ensures p != null && built && p in old(list) ==> stale == old(MarkedIn(list)) + Elems<Dso>(old(p.deps))
      ensures p != null && built && p !in old(list) ==> stale == old(MarkedIn(list)) + Elems<Dso>(p.deps[..p.ndepsDirect])
      ensures overrun ==> p != null && !p.constructed
      ensures p != null && !p.constructed ==> (overrun <==> !Ample(p, list, if built then {} else old(MarkedIn(list))))
      ensures p != null && !overrun ==>
                var marked := if built then {} else old(MarkedIn(list));
                IsQueueFor(p, list, marked - Elems<Dso>(p.deps) - {p}, queue, order)
    {
      hide During, Valid, Settled, Begun, Exact, Clean, Complete, MarkedIn, WellLinked, New, Ample, IsQueueFor, Joined;
      ghost var s := Now();
      CallBegins();
      var origTail, origSymsTail, origTlsTail := tail, symsTail, tlsTail;
      var origTls, origLazyHead := tls, lazyHead;
      failed, exhausted, overrun, queue, order := false, false, false, null, [];
      freed, built, stale, scope := [], false, {}, [];
      var left;
      assert forall i :: 0 <= i < |list| ==> list[i] in list;
      p, left := LoadLibrary(budget, s);
      if p == null {
        LongerNow(s);
        SettledAgain(s);
        return;
      }
      assert forall i :: 0 <= i < |list| ==> list[i] in list;
      var ok;
      ghost var t;
      ok, exhausted, overrun, queue, order, t, built, stale, scope := Open(p, lazy, global, left, origSymsTail, s);
      if overrun {
        return;
      }
      if ok {
        LongerNow(t);
      } else {
        assert forall i :: 0 <= i < |list| ==> list[i] in list;
        freed := Undo(origTail, origSymsTail, origTlsTail, origTls, origLazyHead, t);
        p, failed := null, true;
      }
    }

    /** The roll-back leaves the marks of the DSOs that stay. */
    method Undo(origTail: Dso, origSymsTail: Dso, origTlsTail: Dso?, origTls: Counters, origLazyHead: Dso?, ghost s: Snapshot)
      returns (ghost freed: seq<Dso>)
      requires During(s) && Distinct(s.tls)
      requires origTail == s.list[|s.list| - 1] && origSymsTail == s.syms[|s.syms| - 1]
      requires origTlsTail == Nth(s.tls, |s.tls| - 1)
      modifies this, list`next, list`symsNext, list`tlsNext
      ensures Valid() && Settled() && list == s.list && syms == s.syms && modules == s.tls
      ensures tls == origTls && lazyHead == origLazyHead
      ensures (s.exact ==> Exact(list)) && (s.clean ==> Clean(list)) && MarkedIn(list) == old(MarkedIn(list)) * Elems<Dso>(list)
      ensures forall d :: d in freed ==> d in old(list) && d !in s.list
    {
      hide During, Valid, Settled, Begun, Exact, Clean, MarkedIn, Distinct;
      assert forall i :: 0 <= i < |list| ==> list[i] in list;
      ghost var all := list;
      freed := Rollback(origTail, origSymsTail, origTlsTail, origTls, origLazyHead, s);
      assert forall d :: d in freed ==> d in all;
      MarksOfPart(all, list);
      SettledAgain(s);
    }

    lemma CallBegins()
      requires Valid() && Settled()
      ensures During(Now()) && Distinct(modules) && tail == list[|list| - 1] && symsTail == syms[|syms| - 1]
      ensures |list| > 0 && |syms| > 0 && tlsTail == Nth(modules, |modules| - 1)
    {
    }

    lemma LongerNow(s: Snapshot)
      requires During(s)
      ensures Valid() && Begun(s) && s.list <= list
    {
    }

    lemma SettledAgain(s: Snapshot)
      requires Begun(s) && list == s.list
      ensures Settled() && (s.exact ==> Exact(list)) && (s.clean ==> Clean(list))
    {
    }
  }

  /** The recorded closure is complete if and only if no stale node can be reached but is no direct dependency. */
  ghost predicate Complete(p: Dso, all: seq<Dso>, stale: set<Dso>)
    requires WellLinked(all) && p in all
    reads p`deps, all`deps, all`ndepsDirect
  {
    var g := Direct(all);
    && Elems<Dso>(g[p]) <= g.Keys && p.deps == StaleBfs<Dso>(g, g[p], 0, stale)
    && (ListsDependencies<Dso>(g, p, p.deps) <==> Harmless<Dso>(g, p, g[p], stale))
  }

  /** Does the array of queue_ctors suffice for `p` if the DSOs of `marked` are marked? */
  ghost predicate Ample(p: Dso, all: seq<Dso>, marked: set<Dso>)
    requires WellLinked(all)
    reads p`deps, all`deps, all`ndepsDirect
  {
    |Nodes(Direct(all), marked - Elems<Dso>(p.deps) - {p}, p)| < |p.deps| + 2
  }

  /** No more DSOs are missed than there are direct dependencies repeated, and one if `p` depends on itself. */
  ghost predicate Affordable(p: Dso, all: seq<Dso>, stale: set<Dso>)
    requires WellLinked(all) && p in all
    reads all`deps, all`ndepsDirect
  {
    var g := Direct(all);
    Missed<Dso>(g, p, stale) <= |g[p]| - |Elems<Dso>(g[p])| + if p in PlusSet<Dso>(g, p) then 1 else 0
  }

  /** For a closure recorded among stale marks that is the exact condition. */
  lemma AmpleIff(p: Dso, all: seq<Dso>, stale: set<Dso>)
    requires WellLinked(all) && p in all && Complete(p, all, stale)
    ensures Ample(p, all, {}) <==> Affordable(p, all, stale)
  {
    hide StaleBfs, Missed, PlusSet, ReachSet, ListsDependencies, Harmless, Without;
    var g := Direct(all);
    assert {} - Elems<Dso>(p.deps) - {p} == {};
    WithoutNone<Dso>(g);
    StaleFitsIff<Dso>(g, p, stale);
  }

  /** What is known once the closure of a DSO has been recorded, or not for want of memory. */
  ghost function AfterExtend(s: Snapshot, ok: bool): Snapshot {
    if !ok then s.(clean := false) else if s.clean then s else s.(exact := false)
  }

  /** What a call of extend_bfs_deps for `p` comes to. */
  ghost predicate Extended(p: Dso, t: Table, t': Table, ok: bool) {
    && p in t && t'.Keys == t.Keys && Shaped(t) && Shaped(t') && GraphOf(t') == GraphOf(t)
    && (forall d :: d in t && d != p ==> t'[d].deps == t[d].deps && t'[d].built == t[d].built)
    && (forall d :: d in t ==> t'[d].direct == t[d].direct)
    && (if t[p].built then ok && t' == t else t'[p].built == ok && (ok ==> MarkedOf(t') == {}))
    && (ok && !t[p].built ==>
          (ListsDependencies<Dso>(GraphOf(t), p, t'[p].deps)
           <==> Harmless<Dso>(GraphOf(t), p, GraphOf(t)[p], MarkedOf(t) + Elems<Dso>(t[p].deps))))
  }

  /** A table says what the DSOs say. */
  lemma TableView(list: seq<Dso>)
    requires forall d :: d in list ==> d.ndepsDirect <= |d.deps|
    ensures var t := TableOf(list);
            && Shaped(t) && GraphOf(t) == Direct(list) && MarkedOf(t) == MarkedIn(list)
            && (forall d :: d in list ==> t[d] == Entry(d.deps, d.ndepsDirect, d.bfsBuilt, d.mark))
            && (forall d :: d in list ==> Direct(list)[d] == d.deps[..d.ndepsDirect])
  {
  }

  lemma SameMarks(t: Table, t': Table)
    requires t'.Keys == t.Keys && MarkedOf(t') == MarkedOf(t) && forall d :: d in t ==> t'[d].(mark := false) == t[d].(mark := false)
    ensures t' == t
  {
    forall d | d in t
      ensures t'[d] == t[d]
    {
      assert d in MarkedOf(t) <==> d in MarkedOf(t');
    }
  }

  /** Clearing marks spoils nothing. */
  lemma MarksCleared(t: Table, t': Table)
    requires t'.Keys == t.Keys && forall d :: d in t ==> t'[d] == t[d] || t'[d] == t[d].(mark := false)
    ensures AllComplete(t) ==> AllComplete(t')
    ensures NothingLeft(t) ==> NothingLeft(t')
  {
    hide ListsDependencies;
    if Shaped(t) {
      assert GraphOf(t') == GraphOf(t);
    }
  }

  /** What dlopen gets to construct: nothing if `p` is constructed, else an array that lists what `p` depends on and itself,
      dependencies first, as far as no DSO of `blocked` is in the way. */
  ghost predicate IsQueueFor(p: Dso, list: seq<Dso>, blocked: set<Dso>, queue: array?<Dso?>, order: seq<Dso>)
    requires WellLinked(list)
    reads p`constructed, list`deps, list`ndepsDirect, if queue == null then {} else {queue}
  {
    if p.constructed then queue == null
    else queue != null && IsQueue(queue, order) && ConstructorOrder<Dso>(Without<Dso>(Direct(list), blocked), p, order)
  }

  lemma FitsIsAmple(p: Dso, list: seq<Dso>)
    requires WellLinked(list) && p.bfsBuilt
    ensures Fits(p, list) <==> Ample(p, list, MarkedIn(list))
    ensures Blocked(p, list) == MarkedIn(list) - Elems<Dso>(p.deps) - {p}
  {
    hide Nodes, MarkedIn;
  }

  lemma ExactFits(p: Dso, list: seq<Dso>)
    requires p in list && WellLinked(list) && Exact(list)
    ensures Fits(p, list)
  {
    hide ListsDependencies;
    assert GraphOf(TableOf(list)) == Direct(list);
    RecordedFits(p, list);
  }

  lemma NoQueue(p: Dso, list: seq<Dso>, blocked: set<Dso>)
    requires p.constructed && WellLinked(list)
    ensures IsQueueFor(p, list, blocked, null, [])
  {
  }

  /** queue_ctors, and what stays known of the DSOs when marks are cleared. */
  method QueueKnown(p: Dso, head: Dso, ghost list: seq<Dso>, ghost s: Snapshot)
    returns (ok: bool, overrun: bool, queue: array?<Dso?>, ghost order: seq<Dso>)
    requires list != [] && head == list[0] && NextOk(list) && p in list && WellLinked(list) && !p.constructed
    requires Elems<Dso>(p.deps) <= Elems<Dso>(list) && Begun(s) && s.list <= list
    modifies list`mark, list`nextDep
    ensures ok ==> !overrun && old(Fits(p, list)) && IsQueueFor(p, list, old(Blocked(p, list)), queue, order)
    ensures overrun ==> !old(Fits(p, list))
    ensures !overrun ==> Begun(s) && (old(Exact(list)) ==> Exact(list)) && (old(Clean(list)) ==> Clean(list))
  {
    hide AllComplete, NothingLeft, OldsOk, Fits, Blocked, ConstructorOrder, Without, Direct, NextOk, WellLinked, IsQueue;
    ghost var t, u := TableOf(list), TableOf(s.list);
    var memory := *;
    var r;
    r, order := QueueCtors(p, head, memory, list);
    ok, overrun, queue := r.Queued?, r.Overrun?, null;
    if r.Queued? {
      queue := r.queue;
    }
    if !overrun {
      assert forall d :: d in list && d.mark ==> d in MarkedIn(list);
      assert forall i :: 0 <= i < |s.list| ==> s.list[i] == list[i];
      MarksCleared(t, TableOf(list));
      MarksCleared(u, TableOf(s.list));
    }
  }

  /** The part of a table for the DSOs of `keys`. */
  ghost function Only(t: Table, keys: set<Dso>): Table {
    map d | d in t && d in keys :: t[d]
  }

  lemma DepsInside(g: Graph<Dso>, p: Dso, l: seq<Dso>, before: seq<Dso>)
    requires Closed<Dso>(g) && g.Keys == Elems<Dso>(l) && p in g && Within(before, l)
    requires forall v :: v in p.deps ==> v in before || ReachablePlus<Dso>(g, p, v)
    ensures Within(p.deps, l)
  {
    hide ReachablePlus;
    forall v | v in p.deps
      ensures v in l
    {
      if v !in before {
        PlusInLarger<Dso>(g, g, p, v);
      }
    }
  }

  /** A DSO without anything stale gets a complete list. */
  lemma Completed(p: Dso, t: Table, t': Table)
    requires Extended(p, t, t', true) && NothingLeft(t)
    ensures !t[p].built ==> ListsDependencies<Dso>(GraphOf(t'), p, t'[p].deps)
  {
    hide ListsDependencies, ReachablePlus;
    if !t[p].built {
      assert GraphOf(t)[p] == t[p].deps;
      assert MarkedOf(t) == {};
      assert Harmless<Dso>(GraphOf(t), p, t[p].deps, {} + Elems<Dso>(t[p].deps));
    }
  }

  lemma OnlyGraph(t: Table, keys: set<Dso>)
    requires Shaped(t)
    ensures Shaped(Only(t, keys)) && forall d :: d in t && d in keys ==> GraphOf(Only(t, keys))[d] == GraphOf(t)[d]
  {
  }

  lemma ExactKept(p: Dso, t: Table, t': Table, keys: set<Dso>, ok: bool)
    requires Extended(p, t, t', ok) && keys <= t.Keys && (p in keys ==> keys == t.Keys) && AllComplete(Only(t, keys))
    requires ok && p in keys ==> NothingLeft(t)
    ensures AllComplete(Only(t', keys))
  {
    hide AllComplete, Extended, GraphOf;
    if p in keys {
      OnlyAll(t);
      OnlyAll(t');
      ExactInPlace(p, t, t', ok) by { ExtendedKeys(p, t, t', ok); }
      ExtendedKeys(p, t, t', ok);
    } else {
      ExactElsewhere(p, t, t', keys, ok);
    }
  }

  lemma OnlyAll(t: Table)
    ensures Only(t, t.Keys) == t
  {
  }

  lemma ExtendedKeys(p: Dso, t: Table, t': Table, ok: bool)
    requires Extended(p, t, t', ok)
    ensures t'.Keys == t.Keys
  {
  }

  lemma ExactInPlace(p: Dso, t: Table, t': Table, ok: bool)
    requires Extended(p, t, t', ok) && AllComplete(t) && (ok ==> NothingLeft(t))
    ensures AllComplete(t')
  {
    hide ListsDependencies, Harmless;
    if ok {
      Completed(p, t, t');
    }
  }

  lemma ExactElsewhere(p: Dso, t: Table, t': Table, keys: set<Dso>, ok: bool)
    requires Extended(p, t, t', ok) && keys <= t.Keys && p !in keys && AllComplete(Only(t, keys))
    ensures AllComplete(Only(t', keys))
  {
    hide ListsDependencies, Harmless;
    var o, o' := Only(t, keys), Only(t', keys);
    assert Shaped(o');
    assert GraphOf(o') == GraphOf(o) by {
      OnlyGraph(t, keys);
      OnlyGraph(t', keys);
    }
  }

  lemma CleanKept(p: Dso, t: Table, t': Table, keys: set<Dso>)
    requires Extended(p, t, t', true) && NothingLeft(Only(t, keys))
    ensures NothingLeft(Only(t', keys))
  {
    hide ListsDependencies, Harmless, GraphOf;
    forall d | d in t' && d in keys
      ensures !t'[d].mark && (t'[d].built || |t'[d].deps| == t'[d].direct)
    {
      assert d in Only(t, keys);
      assert !t[p].built ==> d !in MarkedOf(t');
    }
  }

  /** All lists are complete and nothing is left behind, old and new DSOs alike. */
  lemma AllKept(p: Dso, t: Table, t': Table, keys: set<Dso>)
    requires Extended(p, t, t', true) && keys <= t.Keys && (p in keys ==> keys == t.Keys)
    requires AllComplete(Only(t, keys)) && NothingLeft(t) && Shaped(Only(t, keys)) && Closed<Dso>(GraphOf(Only(t, keys)))
    requires forall d :: d in t && d !in keys ==> !t[d].built
    ensures AllComplete(t') && NothingLeft(t')
  {
    hide ListsDependencies, Harmless;
    CleanKept(p, t, t', t.Keys) by { assert Only(t, t.Keys) == t; }
    assert Only(t', t.Keys) == t';
    OnlyGraph(t, keys);
    var o := Only(t, keys);
    forall d | d in t' && t'[d].built
      ensures ListsDependencies<Dso>(GraphOf(t'), d, t'[d].deps)
    {
      if d == p && !t[p].built {
        Completed(p, t, t');
      } else {
        assert d in o && o[d] == t[d] && t'[d].deps == t[d].deps;
        ListsInLarger<Dso>(GraphOf(o), GraphOf(t'), d, t'[d].deps);
      }
    }
  }

  /** `o` is the part of `t` for the DSOs of `keys`, which depend on each other only; the others are as loading leaves
      them. */
  ghost predicate Known(t: Table, o: Table, keys: set<Dso>) {
    && o == Only(t, keys) && keys <= t.Keys && Shaped(o) && Closed<Dso>(GraphOf(o))
    && (forall d :: d in t && d !in keys ==> !t[d].built && !t[d].mark && |t[d].deps| == t[d].direct)
  }

  lemma Kept(p: Dso, t: Table, t': Table, keys: set<Dso>, ok: bool)
    requires Extended(p, t, t', ok) && (p in keys ==> keys == t.Keys) && Known(t, Only(t, keys), keys)
    ensures AllComplete(Only(t, keys)) && (!ok || NothingLeft(Only(t, keys))) ==> AllComplete(Only(t', keys))
    ensures NothingLeft(Only(t, keys)) && ok ==> NothingLeft(Only(t', keys))
    ensures AllComplete(Only(t, keys)) && NothingLeft(Only(t, keys)) && ok ==> AllComplete(t') && NothingLeft(t')
  {
    hide Extended, AllComplete, GraphOf;
    var o := Only(t, keys);
    assert NothingLeft(o) ==> NothingLeft(t) by {
      assert forall d :: d in keys && d in t ==> d in o;
    }
    hide NothingLeft;
    if AllComplete(o) && (!ok || NothingLeft(o)) {
      ExactKept(p, t, t', keys, ok);
    }
    if NothingLeft(o) && ok {
      CleanKept(p, t, t', keys);
      if AllComplete(o) {
        AllKept(p, t, t', keys);
      }
    }
  }

  /** The DSOs of the snapshot depend on each other only, and what is known of them holds. */
  ghost predicate Begun(s: Snapshot)
    reads s.list`deps, s.list`ndepsDirect, s.list`depsSet, s.list`relocated, s.list`bfsBuilt, s.list`mark
  {
    OldsOk(s) && (s.exact ==> Exact(s.list)) && (s.clean ==> Clean(s.list))
  }

  ghost predicate OldsOk(s: Snapshot)
    reads s.list`deps, s.list`ndepsDirect, s.list`depsSet, s.list`relocated
  {
    && s.list != [] && s.syms != [] && Within(s.syms, s.list) && Within(s.tls, s.list)
    && forall d :: d in s.list ==> HasDeps(d) && d.relocated && Within(d.deps, s.list)
  }

  /** The chain `syms` followed by those of `p` and `deps` that are not on it. */
  ghost function Joined(syms: seq<Dso>, p: Dso, deps: seq<Dso>): seq<Dso> {
    syms + Fresh<Dso>([p] + deps, Elems<Dso>(syms))
  }

  /** The chain once `p` and the first `i` of `deps` are added. */
  ghost function JoinedUpTo(syms: seq<Dso>, p: Dso, deps: seq<Dso>, i: nat): seq<Dso>
    requires i <= |deps|
  {
    Joined(syms, p, deps[..i])
  }

  lemma JoinedFirst(syms: seq<Dso>, p: Dso, deps: seq<Dso>)
    ensures JoinedUpTo(syms, p, deps, 0) == if p in syms then syms else syms + [p]
  {
    assert [p] + deps[..0] == [p] && [p][1..] == [];
    assert p in Elems<Dso>(syms) <==> p in syms;
    assert Fresh<Dso>([p][1..], Elems<Dso>(syms)) == [] == Fresh<Dso>([p][1..], Elems<Dso>(syms) + {p});
  }

  lemma JoinedNext(syms: seq<Dso>, p: Dso, deps: seq<Dso>, i: nat)
    requires i < |deps|
    ensures var c := JoinedUpTo(syms, p, deps, i);
            JoinedUpTo(syms, p, deps, i + 1) == if deps[i] in c then c else c + [deps[i]]
  {
    var ds := [p] + deps[..i];
    FreshSnoc<Dso>(ds, Elems<Dso>(syms), deps[i]);
    assert ds + [deps[i]] == [p] + deps[..i + 1];
    assert deps[i] in Joined(syms, p, deps[..i]) <==> deps[i] in Elems<Dso>(syms) || deps[i] in Fresh<Dso>(ds, Elems<Dso>(syms));
  }

  lemma JoinedAll(syms: seq<Dso>, p: Dso, deps: seq<Dso>)
    ensures JoinedUpTo(syms, p, deps, |deps|) == Joined(syms, p, deps)
  {
    assert deps[..|deps|] == deps;
  }

  /** What was on the chain stays in its place; `p` and all of `deps` are on it and nothing else, each once, in the order
      in which they stand first in the list of `p` and `deps`. */
  lemma JoinedIs(syms: seq<Dso>, p: Dso, deps: seq<Dso>)
    requires Distinct(syms)
    ensures var c, ds := Joined(syms, p, deps), [p] + deps;
            && syms <= c && Distinct(c) && (forall d :: d in c <==> d in syms || d in ds)
            && forall i, j :: |syms| <= i < j < |c| ==> First<Dso>(ds, c[i]) < First<Dso>(ds, c[j]) < |ds|
  {
    hide Fresh, First, Elems;
    var c, ds := Joined(syms, p, deps), [p] + deps;
    assert c == syms + Fresh<Dso>(ds, Elems<Dso>(syms)) && syms <= c;
    JoinedHas(syms, ds);
    forall i, j | |syms| <= i < j < |c|
      ensures First<Dso>(ds, c[i]) < First<Dso>(ds, c[j]) < |ds|
    {
      FreshInOrder<Dso>(ds, Elems<Dso>(syms), i - |syms|, j - |syms|);
    }
  }

  lemma JoinedHas(syms: seq<Dso>, ds: seq<Dso>)
    requires Distinct(syms)
    ensures var c := syms + Fresh<Dso>(ds, Elems<Dso>(syms)); Distinct(c) && forall d :: d in c <==> d in syms || d in ds
  {
    hide Fresh;
    var f := Fresh<Dso>(ds, Elems<Dso>(syms));
    FreshFacts<Dso>(ds, Elems<Dso>(syms));
    var c := syms + f;
    forall i, j | 0 <= i < j < |c|
      ensures c[i] != c[j]
    {
      if i < |syms| <= j {
        assert c[j] in f && c[i] in syms;
      }
    }
  }

  /** A DSO is on the chain exactly if it has a link or is the last. */
  lemma OnChain(list: seq<Dso>, syms: seq<Dso>, tail: Dso, p: Dso)
    requires SymsNextOk(syms) && OffChain(list, syms) && p in list && syms != [] && tail == syms[|syms| - 1]
    ensures p in syms <==> p.symsNext != null || tail == p
  {
    if p in syms {
      var i :| 0 <= i < |syms| && syms[i] == p;
    }
  }

  /** Links from place `n` - 1 up to place `i` are cut. */
  ghost predicate Cut(s: seq<Dso>, n: nat, i: nat)
    reads s`symsNext
  {
    forall k :: 0 <= k < |s| ==> s[k].symsNext == if n - 1 <= k < i then null else Nth(s, k + 1)
  }

  /** The loop of revert_syms. */
  method CutLinks(oldTail: Dso, ghost list: seq<Dso>, ghost syms: seq<Dso>, ghost n: nat)
    requires Distinct(syms) && SymsNextOk(syms) && OffChain(list, syms) && 0 < n <= |syms| && oldTail == syms[n - 1]
    modifies syms`symsNext
    ensures Cut(syms, n, |syms|) && OffChain(list, syms)
  {
    hide Cut, Distinct, SymsNextOk, OffChain;
    var p: Dso? := oldTail;
    ghost var i: nat := n - 1;
    CutNothing(syms, n);
    while p != null
      invariant n - 1 <= i <= |syms| && p == Nth(syms, i) && Cut(syms, n, i) && OffChain(list, syms)
      decreases |syms| - i
    {
      p := CutOne(p, list, syms, n, i);
      i := i + 1;
    }
  }

  lemma CutNothing(s: seq<Dso>, n: nat)
    requires SymsNextOk(s) && 0 < n
    ensures Cut(s, n, n - 1)
  {
  }

  lemma CutChain(list: seq<Dso>, s: seq<Dso>, n: nat)
    requires Cut(s, n, |s|) && OffChain(list, s) && 0 < n <= |s| && Distinct(s) && Within(s, list)
    ensures SymsNextOk(s[..n]) && OffChain(list, s[..n]) && Distinct(s[..n]) && Within(s[..n], list)
  {
    var t := s[..n];
    assert forall k :: 0 <= k < n ==> s[k] == t[k];
    forall d | d in list && d !in t
      ensures d.symsNext == null
    {
      if d in s {
        var k :| 0 <= k < |s| && s[k] == d;
      }
    }
  }

  method CutOne(p: Dso, ghost list: seq<Dso>, ghost s: seq<Dso>, ghost n: nat, ghost i: nat) returns (next: Dso?)
    requires Distinct(s) && OffChain(list, s) && Cut(s, n, i) && 0 < n <= i + 1 && i < |s| && s[i] == p
    modifies p`symsNext
    ensures Cut(s, n, i + 1) && OffChain(list, s) && next == Nth(s, i + 1)
  {
    next := p.symsNext;
    p.symsNext := null;
  }

  lemma WithinMore(s: seq<Dso>, t: seq<Dso>, p: Dso)
    requires Within(s, t)
    ensures Within(s, t + [p])
  {
  }

  lemma OffChainMore(list: seq<Dso>, syms: seq<Dso>, p: Dso)
    requires OffChain(list, syms) && p.symsNext == null
    ensures OffChain(list + [p], syms)
  {
  }

  lemma OffChainLess(list: seq<Dso>, syms: seq<Dso>, l: seq<Dso>)
    requires OffChain(list, syms) && l <= list
    ensures OffChain(l, syms)
  {
  }

  lemma MarksOfPart(all: seq<Dso>, l: seq<Dso>)
    requires l <= all
    ensures MarkedIn(l) == MarkedIn(all) * Elems<Dso>(l)
  {
    assert forall i :: 0 <= i < |l| ==> l[i] == all[i];
  }

  lemma AllInMore(list: seq<Dso>, p: Dso)
    requires AllIn(list) && p.deps == [] && p.ndepsDirect == 0
    ensures AllIn(list + [p])
  {
  }

  /** `t` is `s` with more DSOs. */
  ghost predicate Grew(s: seq<Dso>, t: seq<Dso>) {
    |s| <= |t| && forall d :: d in s ==> d in t
  }

  /** With its last link cut, a prefix of a TLS chain is a chain. */
  lemma TlsCut(was: seq<Dso>, s: seq<Dso>)
    requires s <= was && Distinct(was)
    requires forall i :: 0 <= i < |s| - 1 ==> was[i].tlsNext == Nth(was, i + 1)
    requires s != [] ==> was[|s| - 1].tlsNext == null
    ensures TlsNextOk(s) && Distinct(s)
  {
  }

  lemma NextCut(was: seq<Dso>, s: seq<Dso>)
    requires s <= was && Distinct(was) && s != []
    requires forall i :: 0 <= i < |s| - 1 ==> was[i].next == Nth(was, i + 1)
    requires was[|s| - 1].next == null
    ensures NextOk(s) && Distinct(s)
  {
  }

  lemma NextAt(s: seq<Dso>, k: nat)
    requires NextOk(s) && k < |s|
    ensures s[k].next == Nth(s, k + 1)
  {
  }

  lemma DistinctParts(s: seq<Dso>, t: seq<Dso>)
    requires Distinct(s + t)
    ensures forall d :: d in t ==> d !in s
  {
    var all := s + t;
    assert forall i :: 0 <= i < |s| ==> s[i] == all[i];
    assert forall j :: 0 <= j < |t| ==> t[j] == all[|s| + j];
  }
}
