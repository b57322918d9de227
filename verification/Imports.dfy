/** The import graph of internal/imports/graph.go: cycle detection, dependency order and
    dependency chains. */
module Imports {
  import opened Digraph
  import opened TarjanInvariant
  import opened Wrappers
  import Strings

  class Tarjan {
    const graph: Graph
    var index: nat
    var stack: seq<string>
    var onStack: map<string, bool>
    var indices: map<string, nat>
    var lowlink: map<string, nat>
    var sccs: seq<seq<string>>

    ghost function View(): State
      reads this
    {
      State(index, stack, onStack, indices, lowlink, sccs)
    }

    constructor (g: Graph)
      ensures graph == g
      ensures View() == State(0, [], map[], map[], map[], [])
    {
      graph := g;
      index, stack, onStack, indices, lowlink, sccs := 0, [], map[], map[], map[], [];
    }

    /** Visits v and everything it reaches that has no number yet. `grey` holds the callers whose
        call is still open, `all` a closed set of vertices. */
    method StrongConnect(v: string, ghost grey: set<string>, ghost all: set<string>)
      requires Inv(graph, View(), grey)
      requires v !in indices && forall x :: x in grey ==> Reaches(graph, x, v)
      requires Closed(graph, all) && v in all && indices.Keys <= all
      modifies this
      ensures Extends(old(View()), View())
      ensures Inv(graph, View(), grey)
      ensures v in indices && Returned(graph, old(View()), v, View())
      ensures indices.Keys <= all
      decreases all - indices.Keys, 1
    {
      hide Partitioned, Linked, LowLink, Bounds, Named, Reaches;
      ghost var s := View();
      indices := indices[v := index];
      lowlink := lowlink[v := index];
      index := index + 1;
      stack := stack + [v];
      onStack := onStack[v := true];
      assert View() == Push(s, v);
      ScanStart(graph, s, v, grey);

      ScanImports(v, s, grey, all);
      CloseCall(v, s, grey);
    }

    /** The end of `strongconnect`, when all imports of v have been scanned. */
    method CloseCall(v: string, ghost s: State, ghost grey: set<string>)
      requires Inv(graph, s, grey) && v !in s.indices
      requires Scanning(graph, s, v, grey, View(), Succ(graph, v))
      modifies this`stack, this`onStack, this`sccs
      ensures Extends(s, View()) && Inv(graph, View(), grey) && Returned(graph, s, v, View())
    {
      hide Partitioned, Linked, LowLink, Bounds, Named, Reaches;
      ghost var t := View();
      LowAtMost(graph, s, v, grey, t);
      if lowlink[v] == indices[v] {
        var c := PopComponent(v, s.stack);
        sccs := sccs + [c];
        Emit(graph, s, v, grey, t, c, View());
      } else {
        Stay(graph, s, v, grey, t);
      }
    }

    /** The loop over the imports of v; a dangling import has none. */
    method ScanImports(v: string, ghost s: State, ghost grey: set<string>, ghost all: set<string>)
      requires Numbered(s) && v !in s.indices
      requires Scanning(graph, s, v, grey, View(), [])
      requires forall x :: x in grey ==> Reaches(graph, x, v)
      requires Closed(graph, all) && v in all && indices.Keys <= all
      modifies this
      ensures Scanning(graph, s, v, grey, View(), Succ(graph, v))
      ensures indices.Keys <= all
      decreases all - s.indices.Keys, 0
    {
      hide Numbered, Scanning, Reaches, Closed;
      if v in graph {
        var imports := graph[v];
        var k := 0;
        while k < |imports|
          invariant k <= |imports|
          invariant Scanning(graph, s, v, grey, View(), imports[..k])
          invariant indices.Keys <= all
        {
          assert imports[..k + 1] == imports[..k] + [imports[k]];
          ScanProgress(graph, s, v, grey, View(), imports[..k], all);
          ScanImport(v, imports[k], s, grey, imports[..k], all);
          k := k + 1;
        }
        assert imports[..k] == Succ(graph, v);
      }
    }

    /** The body of that loop. */
    method ScanImport(v: string, w: string, ghost s: State, ghost grey: set<string>, ghost done: seq<string>,
                      ghost all: set<string>)
      requires Numbered(s) && v !in s.indices && w in Succ(graph, v)
      requires Scanning(graph, s, v, grey, View(), done)
      requires forall x :: x in grey ==> Reaches(graph, x, v)
      requires Closed(graph, all) && v in all && indices.Keys <= all
      modifies this
      ensures Scanning(graph, s, v, grey, View(), done + [w])
      ensures indices.Keys <= all
      decreases all - indices.Keys, 2
    {
      hide Partitioned, Linked, LowLink, Bounds, Named, Reaches;
      ghost var t := View();
      if w !in indices {
        GreyReachesImport(graph, grey, v, w);
        StrongConnect(w, grey + {v}, all);
        ScanTreeEdge(graph, s, v, grey, t, done, w, View());
        if lowlink[w] < lowlink[v] {
          lowlink := lowlink[v := lowlink[w]];
        }
      } else if w in onStack && onStack[w] {
        ScanBackEdge(graph, s, v, grey, t, done, w);
        if indices[w] < lowlink[v] {
          lowlink := lowlink[v := indices[w]];
        }
      } else {
        ScanEmitted(graph, s, v, grey, t, done, w);
      }
    }

    /** The pop loop at the end of `strongconnect`. */
    method PopComponent(v: string, ghost base: seq<string>) returns (c: seq<string>)
      requires Numbered(View()) && v in indices && base + [v] <= stack
      modifies this`stack, this`onStack
      ensures Popped(base, old(View()), v, c, View().(sccs := sccs + [c]))
    {
      hide Above, Distinct;
      ghost var all, t := stack, View();
      StackDistinct(t);
      NoneDistinct();
      assert all[|base|] == v;
      c := [];
      while true
        invariant |base| < |stack| <= |all| && stack == all[..|stack|]
        invariant Distinct(c) && forall x :: x in c <==> x in all[|stack|..]
        invariant forall x :: x in stack <==> x in onStack && onStack[x]
        decreases |stack|
      {
        var n := |stack| - 1;
        var w := stack[n];
        TailGrows(all, n, c);
        stack := stack[..n];
        onStack := onStack[w := false];
        c := c + [w];
        if w == v {
          PlaceUnique(all, n, |base|);
          break;
        }
      }
      assert stack == base;
      AboveTail(base, t, v);
    }
  }

  lemma NoneDistinct()
    ensures Distinct([])
  {
  }

  lemma StackDistinct(t: State)
    requires Numbered(t)
    ensures Distinct(t.stack)
  {
  }

  lemma PlaceUnique(all: seq<string>, i: nat, j: nat)
    requires Distinct(all) && i < |all| && j < |all| && all[i] == all[j]
    ensures i == j
  {
  }

  /** The popped vertices c are those after position n; the vertex there joins them. */
  lemma TailGrows(all: seq<string>, n: nat, c: seq<string>)
    requires Distinct(all) && n < |all| && Distinct(c) && forall x :: x in c <==> x in all[n + 1..]
    ensures Distinct(c + [all[n]]) && forall x :: x in c + [all[n]] <==> x in all[n..]
    ensures forall x :: x in all[..n] <==> x in all[..n + 1] && x != all[n]
  {
    assert all[n..] == [all[n]] + all[n + 1..] && all[..n + 1] == all[..n] + [all[n]];
    assert all[n] !in all[n + 1..];
    assert all[n] !in c;
  }

  lemma LowAtMost(g: Graph, s: State, v: string, grey: set<string>, t: State)
    requires Scanning(g, s, v, grey, t, Succ(g, v))
    ensures t.lowlink[v] <= t.indices[v]
  {
  }

  lemma ScanProgress(g: Graph, s: State, v: string, grey: set<string>, t: State, done: seq<string>, all: set<string>)
    requires Scanning(g, s, v, grey, t, done) && v !in s.indices && t.indices.Keys <= all
    ensures all - t.indices.Keys < all - s.indices.Keys
  {
    assert v in all - s.indices.Keys;
  }

  /** sccs lists the strongly connected components of g, each vertex in exactly one of them. */
  ghost predicate Decomposition(g: Graph, sccs: seq<seq<string>>) {
    && (forall k :: 0 <= k < |sccs| ==> IsComponent(g, sccs[k]))
    && (forall v :: v in Vertices(g) <==> Emitted(sccs, v))
    && (forall k, l, v :: 0 <= k < |sccs| && 0 <= l < |sccs| && v in sccs[k] && v in sccs[l] ==> k == l)
  }

  lemma StackedNeedsOpen(g: Graph, s: State, grey: set<string>)
    requires Inv(g, s, grey) && s.stack != []
    ensures grey != {}
  {
    assert ReachesOpen(g, s.indices, grey, s.stack[0]);
  }

  lemma AllVisited(g: Graph, s: State)
    requires Inv(g, s, {}) && g.Keys <= s.indices.Keys <= Vertices(g)
    ensures Decomposition(g, s.sccs)
  {
    if s.stack != [] {
      StackedNeedsOpen(g, s, {});
    }
    forall v | v in Vertices(g) ensures v in s.indices {
      if v !in g {
        var u :| u in g && v in g[u];
        assert v in Succ(g, u);
      }
    }
  }

  /** The first half of `DetectCycles`: the map is walked in an arbitrary order. */
  method Components(g: Graph) returns (sccs: seq<seq<string>>)
    ensures Decomposition(g, sccs)
  {
    hide Partitioned, Linked, Reaches;
    var t := new Tarjan(g);
    VerticesClosed(g);
    InitialInv(g);
    var todo := g.Keys;
    while todo != {}
      invariant t.graph == g && todo <= g.Keys
      invariant Inv(g, t.View(), {})
      invariant g.Keys - todo <= t.indices.Keys <= Vertices(g)
    {
      var path :| path in todo;
      if path !in t.indices {
        t.StrongConnect(path, {}, Vertices(g));
      }
      todo := todo - {path};
    }
    AllVisited(g, t.View());
    return t.sccs;
  }

  lemma InitialInv(g: Graph)
    ensures Inv(g, State(0, [], map[], map[], map[], []), {})
  {
  }

  /** The test `DetectCycles` applies to a component of one vertex. */
  method ImportsItself(g: Graph, v: string) returns (r: bool)
    ensures r <==> v in Succ(g, v)
  {
    r := false;
    if v in g {
      for k := 0 to |g[v]|
        invariant v !in g[v][..k]
      {
        if g[v][k] == v {
          return true;
        }
      }
    }
  }

  lemma ComponentCycles(g: Graph, c: seq<string>)
    requires IsComponent(g, c)
    ensures forall v :: v in c ==> (OnCycle(g, v) <==> |c| > 1 || v in Succ(g, v))
  {
    forall v | v in c ensures OnCycle(g, v) <==> |c| > 1 || v in Succ(g, v) {
      if |c| > 1 {
        var u := if c[0] == v then c[1] else c[0];
        assert u != v && u in c;
        assert Reaches(g, v, u) && Reaches(g, u, v);
        ReachesOther(g, v, u);
        var w :| w in Succ(g, v) && Reaches(g, w, u);
        ReachesTrans(g, w, u, v);
      } else {
        SingletonCycle(g, c, v);
      }
    }
  }

  lemma SingletonCycle(g: Graph, c: seq<string>, v: string)
    requires IsComponent(g, c) && c == [v]
    ensures OnCycle(g, v) <==> v in Succ(g, v)
  {
    ReachesSelf(g, v);
    if OnCycle(g, v) {
      var w :| w in Succ(g, v) && Reaches(g, w, v);
      EdgeReaches(g, v, w);
      assert Mutual(g, v, w);
    }
  }

  ghost predicate ListedOnce(cycles: seq<seq<string>>) {
    forall k, l, v :: 0 <= k < |cycles| && 0 <= l < |cycles| && v in cycles[k] && v in cycles[l] ==> k == l
  }

  lemma NextListedOnce(g: Graph, sccs: seq<seq<string>>, k: nat, cycles: seq<seq<string>>)
    requires Decomposition(g, sccs) && k < |sccs| && ListedOnce(cycles)
    requires forall v :: Emitted(cycles, v) ==> Emitted(sccs[..k], v)
    ensures ListedOnce(cycles + [sccs[k]])
  {
    hide IsComponent;
    forall i, v | 0 <= i < |cycles| && v in cycles[i] ensures v !in sccs[k] {
      assert Emitted(cycles, v);
      var j :| 0 <= j < |sccs[..k]| && v in sccs[..k][j];
      assert v in sccs[j];
    }
  }

  /** The cyclic components, and so nothing exactly when the import graph is acyclic. */
  method DetectCycles(g: Graph) returns (cycles: seq<seq<string>>)
    ensures forall k :: 0 <= k < |cycles| ==> IsComponent(g, cycles[k])
    ensures forall v :: OnCycle(g, v) <==> Emitted(cycles, v)
    ensures cycles == [] <==> Acyclic(g)
    ensures forall k, l, v :: 0 <= k < |cycles| && 0 <= l < |cycles| && v in cycles[k] && v in cycles[l] ==> k == l
  {
    var sccs := Components(g);
    cycles := [];
    for k := 0 to |sccs|
      invariant forall i :: 0 <= i < |cycles| ==> IsComponent(g, cycles[i])
      invariant forall v :: Emitted(cycles, v) <==> Emitted(sccs[..k], v) && OnCycle(g, v)
      invariant ListedOnce(cycles)
    {
      ComponentCycles(g, sccs[k]);
      var cyclic := |sccs[k]| > 1;
      if |sccs[k]| == 1 {
        cyclic := ImportsItself(g, sccs[k][0]);
      }
      assert sccs[..k + 1] == sccs[..k] + [sccs[k]];
      EmittedSnoc(sccs[..k], sccs[k]);
      EmittedSnoc(cycles, sccs[k]);
      if cyclic {
        NextListedOnce(g, sccs, k, cycles);
        cycles := cycles + [sccs[k]];
      }
    }
    assert sccs[..|sccs|] == sccs;
    forall v | OnCycle(g, v) ensures v in Vertices(g) {
    }
    if cycles != [] {
      assert cycles[0][0] in cycles[0];
      assert Emitted(cycles, cycles[0][0]);
    }
  }

  /** Every entry's imports come before it. */
  ghost predicate DependenciesFirst(g: Graph, order: seq<string>) {
    forall i, w :: 0 <= i < |order| && w in Succ(g, order[i]) ==> w in order[..i]
  }

  predicate Flag(m: map<string, bool>, k: string) {
    k in m && m[k]
  }

  // ---- The one order that a depth-first search gives ----

  /** What visiting path appends; free are the vertices not being visited. */
  ghost function PostVisit(g: Graph, path: string, sorted: seq<string>, free: set<string>): seq<string>
    decreases free, 0
  {
    if path in sorted || path !in free then sorted else PostAll(g, Succ(g, path), sorted, free - {path}) + [path]
  }

  ghost function PostAll(g: Graph, paths: seq<string>, sorted: seq<string>, free: set<string>): seq<string>
    decreases free, |paths| + 1
  {
    if paths == [] then sorted else PostAll(g, paths[1..], PostVisit(g, paths[0], sorted, free), free)
  }

  /** Imports before importers, starting from the nodes in increasing order. */
  ghost function PostOrder(g: Graph): seq<string> {
    PostAll(g, Strings.Listing(g.Keys), [], Vertices(g))
  }

  ghost function Free(all: set<string>, visiting: map<string, bool>): set<string> {
    set x | x in all && !Flag(visiting, x)
  }

  lemma SameFree(all: set<string>, a: map<string, bool>, b: map<string, bool>)
    requires forall x :: Flag(a, x) <==> Flag(b, x)
    ensures Free(all, a) == Free(all, b)
  {
  }

  lemma MarkFree(all: set<string>, visiting: map<string, bool>, path: string)
    ensures Free(all, visiting[path := true]) == Free(all, visiting) - {path}
  {
  }

  lemma PostStep(g: Graph, paths: seq<string>, k: nat, sorted: seq<string>, free: set<string>)
    requires k < |paths|
    ensures PostAll(g, paths[k..], sorted, free) ==
            PostAll(g, paths[k + 1..], PostVisit(g, paths[k], sorted, free), free)
  {
    hide PostVisit;
    assert paths[k..][0] == paths[k] && paths[k..][1..] == paths[k + 1..];
  }

  lemma PostDone(g: Graph, paths: seq<string>, sorted: seq<string>, free: set<string>)
    ensures PostAll(g, paths[|paths|..], sorted, free) == sorted
    ensures PostAll(g, paths[0..], sorted, free) == PostAll(g, paths, sorted, free)
  {
    assert paths[|paths|..] == [] && paths[0..] == paths;
  }

  ghost function Untouched(all: set<string>, sorted: seq<string>, visiting: map<string, bool>): set<string> {
    set x | x in all && x !in sorted && !Flag(visiting, x)
  }

  /** The closure `visit` of `TopologicalSort` with the variables it captures. */
  class DepthFirstSort {
    const graph: Graph
    var sorted: seq<string>
    var visited: map<string, bool>
    var visiting: map<string, bool>

    constructor (g: Graph)
      ensures graph == g && sorted == [] && visited == map[] && visiting == map[]
    {
      graph := g;
      sorted, visited, visiting := [], map[], map[];
    }

    ghost predicate Valid()
      reads this
    {
      && Distinct(sorted)
      && (forall v :: v in sorted <==> Flag(visited, v))
      && DependenciesFirst(graph, sorted)
    }

    ghost predicate Ready(all: set<string>)
      reads this
    {
      && Valid()
      && Closed(graph, all)
      && (forall v :: v in sorted ==> v in all)
      && (forall x :: Flag(visiting, x) ==> x in all && x !in sorted)
    }

    /** The callers' marks are as they were and only vertices have been appended. */
    ghost predicate Grown(all: set<string>, start: seq<string>, open: map<string, bool>)
      reads this
    {
      && Ready(all)
      && start <= sorted
      && (forall x :: Flag(visiting, x) <==> Flag(open, x))
    }

    /** A failure names a cycle; otherwise path and what it reaches is appended, imports first. */
    method Visit(path: string, ghost all: set<string>) returns (ok: bool)
      requires Ready(all) && path in all
      requires forall x :: Flag(visiting, x) ==> ReachesPlus(graph, x, path)
      modifies this
      ensures !ok ==> !Acyclic(graph)
      ensures ok ==> Grown(all, old(sorted), old(visiting)) && path in sorted
      ensures ok ==> sorted == PostVisit(graph, path, old(sorted), Free(all, old(visiting)))
      decreases Untouched(all, sorted, visiting), 0
    {
      hide Reaches, ReachesPlus, Closed, DependenciesFirst, Distinct, PostAll;
      if Flag(visited, path) {
        return true;
      }
      if Flag(visiting, path) {
        assert OnCycle(graph, path);
        return false;
      }
      ghost var start, open := sorted, visiting;
      MarkFree(all, visiting, path);
      visiting := visiting[path := true];
      PostDone(graph, Succ(graph, path), start, Free(all, visiting));
      if path in graph {
        assert path in Untouched(all, start, open) && path !in Untouched(all, sorted, visiting);
        ok := VisitImports(path, open, all);
        if !ok {
          return;
        }
      }
      Finish(path, open, all);
      return true;
    }

    /** The end of `visit`: path is marked visited and appended. */
    method Finish(path: string, ghost open: map<string, bool>, ghost all: set<string>)
      requires Ready(all) && path in all && !Flag(open, path)
      requires forall x :: Flag(visiting, x) <==> x == path || Flag(open, x)
      requires forall w :: w in Succ(graph, path) ==> w in sorted
      modifies this
      ensures Grown(all, old(sorted), open) && sorted == old(sorted) + [path]
    {
      hide Closed, DependenciesFirst;
      AppendOrdered(graph, sorted, path);
      visiting := visiting[path := false];
      visited := visited[path := true];
      sorted := sorted + [path];
    }

    /** The loop over the imports of path. */
    method VisitImports(path: string, ghost open: map<string, bool>, ghost all: set<string>) returns (ok: bool)
      requires Ready(all) && path in graph
      requires forall x :: Flag(visiting, x) <==> x == path || Flag(open, x)
      requires forall x :: Flag(open, x) ==> ReachesPlus(graph, x, path)
      modifies this
      ensures !ok ==> !Acyclic(graph)
      ensures ok ==> Grown(all, old(sorted), old(visiting)) && forall w :: w in graph[path] ==> w in sorted
      ensures ok ==> sorted == PostAll(graph, graph[path], old(sorted), Free(all, old(visiting)))
      decreases Untouched(all, sorted, visiting), 1
    {
      hide Reaches, ReachesPlus, PostVisit, PostAll, Free;
      PostDone(graph, graph[path], sorted, Free(all, visiting));
      ghost var start, marked := sorted, visiting;
      for k := 0 to |graph[path]|
        invariant Grown(all, start, marked)
        invariant forall w :: w in graph[path][..k] ==> w in sorted
        invariant PostAll(graph, graph[path][k..], sorted, Free(all, marked)) ==
                  PostAll(graph, graph[path], start, Free(all, marked))
      {
        PostStep(graph, graph[path], k, sorted, Free(all, marked));
        SameFree(all, visiting, marked);
        var dep := graph[path][k];
        assert dep in Succ(graph, path) && path in all;
        CallersReach(graph, visiting, open, path, dep);
        Prefix(start, sorted);
        ghost var now := sorted;
        ok := Visit(dep, all);
        if !ok {
          return;
        }
        Prefix(now, sorted);
        assert graph[path][..k + 1] == graph[path][..k] + [dep];
      }
      assert graph[path][..|graph[path]|] == graph[path];
      PostDone(graph, graph[path], sorted, Free(all, marked));
      return true;
    }
  }

  lemma AppendOrdered(g: Graph, order: seq<string>, v: string)
    requires DependenciesFirst(g, order)
    requires forall w :: w in Succ(g, v) ==> w in order
    ensures DependenciesFirst(g, order + [v])
  {
    var all := order + [v];
    forall i, w | 0 <= i < |all| && w in Succ(g, all[i]) ensures w in all[..i] {
      if i < |order| {
        assert all[..i] == order[..i];
      } else {
        assert all[..i] == order;
      }
    }
  }

  lemma CallersReach(g: Graph, visiting: map<string, bool>, open: map<string, bool>, path: string, dep: string)
    requires forall x :: Flag(visiting, x) <==> x == path || Flag(open, x)
    requires forall x :: Flag(open, x) ==> ReachesPlus(g, x, path)
    requires dep in Succ(g, path)
    ensures forall x :: Flag(visiting, x) ==> ReachesPlus(g, x, dep)
  {
    forall x | Flag(visiting, x) ensures ReachesPlus(g, x, dep) {
      if x == path {
        ReachesSelf(g, path);
      } else {
        PlusReaches(g, x, path);
      }
      PlusStep(g, x, path, dep);
    }
  }

  lemma Prefix(a: seq<string>, b: seq<string>)
    requires a <= b
    ensures forall x :: x in a ==> x in b
  {
  }

  /** Every node and imported path exactly once, dependencies first; None exactly on a cyclic graph.
      The cycle error inside `visit` is never the reason. */
  method TopologicalSort(g: Graph) returns (r: Option<seq<string>>)
    ensures r.Some? <==> Acyclic(g)
    ensures r.Some? ==> Distinct(r.value) && DependenciesFirst(g, r.value)
    ensures r.Some? ==> forall v :: v in r.value <==> v in Vertices(g)
    ensures r.Some? ==> r.value == PostOrder(g)
  {
    hide Reaches, ReachesPlus, PostVisit, PostAll, Free, Vertices, Strings.Listing;
    var cycles := DetectCycles(g);
    if |cycles| > 0 {
      return None;
    }
    VerticesClosed(g);
    var d := new DepthFirstSort(g);
    var paths := Strings.SortedKeys(g.Keys);
    Strings.AscendingUnique(paths, Strings.Listing(g.Keys));
    AllFree(Vertices(g));
    PostDone(g, paths, [], Vertices(g));
    NodesAreVertices(g);
    for i := 0 to |paths|
      invariant d.graph == g && d.Grown(Vertices(g), [], map[])
      invariant forall v :: v in paths[..i] ==> v in d.sorted
      invariant PostAll(g, paths[i..], d.sorted, Vertices(g)) == PostOrder(g)
    {
      assert paths[i] in g;
      PostStep(g, paths, i, d.sorted, Vertices(g));
      SameFree(Vertices(g), d.visiting, map[]);
      ghost var before := d.sorted;
      var ok := d.Visit(paths[i], Vertices(g));
      if !ok {
        assert false;
      }
      Prefix(before, d.sorted);
      assert paths[..i + 1] == paths[..i] + [paths[i]];
    }
    assert paths[..|paths|] == paths;
    PostDone(g, paths, d.sorted, Vertices(g));
    OrderCovers(g, d.sorted);
    return Some(d.sorted);
  }

  lemma AllFree(all: set<string>)
    ensures Free(all, map[]) == all
  {
  }

  lemma NodesAreVertices(g: Graph)
    ensures forall v :: v in g ==> v in Vertices(g)
  {
  }

  lemma OrderCovers(g: Graph, order: seq<string>)
    requires DependenciesFirst(g, order)
    requires forall v :: v in g ==> v in order
    requires forall v :: v in order ==> v in Vertices(g)
    ensures forall v :: v in order <==> v in Vertices(g)
  {
    forall v | v in Vertices(g) ensures v in order {
      if v !in g {
        var u :| u in g && v in g[u];
        var i :| 0 <= i < |order| && order[i] == u;
        assert v in Succ(g, order[i]);
      }
    }
  }

  /** p follows edges from its first to its last vertex and repeats none. */
  ghost predicate SimplePath(g: Graph, p: seq<string>) {
    Distinct(p) && forall i :: 0 < i < |p| ==> p[i] in Succ(g, p[i - 1])
  }

  /** A path from v to w that meets no vertex of avoid. */
  ghost predicate PathAround(g: Graph, p: seq<string>, v: string, w: string, avoid: set<string>) {
    && p != [] && p[0] == v && p[|p| - 1] == w && (forall i :: 0 < i < |p| ==> p[i] in Succ(g, p[i - 1]))
    && forall x :: x in p ==> x !in avoid
  }

  /** w can be reached from v around avoid. */
  ghost predicate ReachesAround(g: Graph, v: string, w: string, avoid: set<string>) {
    exists p :: PathAround(g, p, v, w, avoid)
  }

  lemma {:induction false} TrappedPath(g: Graph, p: seq<string>, seen: set<string>, avoid: set<string>, i: nat)
    requires p != [] && p[0] in seen && (forall j :: 0 < j < |p| ==> p[j] in Succ(g, p[j - 1]))
    requires forall x :: x in p ==> x !in avoid
    requires forall x, y :: x in seen && x !in avoid && y in Succ(g, x) ==> y in seen
    requires i < |p|
    ensures p[i] in seen
  {
    if i > 0 {
      TrappedPath(g, p, seen, avoid, i - 1);
      assert p[i - 1] in p;
    }
  }

  /** From what was seen, edges around avoid lead only to what was seen. */
  lemma Trapped(g: Graph, v: string, w: string, seen: set<string>, avoid: set<string>)
    requires v in seen && w !in seen
    requires forall x, y :: x in seen && x !in avoid && y in Succ(g, x) ==> y in seen
    ensures !ReachesAround(g, v, w, avoid)
  {
    forall p | PathAround(g, p, v, w, avoid) ensures false {
      TrappedPath(g, p, seen, avoid, |p| - 1);
    }
  }

  lemma ChainAround(g: Graph, chain: seq<string>, n: nat, avoid: set<string>)
    requires SimplePath(g, chain) && n < |chain| && forall x :: x in chain[n..] ==> x !in avoid
    ensures ReachesAround(g, chain[n], chain[|chain| - 1], avoid)
  {
    var p := chain[n..];
    forall i | 0 < i < |p| ensures p[i] in Succ(g, p[i - 1]) {
      assert p[i] == chain[n + i] && p[i - 1] == chain[n + i - 1];
    }
    assert PathAround(g, p, chain[n], chain[|chain| - 1], avoid);
  }

  lemma PathSnoc(g: Graph, p: seq<string>, v: string)
    requires SimplePath(g, p) && v !in p && (p != [] ==> v in Succ(g, p[|p| - 1]))
    ensures SimplePath(g, p + [v])
  {
  }

  lemma PathInit(g: Graph, p: seq<string>)
    requires SimplePath(g, p) && p != []
    ensures SimplePath(g, p[..|p| - 1])
    ensures forall v :: v in p ==> v in p[..|p| - 1] || v == p[|p| - 1]
  {
  }

  /** The closure `dfs` of `DependencyChain` with the variables it captures. */
  class ChainSearch {
    const graph: Graph
    const target: string
    var chain: seq<string>
    var visited: set<string>

    constructor (g: Graph, target: string)
      ensures graph == g && this.target == target && chain == [] && visited == {}
    {
      graph := g;
      this.target := target;
      chain, visited := [], {};
    }

    /** What is visited and not on the chain leads only to visited vertices. */
    ghost predicate Valid()
      reads this
    {
      && SimplePath(graph, chain)
      && (forall v :: v in chain ==> v in visited)
      && (forall v, w :: v in visited && v !in chain && w in Succ(graph, v) ==> w in visited)
    }

    lemma ChainVisited()
      requires Valid()
      ensures forall v :: v in chain ==> v in visited
    {
    }

    lemma Missed(current: string, seen: set<string>)
      requires Valid() && current in visited && target !in visited && forall v :: v in chain ==> v in seen
      ensures !ReachesAround(graph, current, target, seen)
    {
      Trapped(graph, current, target, visited, seen);
    }

    lemma Hit(n: nat, seen: set<string>)
      requires Valid() && n < |chain| && chain[|chain| - 1] == target && forall v :: v in chain[n..] ==> v !in seen
      ensures ReachesAround(graph, chain[n], target, seen)
    {
      ChainAround(graph, chain, n, seen);
    }

    /** Either the chain has grown into a path to the target, or it is unchanged and
        everything reached from current has been visited in vain. */
    method Search(current: string, ghost all: set<string>) returns (found: bool)
      requires Valid() && target !in visited
      requires chain != [] ==> current in Succ(graph, chain[|chain| - 1])
      requires Closed(graph, all) && current in all && visited <= all
      modifies this
      ensures Valid() && old(visited) <= visited <= all
      ensures found ==> old(chain) + [current] <= chain && chain[|chain| - 1] == target
      ensures found ==> forall v :: v in chain[|old(chain)|..] ==> v !in old(visited)
      ensures !found ==> chain == old(chain) && current in visited && target !in visited
      ensures found <==> ReachesAround(graph, current, target, old(visited))
      decreases all - visited, 0
    {
      ghost var seen, before := visited, chain;
      hide Valid, Closed, ReachesAround, SimplePath;
      ChainVisited();
      if current in visited {
        Missed(current, seen);
        return false;
      }
      assert current in all - visited;
      Enter(current);
      if current == target {
        assert chain[|before|..] == [current];
        Hit(|before|, seen);
        return true;
      }
      found := SearchImports(current, all);
      if found {
        assert chain[|before|..] == [current] + chain[|before| + 1..];
        Hit(|before|, seen);
      } else {
        Leave(current);
        Missed(current, seen);
      }
    }

    method Enter(current: string)
      requires Valid() && current !in visited
      requires chain != [] ==> current in Succ(graph, chain[|chain| - 1])
      modifies this
      ensures Valid() && visited == old(visited) + {current} && chain == old(chain) + [current]
    {
      hide SimplePath;
      PathSnoc(graph, chain, current);
      visited := visited + {current};
      chain := chain + [current];
    }

    method Leave(current: string)
      requires Valid() && chain != [] && chain[|chain| - 1] == current
      requires forall w :: w in Succ(graph, current) ==> w in visited
      modifies this`chain
      ensures Valid() && chain == old(chain)[..|old(chain)| - 1]
    {
      hide SimplePath;
      PathInit(graph, chain);
      chain := chain[..|chain| - 1];
    }

    /** The loop over the imports of current, the last vertex of the chain. */
    method SearchImports(current: string, ghost all: set<string>) returns (found: bool)
      requires Valid() && target !in visited
      requires chain != [] && chain[|chain| - 1] == current
      requires Closed(graph, all) && current in all && visited <= all
      modifies this
      ensures Valid() && old(visited) <= visited <= all
      ensures found ==> old(chain) <= chain && chain[|chain| - 1] == target
      ensures found ==> forall v :: v in chain[|old(chain)|..] ==> v !in old(visited)
      ensures !found ==> chain == old(chain) && target !in visited
      ensures !found ==> forall w :: w in Succ(graph, current) ==> w in visited
      decreases all - visited, 1
    {
      if current in graph {
        for k := 0 to |graph[current]|
          invariant Valid() && old(visited) <= visited <= all && target !in visited
          invariant chain == old(chain) && forall w :: w in graph[current][..k] ==> w in visited
        {
          assert graph[current][k] in Succ(graph, current);
          found := Search(graph[current][k], all);
          if found {
            return;
          }
          assert graph[current][..k + 1] == graph[current][..k] + [graph[current][k]];
        }
        assert graph[current][..|graph[current]|] == graph[current];
      }
      return false;
    }
  }

  /** A path without repetition from root to target, or nothing when there is none. */
  method DependencyChain(g: Graph, root: string, target: string) returns (chain: seq<string>)
    ensures chain == [] <==> !Reaches(g, root, target)
    ensures chain != [] ==> SimplePath(g, chain) && chain[0] == root && chain[|chain| - 1] == target
  {
    var s := new ChainSearch(g, target);
    ghost var all := Vertices(g) + {root};
    VerticesClosed(g);
    var found := s.Search(root, all);
    if found {
      SimplePathReaches(g, s.chain, |s.chain| - 1);
    } else if Reaches(g, root, target) {
      assert Closed(g, s.visited);
      ClosedReaches(g, s.visited, root, target);
    }
    return s.chain;
  }

  lemma {:induction false} SimplePathReaches(g: Graph, p: seq<string>, i: nat)
    requires SimplePath(g, p) && i < |p|
    ensures Reaches(g, p[0], p[i])
  {
    if i == 0 {
      ReachesSelf(g, p[0]);
    } else {
      SimplePathReaches(g, p, i - 1);
      EdgeReaches(g, p[i - 1], p[i]);
      ReachesTrans(g, p[0], p[i - 1], p[i]);
    }
  }
}
