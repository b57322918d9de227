/** The pipeline DAG of internal/pipeline/dag.go: Kahn's algorithm with layers. */
module Dag {
  import opened Wrappers
  import opened Digraph
  import opened Strings

  datatype Step = Step(name: string, agentRef: string, input: string, output: string, parallel: bool,
                       dependsOn: seq<string>)

  datatype DAG = DAG(steps: map<string, Step>, order: seq<seq<string>>, incoming: map<string, int>,
                     adjacency: map<string, seq<string>>)

  ghost predicate InLayers(layers: seq<seq<string>>, v: string) {
    exists k :: 0 <= k < |layers| && v in layers[k]
  }

  /** Each layer lists, in increasing order, the vertices whose longest dependency chain has as many
      edges as the layer's index; together the layers hold every vertex. */
  ghost predicate IsLayering(g: Graph, layers: seq<seq<string>>) {
    && (forall k :: 0 <= k < |layers| ==> layers[k] != [] && Ascending(layers[k]))
    && (forall k, v :: 0 <= k < |layers| && v in layers[k] ==> v in g && LongestChain(g, v, k))
    && (forall v :: v in g ==> InLayers(layers, v))
  }

  /** A graph has at most one layering, so `Order` does not depend on map iteration order. */
  lemma LayeringUnique(g: Graph, a: seq<seq<string>>, b: seq<seq<string>>)
    requires IsLayering(g, a) && IsLayering(g, b)
    ensures a == b
  {
    forall k | 0 <= k < |a| && k < |b| ensures a[k] == b[k] {
      SameLayer(g, a, b, k);
      SameLayer(g, b, a, k);
      AscendingUnique(a[k], b[k]);
    }
    NoLonger(g, a, b);
    NoLonger(g, b, a);
  }

  lemma SameLayer(g: Graph, a: seq<seq<string>>, b: seq<seq<string>>, k: nat)
    requires IsLayering(g, a) && IsLayering(g, b) && k < |a| && k < |b|
    ensures forall v :: v in a[k] ==> v in b[k]
  {
    forall v | v in a[k] ensures v in b[k] {
      assert InLayers(b, v);
      var j :| 0 <= j < |b| && v in b[j];
      LongestUnique(g, v, j, k);
    }
  }

  lemma NoLonger(g: Graph, a: seq<seq<string>>, b: seq<seq<string>>)
    requires IsLayering(g, a) && IsLayering(g, b)
    ensures |b| <= |a|
  {
    if |a| < |b| {
      var v := b[|a|][0];
      assert v in b[|a|];
      assert InLayers(a, v);
      var j :| 0 <= j < |a| && v in a[j];
      LongestUnique(g, v, j, |a|);
    }
  }

  /** What Kahn's loop establishes layer by layer: a layered vertex depends on earlier layers only,
      and past the first layer on something in the layer just before. */
  ghost predicate Placed(g: Graph, layers: seq<seq<string>>, k: nat, v: string)
    requires k <= |layers|
  {
    && v in g
    && (forall d :: d in g[v] ==> InLayers(layers[..k], d))
    && (k > 0 ==> exists d :: d in g[v] && d in layers[k - 1])
  }

  ghost predicate Layered(g: Graph, layers: seq<seq<string>>) {
    forall k, v {:trigger Placed(g, layers, k, v)} :: 0 <= k < |layers| && v in layers[k] ==> Placed(g, layers, k, v)
  }

  lemma {:induction false} LayeredLongest(g: Graph, layers: seq<seq<string>>, k: nat, v: string)
    requires Layered(g, layers) && k < |layers| && v in layers[k]
    ensures v in g && LongestChain(g, v, k)
    decreases k
  {
    assert Placed(g, layers, k, v);
    if k > 0 {
      var d :| d in g[v] && d in layers[k - 1];
      LayeredLongest(g, layers, k - 1, d);
      assert d in Succ(g, v) && ChainFrom(g, d, k - 1);
    }
    forall d | d in Succ(g, v) ensures !ChainFrom(g, d, k) {
      var l :| 0 <= l < |layers[..k]| && d in layers[..k][l];
      LayeredLongest(g, layers, l, d);
      if ChainFrom(g, d, k) {
        ShorterChain(g, d, l + 1, k);
      }
    }
  }

  /** A layering exists only for acyclic graphs. */
  lemma LayeringAcyclic(g: Graph, layers: seq<seq<string>>)
    requires IsLayering(g, layers)
    ensures Acyclic(g)
  {
    hide OnCycle, ChainFrom;
    forall v ensures !OnCycle(g, v) {
      if v in g {
        assert InLayers(layers, v);
        var k :| 0 <= k < |layers| && v in layers[k];
        ShortNoCycle(g, v, k + 1);
      } else {
        NoCycleOutside(g, v);
      }
    }
  }

  /** How many entries of deps, repetitions counted, are not in `done`. */
  function Remaining(deps: seq<string>, done: set<string>): nat {
    if deps == [] then 0 else (if deps[0] in done then 0 else 1) + Remaining(deps[1..], done)
  }

  lemma {:induction false} RemainingZero(deps: seq<string>, done: set<string>)
    ensures Remaining(deps, done) == 0 <==> forall d :: d in deps ==> d in done
  {
    if deps != [] {
      RemainingZero(deps[1..], done);
      assert deps == [deps[0]] + deps[1..];
    }
  }

  /** Finishing d takes as many entries off as deps repeats d. */
  lemma {:induction false} RemainingAdd(deps: seq<string>, done: set<string>, d: string)
    requires d !in done
    ensures Remaining(deps, done + {d}) == Remaining(deps, done) - multiset(deps)[d]
  {
    if deps != [] {
      RemainingAdd(deps[1..], done, d);
      assert deps == [deps[0]] + deps[1..];
    }
  }

  /** The adjacency list of a finished step is walked: each occurrence takes one off its in-degree,
      and a step whose count reaches zero is freed once. */
  method Release(adj: seq<string>, incoming: map<string, int>) returns (left: map<string, int>, freed: seq<string>)
    requires forall s :: s in adj ==> s in incoming
    ensures left.Keys == incoming.Keys && forall s :: s in incoming ==> left[s] == incoming[s] - multiset(adj)[s]
    ensures NoRepeats(freed) && forall s :: s in freed <==> s in incoming && 1 <= incoming[s] <= multiset(adj)[s]
  {
    left, freed := incoming, [];
    for j := 0 to |adj|
      invariant left.Keys == incoming.Keys
      invariant forall s :: s in incoming ==> left[s] == incoming[s] - multiset(adj[..j])[s]
      invariant NoRepeats(freed)
      invariant forall s :: s in freed <==> s in incoming && 1 <= incoming[s] <= multiset(adj[..j])[s]
    {
      var dependent := adj[j];
      assert adj[..j + 1] == adj[..j] + [dependent];
      left := left[dependent := left[dependent] - 1];
      if left[dependent] == 0 {
        assert dependent !in freed && (dependent in multiset(freed) <==> dependent in freed);
        freed := freed + [dependent];
      }
    }
    assert adj[..|adj|] == adj;
  }

  /** The in-degrees count the unfinished dependencies, repetitions included. */
  ghost predicate Counted(g: Graph, incoming: map<string, int>, done: set<string>) {
    && incoming.Keys == g.Keys
    && forall s :: s in g ==> incoming[s] == Remaining(g[s], done)
  }

  /** Forward edges mirror dependencies with the same multiplicity. */
  ghost predicate Mirrors(g: Graph, adjacency: map<string, seq<string>>) {
    && (forall d, s :: s in Succ(adjacency, d) ==> s in g)
    && (forall d, s :: s in g ==> multiset(Succ(adjacency, d))[s] == multiset(g[s])[d])
  }

  ghost predicate Freed(g: Graph, before: set<string>, after: set<string>, s: string) {
    s in g && Remaining(g[s], before) > 0 && Remaining(g[s], after) == 0
  }

  /** One layer: afterwards its names count as done, and exactly the steps that this completes are queued. */
  method ProcessLayer(ghost g: Graph, layer: seq<string>, adjacency: map<string, seq<string>>,
                      incoming: map<string, int>, ghost done: set<string>)
    returns (left: map<string, int>, next: seq<string>)
    requires Counted(g, incoming, done) && Mirrors(g, adjacency)
    requires Ascending(layer) && forall v :: v in layer ==> v !in done
    ensures Counted(g, left, done + Members(layer))
    ensures NoRepeats(next) && forall s :: s in next <==> Freed(g, done, done + Members(layer), s)
  {
    left, next := incoming, [];
    assert done + Members(layer[..0]) == done;
    for i := 0 to |layer|
      invariant Counted(g, left, done + Members(layer[..i]))
      invariant NoRepeats(next) && forall s :: s in next <==> Freed(g, done, done + Members(layer[..i]), s)
    {
      ghost var now := done + Members(layer[..i]);
      assert layer[i] !in now by {
        LessIrreflexive(layer[i]);
      }
      assert layer[..i + 1] == layer[..i] + [layer[i]];
      assert done + Members(layer[..i + 1]) == now + {layer[i]};
      ghost var counts := left;
      var freed;
      left, freed := Release(Succ(adjacency, layer[i]), left);
      ReleaseCounted(g, adjacency, counts, left, now, layer[i]);
      ReleaseFreed(g, adjacency, counts, done, now, layer[i], next, freed);
      next := next + freed;
    }
    assert layer[..|layer|] == layer;
  }

  ghost function Members(s: seq<string>): set<string> {
    set v | v in s
  }

  lemma ReleaseCounted(g: Graph, adjacency: map<string, seq<string>>, before: map<string, int>, after: map<string, int>,
                       now: set<string>, v: string)
    requires Counted(g, before, now) && Mirrors(g, adjacency) && v !in now
    requires after.Keys == before.Keys
    requires forall s :: s in before ==> after[s] == before[s] - multiset(Succ(adjacency, v))[s]
    ensures Counted(g, after, now + {v})
  {
    forall s | s in g ensures after[s] == Remaining(g[s], now + {v}) {
      RemainingAdd(g[s], now, v);
    }
  }

  lemma ReleaseFreed(g: Graph, adjacency: map<string, seq<string>>, before: map<string, int>, done: set<string>,
                     now: set<string>, v: string, next: seq<string>, freed: seq<string>)
    requires Counted(g, before, now) && Mirrors(g, adjacency) && v !in now && done <= now
    requires NoRepeats(next) && forall s :: s in next <==> Freed(g, done, now, s)
    requires NoRepeats(freed)
    requires forall s :: s in freed <==> s in before && 1 <= before[s] <= multiset(Succ(adjacency, v))[s]
    ensures NoRepeats(next + freed) && forall s :: s in next + freed <==> Freed(g, done, now + {v}, s)
  {
    forall s | s in g
      ensures s in freed <==> Freed(g, now, now + {v}, s)
      ensures s in next + freed <==> Freed(g, done, now + {v}, s)
      ensures !(s in freed && s in next)
    {
      RemainingAdd(g[s], now, v);
      RemainingZero(g[s], done);
      RemainingZero(g[s], now);
    }
    forall s ensures multiset(next + freed)[s] <= 1 {
      assert s in next <==> s in multiset(next);
      assert s in freed <==> s in multiset(freed);
    }
  }

  ghost function Done(layers: seq<seq<string>>): set<string> {
    if layers == [] then {} else Done(layers[..|layers| - 1]) + Members(layers[|layers| - 1])
  }

  lemma {:induction false} DoneInLayers(layers: seq<seq<string>>)
    ensures forall v :: v in Done(layers) <==> InLayers(layers, v)
  {
    if layers != [] {
      var n := |layers| - 1;
      DoneInLayers(layers[..n]);
      forall v ensures v in Done(layers) <==> InLayers(layers, v) {
        if v in layers[n] {
          assert InLayers(layers, v);
        } else if InLayers(layers[..n], v) {
          var k :| 0 <= k < n && v in layers[..n][k];
          assert v in layers[k];
        }
      }
    }
  }

  /** The queue holds the unfinished steps all of whose dependencies are finished. */
  ghost predicate IsFrontier(g: Graph, done: set<string>, queue: seq<string>) {
    NoRepeats(queue) && forall s :: s in queue <==> s in g && s !in done && Remaining(g[s], done) == 0
  }

  /** Everything finished had its dependencies finished. */
  lemma LayeredDone(g: Graph, layers: seq<seq<string>>)
    requires Layered(g, layers)
    ensures forall v :: v in Done(layers) ==> v in g && Remaining(g[v], Done(layers)) == 0
  {
    DoneInLayers(layers);
    forall v | v in Done(layers) ensures v in g && Remaining(g[v], Done(layers)) == 0 {
      var k :| 0 <= k < |layers| && v in layers[k];
      assert Placed(g, layers, k, v);
      forall d | d in g[v] ensures d in Done(layers) {
        var l :| 0 <= l < |layers[..k]| && d in layers[..k][l];
        assert d in layers[l];
      }
      RemainingZero(g[v], Done(layers));
    }
  }

  lemma NextFrontier(g: Graph, done: set<string>, queue: seq<string>, layer: seq<string>, next: seq<string>)
    requires IsFrontier(g, done, queue) && SameElements(queue, layer)
    requires forall v :: v in done ==> v in g && Remaining(g[v], done) == 0
    requires NoRepeats(next) && forall s :: s in next <==> Freed(g, done, done + Members(layer), s)
    ensures IsFrontier(g, done + Members(layer), next)
  {
  }

  lemma AppendLayer(g: Graph, layers: seq<seq<string>>, layer: seq<string>)
    requires Layered(g, layers)
    requires forall v :: v in layer ==> Placed(g, layers, |layers|, v)
    ensures Layered(g, layers + [layer])
  {
    var all := layers + [layer];
    forall k, v {:trigger Placed(g, all, k, v)} | 0 <= k < |all| && v in all[k] ensures Placed(g, all, k, v) {
      assert Placed(g, layers, k, v);
      assert all[..k] == layers[..k];
      assert k > 0 ==> all[k - 1] == layers[k - 1];
    }
  }

  lemma DoneSnoc(layers: seq<seq<string>>, layer: seq<string>)
    ensures Done(layers + [layer]) == Done(layers) + Members(layer)
  {
    assert (layers + [layer])[..|layers|] == layers;
  }

  lemma PlacedLast(g: Graph, all: seq<seq<string>>, s: string, d: string)
    requires s in g && all != [] && d in g[s] && d in all[|all| - 1]
    requires forall x :: x in g[s] ==> InLayers(all, x)
    ensures Placed(g, all, |all|, s)
  {
    hide InLayers;
    assert all[..|all|] == all;
  }

  /** A freed step depends on the layer that freed it. */
  lemma FreedPlaced(g: Graph, layers: seq<seq<string>>, layer: seq<string>, s: string)
    requires Freed(g, Done(layers), Done(layers) + Members(layer), s)
    ensures Placed(g, layers + [layer], |layers| + 1, s)
  {
    hide Done, Remaining, InLayers, Placed;
    var all := layers + [layer];
    DoneSnoc(layers, layer);
    DoneInLayers(all);
    RemainingZero(g[s], Done(layers));
    RemainingZero(g[s], Done(all));
    var d :| d in g[s] && d !in Done(layers);
    assert d in Done(all);
    PlacedLast(g, all, s, d);
  }

  lemma FirstPlaced(g: Graph, s: string)
    requires s in g && Remaining(g[s], {}) == 0
    ensures Placed(g, [], 0, s)
  {
    RemainingZero(g[s], {});
  }

  /** When the queue runs dry with steps left, each of them waits for another one. */
  lemma StuckCyclic(g: Graph, done: set<string>)
    requires IsFrontier(g, done, []) && Closed(g, g.Keys) && g.Keys - done != {}
    ensures !Acyclic(g)
  {
    var rest := g.Keys - done;
    forall v {:trigger HasSuccessorIn(g, rest, v)} | v in rest ensures HasSuccessorIn(g, rest, v) {
      RemainingZero(g[v], done);
      assert v !in [] && Remaining(g[v], done) != 0;
      var d :| d in g[v] && d !in done;
      assert d in Succ(g, v);
    }
    var v :| v in rest;
    SinklessCyclic(g, rest, v);
  }

  lemma LayeredIsLayering(g: Graph, layers: seq<seq<string>>)
    requires Layered(g, layers) && forall v :: v in g ==> InLayers(layers, v)
    requires forall k :: 0 <= k < |layers| ==> layers[k] != [] && Ascending(layers[k])
    ensures IsLayering(g, layers)
  {
    hide LongestChain, Placed, Ascending, InLayers;
    forall k, v | 0 <= k < |layers| && v in layers[k] ensures v in g && LongestChain(g, v, k) {
      LayeredLongest(g, layers, k, v);
    }
  }

  /** The initial queue, collected from the in-degree map in whatever order. */
  method ZeroDegree(incoming: map<string, int>) returns (queue: seq<string>)
    ensures NoRepeats(queue) && forall s :: s in queue <==> s in incoming && incoming[s] == 0
  {
    queue := [];
    var rest := incoming.Keys;
    while rest != {}
      invariant rest <= incoming.Keys
      invariant NoRepeats(queue) && forall s :: s in queue <==> s in incoming.Keys - rest && incoming[s] == 0
      decreases rest
    {
      var name :| name in rest;
      if incoming[name] == 0 {
        assert name !in queue && (name in multiset(queue) <==> name in queue);
        queue := queue + [name];
      }
      rest := rest - {name};
    }
  }

  lemma {:induction false} AscendingCount(s: seq<string>)
    requires Ascending(s)
    ensures |Members(s)| == |s|
  {
    if s != [] {
      AscendingCount(s[1..]);
      TailMembers(s, s[0]);
      assert s == [s[0]] + s[1..];
      assert Members(s) == {s[0]} + Members(s[1..]);
    }
  }

  lemma CountLayer(done: set<string>, layer: seq<string>)
    requires Ascending(layer) && forall v :: v in layer ==> v !in done
    ensures |done + Members(layer)| == |done| + |layer|
  {
    AscendingCount(layer);
    assert done !! Members(layer);
  }

  lemma CountAll(done: set<string>, all: set<string>)
    requires done <= all
    ensures |done| < |all| <==> all - done != {}
  {
    assert all == done + (all - done);
    assert |all| == |done| + |all - done|;
  }

  /** Kahn's algorithm: it fails exactly on cyclic graphs and otherwise returns the layering. */
  method LayeredSort(ghost g: Graph, total: nat, degrees: map<string, int>, adjacency: map<string, seq<string>>)
    returns (r: Result<seq<seq<string>>>)
    requires Counted(g, degrees, {}) && Mirrors(g, adjacency) && Closed(g, g.Keys) && total == |g.Keys|
    ensures r.Ok? <==> Acyclic(g)
    ensures r.Ok? ==> IsLayering(g, r.value)
  {
    hide Remaining, Mirrors, Counted, Closed, Acyclic;
    var incoming := degrees;
    var queue := ZeroDegree(incoming);
    var layers: seq<seq<string>> := [];
    var processed := 0;
    ghost var done: set<string> := {};
    StartFrontier(g, incoming, queue);
    while |queue| > 0
      invariant done == Done(layers) && processed == |done|
      invariant KahnInv(g, layers, queue, done)
      invariant Counted(g, incoming, done)
      decreases g.Keys - done
    {
      var layer := SortDistinct(queue);
      LayerReady(g, layers, queue, layer, done);
      CountLayer(done, layer);
      var next;
      incoming, next := ProcessLayer(g, layer, adjacency, incoming, done);
      KahnStep(g, layers, queue, layer, next, done);
      layers := layers + [layer];
      processed := processed + |layer|;
      done := done + Members(layer);
      queue := next;
    }
    KahnEnd(g, layers, done);
    if processed < total {
      return Err("cycle detected in pipeline dependencies");
    }
    LayeringAcyclic(g, layers);
    return Ok(layers);
  }

  ghost predicate KahnInv(g: Graph, layers: seq<seq<string>>, queue: seq<string>, done: set<string>) {
    && done == Done(layers)
    && Layered(g, layers)
    && (forall k :: 0 <= k < |layers| ==> layers[k] != [] && Ascending(layers[k]))
    && IsFrontier(g, done, queue)
    && (forall s {:trigger Placed(g, layers, |layers|, s)} :: s in queue ==> Placed(g, layers, |layers|, s))
  }

  lemma StartFrontier(g: Graph, incoming: map<string, int>, queue: seq<string>)
    requires Counted(g, incoming, {})
    requires NoRepeats(queue) && forall s :: s in queue <==> s in incoming && incoming[s] == 0
    ensures KahnInv(g, [], queue, {})
  {
    forall s {:trigger Placed(g, [], 0, s)} | s in queue ensures Placed(g, [], 0, s) {
      FirstPlaced(g, s);
    }
  }

  lemma LayerReady(g: Graph, layers: seq<seq<string>>, queue: seq<string>, layer: seq<string>, done: set<string>)
    requires KahnInv(g, layers, queue, done) && SameElements(queue, layer) && |queue| > 0
    ensures forall v :: v in layer ==> v !in done
    ensures g.Keys - (done + Members(layer)) < g.Keys - done
  {
    assert queue[0] in queue;
    assert queue[0] in g.Keys - done && queue[0] in layer;
  }

  lemma KahnStep(g: Graph, layers: seq<seq<string>>, queue: seq<string>, layer: seq<string>, next: seq<string>,
                 done: set<string>)
    requires KahnInv(g, layers, queue, done) && SameElements(queue, layer) && |queue| > 0 && Ascending(layer)
    requires NoRepeats(next) && forall s :: s in next <==> Freed(g, done, done + Members(layer), s)
    ensures done + Members(layer) == Done(layers + [layer])
    ensures KahnInv(g, layers + [layer], next, done + Members(layer))
  {
    hide Placed, Remaining;
    LayeredDone(g, layers);
    NextFrontier(g, done, queue, layer, next);
    AppendLayer(g, layers, layer);
    var all := layers + [layer];
    assert all[..|layers|] == layers;
    assert queue[0] in layer;
    forall s {:trigger Placed(g, all, |all|, s)} | s in next ensures Placed(g, all, |all|, s) {
      FreedPlaced(g, layers, layer, s);
    }
  }

  lemma KahnEnd(g: Graph, layers: seq<seq<string>>, done: set<string>)
    requires KahnInv(g, layers, [], done) && Closed(g, g.Keys)
    ensures |done| < |g.Keys| ==> !Acyclic(g)
    ensures |done| >= |g.Keys| ==> IsLayering(g, layers)
  {
    hide IsLayering, InLayers, Done, Acyclic, Closed, Ascending;
    LayeredDone(g, layers);
    CountAll(done, g.Keys);
    if g.Keys - done != {} {
      StuckCyclic(g, done);
    } else {
      DoneInLayers(layers);
      forall v | v in g ensures InLayers(layers, v) {
        assert v !in g.Keys - done;
      }
      LayeredIsLayering(g, layers);
    }
  }

  ghost predicate DistinctNames(steps: seq<Step>) {
    forall i, j :: 0 <= i < j < |steps| ==> steps[i].name != steps[j].name
  }

  function StepMap(steps: seq<Step>): map<string, Step> {
    if steps == [] then map[] else
      var last := steps[|steps| - 1]; StepMap(steps[..|steps| - 1])[last.name := last]
  }

  /** The dependency graph: an edge from each step to every step it depends on. */
  function DepGraph(steps: map<string, Step>): Graph {
    map n | n in steps :: steps[n].dependsOn
  }

  ghost predicate KnownDependencies(g: Graph) {
    Closed(g, g.Keys)
  }

  lemma {:induction false} StepMapNames(steps: seq<Step>)
    ensures forall n :: n in StepMap(steps) <==> exists i :: 0 <= i < |steps| && steps[i].name == n
    ensures forall n :: n in StepMap(steps) ==> StepMap(steps)[n].name == n
  {
    if steps != [] {
      StepMapNames(steps[..|steps| - 1]);
      forall n ensures n in StepMap(steps) <==> exists i :: 0 <= i < |steps| && steps[i].name == n {
        if n in StepMap(steps[..|steps| - 1]) {
          var i :| 0 <= i < |steps| - 1 && steps[..|steps| - 1][i].name == n;
          assert steps[i].name == n;
        } else if n == steps[|steps| - 1].name {
          assert n in StepMap(steps);
        }
      }
    }
  }

  /** A step by this name occurs once when names are distinct, so its entry is that step. */
  lemma {:induction false} StepMapLookup(steps: seq<Step>, i: nat)
    requires DistinctNames(steps) && i < |steps|
    ensures steps[i].name in StepMap(steps) && StepMap(steps)[steps[i].name] == steps[i]
  {
    if i < |steps| - 1 {
      StepMapLookup(steps[..|steps| - 1], i);
    }
  }

  /** The first loop of `BuildDAG`. */
  method IndexSteps(steps: seq<Step>) returns (r: Result<map<string, Step>>)
    ensures r.Ok? <==> DistinctNames(steps)
    ensures r.Ok? ==> r.value == StepMap(steps)
  {
    var indexed := map[];
    for i := 0 to |steps|
      invariant indexed == StepMap(steps[..i]) && DistinctNames(steps[..i])
    {
      StepMapNames(steps[..i]);
      assert steps[..i + 1] == steps[..i] + [steps[i]];
      if steps[i].name in indexed {
        var j :| 0 <= j < |steps[..i]| && steps[..i][j].name == steps[i].name;
        assert steps[j].name == steps[i].name;
        return Err("duplicate step");
      }
      assert steps[..i + 1][..i] == steps[..i];
      indexed := indexed[steps[i].name := steps[i]];
    }
    assert steps[..|steps|] == steps;
    return Ok(indexed);
  }

  ghost predicate Linkable(name: string, deps: seq<string>, keys: set<string>) {
    forall d :: d in deps ==> d in keys && d != name
  }

  /** after has one more edge to name for every occurrence in deps. */
  ghost predicate EdgesAdded(before: map<string, seq<string>>, after: map<string, seq<string>>, name: string,
                             deps: seq<string>) {
    forall d, s :: multiset(Succ(after, d))[s] ==
                   multiset(Succ(before, d))[s] + (if s == name then multiset(deps)[d] else 0)
  }

  /** The inner loop over `depends_on` of one step: a repeated entry counts again on both sides. */
  method LinkStep(name: string, deps: seq<string>, keys: set<string>, incoming: map<string, int>,
                  adjacency: map<string, seq<string>>)
    returns (ok: bool, degrees: map<string, int>, adj: map<string, seq<string>>)
    requires name in incoming
    ensures ok <==> Linkable(name, deps, keys)
    ensures ok ==> degrees == incoming[name := incoming[name] + |deps|]
    ensures ok ==> EdgesAdded(adjacency, adj, name, deps)
  {
    hide EdgesAdded;
    NoEdges(adjacency, name);
    degrees, adj := incoming, adjacency;
    for i := 0 to |deps|
      invariant Linkable(name, deps[..i], keys)
      invariant degrees == incoming[name := incoming[name] + i]
      invariant EdgesAdded(adjacency, adj, name, deps[..i])
    {
      var dep := deps[i];
      if dep !in keys {
        return false, degrees, adj;
      }
      if dep == name {
        return false, degrees, adj;
      }
      assert deps[..i + 1] == deps[..i] + [dep];
      degrees := degrees[name := degrees[name] + 1];
      AppendEdge(adjacency, adj, name, deps[..i], dep);
      adj := adj[dep := Succ(adj, dep) + [name]];
    }
    assert deps[..|deps|] == deps;
    ok := true;
  }

  lemma NoEdges(adjacency: map<string, seq<string>>, name: string)
    ensures EdgesAdded(adjacency, adjacency, name, [])
  {
  }

  lemma AppendEdge(start: map<string, seq<string>>, adj: map<string, seq<string>>, name: string, deps: seq<string>,
                   dep: string)
    requires EdgesAdded(start, adj, name, deps)
    ensures EdgesAdded(start, adj[dep := Succ(adj, dep) + [name]], name, deps + [dep])
  {
    var after := adj[dep := Succ(adj, dep) + [name]];
    forall d, s ensures multiset(Succ(after, d))[s] ==
                        multiset(Succ(start, d))[s] + (if s == name then multiset(deps + [dep])[d] else 0) {
      CountSnoc(deps, dep, d);
      if d == dep {
        CountSnoc(Succ(adj, d), name, s);
      }
    }
  }

  lemma CountSnoc(a: seq<string>, x: string, y: string)
    ensures multiset(a + [x])[y] == multiset(a)[y] + (if x == y then 1 else 0)
  {
  }

  lemma {:induction false} RemainingNone(deps: seq<string>)
    ensures Remaining(deps, {}) == |deps|
  {
    if deps != [] {
      RemainingNone(deps[1..]);
    }
  }

  /** Edges linked so far: those of the steps in `linked`. */
  ghost predicate LinkedEdges(g: Graph, linked: set<string>, incoming: map<string, int>,
                              adjacency: map<string, seq<string>>) {
    && incoming.Keys == g.Keys
    && (forall s :: s in g ==> incoming[s] == if s in linked then |g[s]| else 0)
    && (forall d, s :: multiset(Succ(adjacency, d))[s] == if s in g && s in linked then multiset(g[s])[d] else 0)
  }

  lemma LinkNone(g: Graph)
    ensures LinkedEdges(g, {}, map n | n in g :: 0, map[])
  {
  }

  lemma LinkOne(g: Graph, linked: set<string>, name: string, degrees: map<string, int>, edges: map<string, seq<string>>,
                incoming: map<string, int>, adjacency: map<string, seq<string>>)
    requires LinkedEdges(g, linked, degrees, edges) && name in g && name !in linked
    requires incoming == degrees[name := degrees[name] + |g[name]|]
    requires EdgesAdded(edges, adjacency, name, g[name])
    ensures LinkedEdges(g, linked + {name}, incoming, adjacency)
  {
  }

  /** The second loop of `BuildDAG`, over the step map in whatever order. */
  method LinkSteps(steps: map<string, Step>)
    returns (ok: bool, incoming: map<string, int>, adjacency: map<string, seq<string>>)
    ensures ok <==> forall n :: n in steps ==> Linkable(n, steps[n].dependsOn, steps.Keys)
    ensures ok ==> Counted(DepGraph(steps), incoming, {}) && Mirrors(DepGraph(steps), adjacency)
  {
    hide LinkedEdges, EdgesAdded, Counted, Mirrors;
    ghost var g := DepGraph(steps);
    LinkNone(g);
    incoming, adjacency := map n | n in steps :: 0, map[];
    assert incoming == map n | n in g :: 0;
    var rest := steps.Keys;
    ghost var linked := {};
    while rest != {}
      invariant rest <= steps.Keys
      invariant forall n :: n in steps.Keys - rest ==> Linkable(n, steps[n].dependsOn, steps.Keys)
      invariant incoming.Keys == steps.Keys
      invariant linked == steps.Keys - rest && LinkedEdges(g, linked, incoming, adjacency)
      decreases rest
    {
      var name :| name in rest;
      ghost var degrees, edges := incoming, adjacency;
      ok, incoming, adjacency := LinkStep(name, steps[name].dependsOn, steps.Keys, incoming, adjacency);
      if !ok {
        return;
      }
      LinkOne(g, linked, name, degrees, edges, incoming, adjacency);
      rest, linked := rest - {name}, linked + {name};
    }
    assert linked == g.Keys;
    LinkedAll(g, incoming, adjacency);
    ok := true;
  }

  lemma LinkedAll(g: Graph, incoming: map<string, int>, adjacency: map<string, seq<string>>)
    requires LinkedEdges(g, g.Keys, incoming, adjacency)
    ensures Counted(g, incoming, {}) && Mirrors(g, adjacency)
  {
    forall s | s in g ensures incoming[s] == Remaining(g[s], {}) {
      RemainingNone(g[s]);
    }
    forall d, s | s in Succ(adjacency, d) ensures s in g {
      assert s in multiset(Succ(adjacency, d));
    }
  }

  lemma LinkableKnown(steps: map<string, Step>)
    ensures (forall n :: n in steps ==> Linkable(n, steps[n].dependsOn, steps.Keys)) ==>
            KnownDependencies(DepGraph(steps))
    ensures KnownDependencies(DepGraph(steps)) && Acyclic(DepGraph(steps)) ==>
              forall n :: n in steps ==> Linkable(n, steps[n].dependsOn, steps.Keys)
  {
    var g := DepGraph(steps);
    if KnownDependencies(g) && Acyclic(g) {
      forall n | n in steps ensures Linkable(n, steps[n].dependsOn, steps.Keys) {
        forall d | d in steps[n].dependsOn ensures d in steps && d != n {
          assert n in g.Keys && d in Succ(g, n);
          assert d in g.Keys;
          ReachesSelf(g, n);
          assert !OnCycle(g, n);
        }
      }
    }
  }

  // ---- What the result says of the steps given ----

  ghost predicate IsStep(steps: seq<Step>, v: string) {
    exists i :: 0 <= i < |steps| && steps[i].name == v
  }

  /** Every step is in one layer, all it depends on is in earlier layers, and something it depends on is in the one
      just before. */
  ghost predicate OrdersSteps(steps: seq<Step>, order: seq<seq<string>>) {
    && (forall i :: 0 <= i < |steps| ==> InLayers(order, steps[i].name))
    && (forall k, v :: 0 <= k < |order| && v in order[k] ==> IsStep(steps, v))
    && (forall k, l, v :: 0 <= k < |order| && 0 <= l < |order| && v in order[k] && v in order[l] ==> k == l)
    && (forall k :: 0 <= k < |order| ==> Ascending(order[k]))
    && (forall i, k :: 0 <= i < |steps| && 0 <= k < |order| && steps[i].name in order[k] ==>
          PlacedBy(steps[i].dependsOn, order, k))
  }

  ghost predicate PlacedBy(deps: seq<string>, order: seq<seq<string>>, k: int)
    requires 0 <= k < |order|
  {
    && (forall d :: d in deps ==> InLayers(order[..k], d))
    && (k > 0 ==> exists d :: d in deps && d in order[k - 1])
  }

  lemma StepUp(g: Graph, v: string, d: string, k: nat, l: nat)
    requires d in Succ(g, v) && LongestChain(g, v, k) && LongestChain(g, d, l)
    ensures l < k
  {
    if l >= k {
      ShorterChain(g, d, k, l);
    }
  }

  /** A chain of k edges goes on through a vertex whose chains have k - 1. */
  lemma StepOn(g: Graph, v: string, k: nat) returns (w: string)
    requires LongestChain(g, v, k) && k > 0
    ensures w in Succ(g, v) && LongestChain(g, w, k - 1)
  {
    w :| w in Succ(g, v) && ChainFrom(g, w, k - 1);
  }

  lemma FoundAt(g: Graph, order: seq<seq<string>>, d: string) returns (l: nat)
    requires IsLayering(g, order) && d in g
    ensures l < |order| && d in order[l] && LongestChain(g, d, l)
  {
    hide LongestChain;
    assert InLayers(order, d);
    l :| 0 <= l < |order| && d in order[l];
  }

  lemma LayerOf(g: Graph, order: seq<seq<string>>, v: string, k: nat)
    requires IsLayering(g, order) && KnownDependencies(g) && k < |order| && v in order[k]
    ensures v in g && PlacedBy(g[v], order, k)
  {
    assert v in g && LongestChain(g, v, k);
    hide LongestChain, IsLayering;
    forall d | d in g[v] ensures InLayers(order[..k], d) {
      assert d in Succ(g, v) && d in g;
      var l := FoundAt(g, order, d);
      StepUp(g, v, d, k, l);
      assert order[..k][l] == order[l];
    }
    if k > 0 {
      var w := StepOn(g, v, k);
      var l := FoundAt(g, order, w);
      LongestUnique(g, w, l, k - 1);
    }
  }

  lemma OrderMeans(steps: seq<Step>, order: seq<seq<string>>)
    requires DistinctNames(steps) && KnownDependencies(DepGraph(StepMap(steps)))
    requires IsLayering(DepGraph(StepMap(steps)), order)
    ensures OrdersSteps(steps, order)
  {
    hide KnownDependencies, StepMap, InLayers, PlacedBy, LongestChain, Ascending;
    var g := DepGraph(StepMap(steps));
    StepMapNames(steps);
    forall i | 0 <= i < |steps| ensures steps[i].name in g && g[steps[i].name] == steps[i].dependsOn {
      StepMapLookup(steps, i);
    }
    forall k, v | 0 <= k < |order| && v in order[k] ensures IsStep(steps, v) {
      assert v in g && LongestChain(g, v, k);
      assert v in StepMap(steps);
    }
    forall k, l, v | 0 <= k < |order| && 0 <= l < |order| && v in order[k] && v in order[l] ensures k == l {
      LongestUnique(g, v, k, l);
    }
    forall i, k | 0 <= i < |steps| && 0 <= k < |order| && steps[i].name in order[k]
      ensures PlacedBy(steps[i].dependsOn, order, k)
    {
      LayerOf(g, order, steps[i].name, k);
    }
  }

  /** The degrees count every entry of a step's dependencies, and the adjacency lists mirror them. */
  ghost predicate CountsSteps(steps: seq<Step>, incoming: map<string, int>, adjacency: map<string, seq<string>>) {
    && (forall v :: v in incoming <==> IsStep(steps, v))
    && (forall i :: 0 <= i < |steps| ==>
          steps[i].name in incoming && incoming[steps[i].name] == |steps[i].dependsOn|)
    && (forall i, d :: 0 <= i < |steps| ==>
          multiset(Succ(adjacency, d))[steps[i].name] == multiset(steps[i].dependsOn)[d])
    && (forall d, v :: v in Succ(adjacency, d) ==> IsStep(steps, v))
  }

  lemma EdgesMean(steps: seq<Step>, incoming: map<string, int>, adjacency: map<string, seq<string>>)
    requires DistinctNames(steps)
    requires Counted(DepGraph(StepMap(steps)), incoming, {}) && Mirrors(DepGraph(StepMap(steps)), adjacency)
    ensures CountsSteps(steps, incoming, adjacency)
  {
    hide StepMap, Remaining;
    var g := DepGraph(StepMap(steps));
    StepMapNames(steps);
    forall i | 0 <= i < |steps|
      ensures steps[i].name in g && g[steps[i].name] == steps[i].dependsOn
      ensures Remaining(steps[i].dependsOn, {}) == |steps[i].dependsOn|
    {
      StepMapLookup(steps, i);
      RemainingNone(steps[i].dependsOn);
    }
    forall v ensures v in g <==> IsStep(steps, v) {
      assert v in g <==> v in StepMap(steps);
    }
  }

  /** Succeeds exactly when names are distinct, dependencies known and the graph acyclic; then `order`
      is the layering by longest dependency chain. */
  method BuildDAG(steps: seq<Step>) returns (r: Result<DAG>)
    ensures r.Ok? <==> && DistinctNames(steps)
                       && KnownDependencies(DepGraph(StepMap(steps)))
                       && Acyclic(DepGraph(StepMap(steps)))
    ensures r.Ok? ==> r.value.steps == StepMap(steps) && IsLayering(DepGraph(StepMap(steps)), r.value.order)
    ensures r.Ok? ==> forall i :: 0 <= i < |steps| ==>
              steps[i].name in r.value.steps && r.value.steps[steps[i].name] == steps[i]
    ensures r.Ok? ==> OrdersSteps(steps, r.value.order)
    ensures r.Ok? ==> CountsSteps(steps, r.value.incoming, r.value.adjacency)
  {
    hide Acyclic, KnownDependencies, Counted, Mirrors, OrdersSteps, CountsSteps, IsLayering;
    var indexed := IndexSteps(steps);
    if indexed.Err? {
      return Err(indexed.error);
    }
    var all := indexed.value;
    LinkableKnown(all);
    var ok, incoming, adjacency := LinkSteps(all);
    if !ok {
      return Err("unknown or self dependency");
    }
    KnownClosed(all);
    assert DepGraph(all).Keys == all.Keys;
    var order := LayeredSort(DepGraph(all), |all|, incoming, adjacency);
    if order.Err? {
      return Err(order.error);
    }
    OrderMeans(steps, order.value);
    EdgesMean(steps, incoming, adjacency);
    forall i | 0 <= i < |steps| ensures steps[i].name in all && all[steps[i].name] == steps[i] {
      StepMapLookup(steps, i);
    }
    return Ok(DAG(all, order.value, incoming, adjacency));
  }

  lemma KnownClosed(steps: map<string, Step>)
    requires KnownDependencies(DepGraph(steps))
    ensures Closed(DepGraph(steps), DepGraph(steps).Keys)
  {
  }
}
