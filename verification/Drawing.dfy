/** From a declared pipeline to its drawing (internal/graph/extract.go and internal/graph/dot.go): the levels drawn are
    the layers executed. */
module Drawing {
  import opened Wrappers
  import opened Digraph
  import opened Levels
  import Dag

  datatype Edge = Edge(source: string, target: string, kind: string)

  function NodeId(kind: string, name: string): string {
    kind + ":" + name
  }

  /** What the node ids of a pipeline's steps start with. */
  function StepPrefix(pipeline: string): string {
    "step:" + pipeline + "."
  }

  lemma StepId(pipeline: string, name: string)
    ensures NodeId("step", pipeline + "." + name) == StepPrefix(pipeline) + name
  {
    assert "step" + ":" + (pipeline + "." + name) == "step:" + pipeline + "." + name;
  }

  // ---- Extraction ----

  function DependencyEdges(id: string, targets: seq<string>): seq<Edge> {
    if targets == [] then []
    else DependencyEdges(id, targets[..|targets| - 1]) + [Edge(id, targets[|targets| - 1], "depends on")]
  }

  /** The edges of one step: contained in its pipeline, invoking its agent, depending on other steps. */
  function StepEdges(pipeline: string, step: Dag.Step): seq<Edge> {
    var id := StepPrefix(pipeline) + step.name;
    [Edge(NodeId("pipeline", pipeline), id, "contains")] +
    (if step.agentRef != "" then [Edge(id, NodeId("agent", step.agentRef), "invokes")] else []) +
    DependencyEdges(id, Ids(StepPrefix(pipeline), step.dependsOn))
  }

  function Edges(pipeline: string, steps: seq<Dag.Step>): seq<Edge> {
    if steps == [] then []
    else Edges(pipeline, steps[..|steps| - 1]) + StepEdges(pipeline, steps[|steps| - 1])
  }

  function Names(steps: seq<Dag.Step>): (names: seq<string>)
    ensures |names| == |steps| && forall i :: 0 <= i < |steps| ==> names[i] == steps[i].name
  {
    if steps == [] then [] else Names(steps[..|steps| - 1]) + [steps[|steps| - 1].name]
  }

  // ---- What is extracted, in the words of the drawing ----

  /** An edge that a step of the pipeline gives rise to. */
  ghost predicate IsStepEdge(pipeline: string, step: Dag.Step, e: Edge) {
    var id := "step:" + pipeline + "." + step.name;
    || e == Edge("pipeline:" + pipeline, id, "contains")
    || (step.agentRef != "" && e == Edge(id, "agent:" + step.agentRef, "invokes"))
    || exists d :: d in step.dependsOn && e == Edge(id, "step:" + pipeline + "." + d, "depends on")
  }

  ghost predicate IsEdge(pipeline: string, steps: seq<Dag.Step>, e: Edge) {
    exists i :: 0 <= i < |steps| && IsStepEdge(pipeline, steps[i], e)
  }

  lemma {:induction false} DependencyEdgesAre(id: string, targets: seq<string>, e: Edge)
    ensures e in DependencyEdges(id, targets) <==> exists t :: t in targets && e == Edge(id, t, "depends on")
  {
    if targets != [] {
      var n := |targets| - 1;
      DependencyEdgesAre(id, targets[..n], e);
      assert targets == targets[..n] + [targets[n]];
    }
  }

  lemma IdsOf(prefix: string, names: seq<string>, t: string)
    ensures t in Ids(prefix, names) <==> exists d :: d in names && t == prefix + d
  {
    if t in Ids(prefix, names) {
      var i :| 0 <= i < |names| && Ids(prefix, names)[i] == t;
      assert names[i] in names;
    }
    if d :| d in names && t == prefix + d {
      var i :| 0 <= i < |names| && names[i] == d;
      assert Ids(prefix, names)[i] == t;
    }
  }

  lemma StepEdgesAre(pipeline: string, step: Dag.Step, e: Edge)
    ensures e in StepEdges(pipeline, step) <==> IsStepEdge(pipeline, step, e)
  {
    hide DependencyEdges, Ids;
    var prefix := StepPrefix(pipeline);
    var id, targets := prefix + step.name, Ids(prefix, step.dependsOn);
    assert "pipeline" + ":" == "pipeline:" && "agent" + ":" == "agent:";
    assert id == "step:" + pipeline + "." + step.name;
    DependencyEdgesAre(id, targets, e);
    if t :| t in targets && e == Edge(id, t, "depends on") {
      IdsOf(prefix, step.dependsOn, t);
    }
    forall d | d in step.dependsOn ensures prefix + d in targets {
      IdsOf(prefix, step.dependsOn, prefix + d);
    }
  }

  lemma {:induction false} EdgesAre(pipeline: string, steps: seq<Dag.Step>, e: Edge)
    ensures e in Edges(pipeline, steps) <==> IsEdge(pipeline, steps, e)
  {
    hide StepEdges, IsStepEdge;
    if steps != [] {
      var n := |steps| - 1;
      EdgesAre(pipeline, steps[..n], e);
      StepEdgesAre(pipeline, steps[n], e);
      if IsEdge(pipeline, steps[..n], e) {
        var i :| 0 <= i < n && IsStepEdge(pipeline, steps[..n][i], e);
        assert IsStepEdge(pipeline, steps[i], e);
      }
      if IsEdge(pipeline, steps, e) {
        var i :| 0 <= i < |steps| && IsStepEdge(pipeline, steps[i], e);
        assert i < n ==> IsStepEdge(pipeline, steps[..n][i], e);
      }
    }
  }

  method ExtractPipeline(pipeline: string, steps: seq<Dag.Step>) returns (nodes: seq<string>, edges: seq<Edge>)
    ensures nodes == Ids(StepPrefix(pipeline), Names(steps)) && edges == Edges(pipeline, steps)
    ensures |nodes| == |steps| && forall i :: 0 <= i < |steps| ==> nodes[i] == "step:" + pipeline + "." + steps[i].name
    ensures forall e :: e in edges <==> IsEdge(pipeline, steps, e)
  {
    nodes, edges := [], [];
    var i := 0;
    while i < |steps|
      invariant 0 <= i <= |steps|
      invariant nodes == Ids(StepPrefix(pipeline), Names(steps[..i])) && edges == Edges(pipeline, steps[..i])
    {
      assert steps[..i + 1][..i] == steps[..i];
      StepId(pipeline, steps[i].name);
      var id := NodeId("step", pipeline + "." + steps[i].name);
      nodes := nodes + [id];
      var own := ExtractStep(pipeline, steps[i], id);
      edges := edges + own;
      i := i + 1;
    }
    assert steps[..i] == steps;
    forall e ensures e in edges <==> IsEdge(pipeline, steps, e) {
      EdgesAre(pipeline, steps, e);
    }
  }

  method ExtractStep(pipeline: string, step: Dag.Step, id: string) returns (edges: seq<Edge>)
    requires id == StepPrefix(pipeline) + step.name
    ensures edges == StepEdges(pipeline, step)
  {
    edges := [Edge(NodeId("pipeline", pipeline), id, "contains")];
    if step.agentRef != "" {
      edges := edges + [Edge(id, NodeId("agent", step.agentRef), "invokes")];
    }
    ghost var head := edges;
    ghost var targets := Ids(StepPrefix(pipeline), step.dependsOn);
    assert head + [] == head;
    var i := 0;
    while i < |step.dependsOn|
      invariant 0 <= i <= |step.dependsOn|
      invariant edges == head + DependencyEdges(id, targets[..i])
    {
      assert targets[..i + 1][..i] == targets[..i];
      StepId(pipeline, step.dependsOn[i]);
      edges := edges + [Edge(id, NodeId("step", pipeline + "." + step.dependsOn[i]), "depends on")];
      i := i + 1;
    }
    assert targets[..i] == targets;
  }

  // ---- Dependencies read back from the edges ----

  function AddDependency(deps: Graph, e: Edge): Graph {
    if e.kind == "depends on" then deps[e.source := Succ(deps, e.source) + [e.target]] else deps
  }

  function Dependencies(edges: seq<Edge>): Graph {
    if edges == [] then map[] else AddDependency(Dependencies(edges[..|edges| - 1]), edges[|edges| - 1])
  }

  method StepDeps(edges: seq<Edge>) returns (deps: Graph)
    ensures deps == Dependencies(edges)
  {
    deps := map[];
    var i := 0;
    while i < |edges|
      invariant 0 <= i <= |edges|
      invariant deps == Dependencies(edges[..i])
    {
      assert edges[..i + 1][..i] == edges[..i];
      var e := edges[i];
      if e.kind == "depends on" {
        deps := deps[e.source := (if e.source in deps then deps[e.source] else []) + [e.target]];
      }
      i := i + 1;
    }
    assert edges[..i] == edges;
  }

  /** The dependency targets of x, in edge order. */
  function TargetsOf(edges: seq<Edge>, x: string): seq<string> {
    if edges == [] then [] else
      var e := edges[|edges| - 1];
      TargetsOf(edges[..|edges| - 1], x) + if e.kind == "depends on" && e.source == x then [e.target] else []
  }

  lemma {:induction false} DependenciesAre(edges: seq<Edge>, x: string)
    ensures Succ(Dependencies(edges), x) == TargetsOf(edges, x)
  {
    if edges != [] {
      DependenciesAre(edges[..|edges| - 1], x);
    }
  }

  lemma {:induction false} TargetsAppend(a: seq<Edge>, b: seq<Edge>, x: string)
    ensures TargetsOf(a + b, x) == TargetsOf(a, x) + TargetsOf(b, x)
    decreases b
  {
    if b == [] {
      assert a + b == a;
    } else {
      var n := |b| - 1;
      assert (a + b)[..|a + b| - 1] == a + b[..n];
      TargetsAppend(a, b[..n], x);
    }
  }

  lemma {:induction false} DependencyTargets(id: string, targets: seq<string>, x: string)
    ensures TargetsOf(DependencyEdges(id, targets), x) == if x == id then targets else []
  {
    if targets != [] {
      var n := |targets| - 1;
      DependencyTargets(id, targets[..n], x);
      hide TargetsOf;
      var front, e := DependencyEdges(id, targets[..n]), Edge(id, targets[n], "depends on");
      TargetsSnoc(front, e, x);
      assert targets == targets[..n] + [targets[n]];
    } else {
      assert TargetsOf([], x) == [];
    }
  }

  lemma TargetsSnoc(front: seq<Edge>, e: Edge, x: string)
    ensures TargetsOf(front + [e], x) ==
            TargetsOf(front, x) + if e.kind == "depends on" && e.source == x then [e.target] else []
  {
    assert (front + [e])[..|front|] == front;
  }

  lemma OneOther(e: Edge, x: string)
    requires e.kind != "depends on"
    ensures TargetsOf([e], x) == []
  {
    assert [e][..0] == [];
  }

  lemma StepTargets(pipeline: string, step: Dag.Step, x: string)
    ensures TargetsOf(StepEdges(pipeline, step), x) ==
            if x == StepPrefix(pipeline) + step.name then Ids(StepPrefix(pipeline), step.dependsOn) else []
  {
    hide TargetsOf, DependencyEdges, Ids;
    var id := StepPrefix(pipeline) + step.name;
    var a := [Edge(NodeId("pipeline", pipeline), id, "contains")];
    var b := if step.agentRef != "" then [Edge(id, NodeId("agent", step.agentRef), "invokes")] else [];
    var d := DependencyEdges(id, Ids(StepPrefix(pipeline), step.dependsOn));
    TargetsAppend(a + b, d, x);
    TargetsAppend(a, b, x);
    OneOther(a[0], x);
    if b == [] {
      assert a + b == a;
    } else {
      OneOther(b[0], x);
    }
    DependencyTargets(id, Ids(StepPrefix(pipeline), step.dependsOn), x);
  }

  /** With distinct names the edges of a step lead to exactly its dependencies. */
  lemma {:induction false} ExtractedTargets(pipeline: string, steps: seq<Dag.Step>, i: nat)
    requires Dag.DistinctNames(steps) && i < |steps|
    ensures TargetsOf(Edges(pipeline, steps), StepPrefix(pipeline) + steps[i].name) ==
            Ids(StepPrefix(pipeline), steps[i].dependsOn)
    decreases steps
  {
    hide Ids, StepEdges;
    var n, x := |steps| - 1, StepPrefix(pipeline) + steps[i].name;
    TargetsAppend(Edges(pipeline, steps[..n]), StepEdges(pipeline, steps[n]), x);
    StepTargets(pipeline, steps[n], x);
    if i < n {
      ExtractedTargets(pipeline, steps[..n], i);
      if x == StepPrefix(pipeline) + steps[n].name {
        PrefixInjective(StepPrefix(pipeline), steps[i].name, steps[n].name);
      }
    } else {
      NoTargets(pipeline, steps[..n], steps[i].name);
    }
  }

  lemma {:induction false} NoTargets(pipeline: string, steps: seq<Dag.Step>, name: string)
    requires forall i :: 0 <= i < |steps| ==> steps[i].name != name
    ensures TargetsOf(Edges(pipeline, steps), StepPrefix(pipeline) + name) == []
  {
    hide Ids, StepEdges;
    if steps != [] {
      var n, x := |steps| - 1, StepPrefix(pipeline) + name;
      NoTargets(pipeline, steps[..n], name);
      TargetsAppend(Edges(pipeline, steps[..n]), StepEdges(pipeline, steps[n]), x);
      StepTargets(pipeline, steps[n], x);
      if x == StepPrefix(pipeline) + steps[n].name {
        PrefixInjective(StepPrefix(pipeline), name, steps[n].name);
      }
    }
  }

  // ---- The drawn graph is the dependency graph ----

  ghost function DrawnGraph(pipeline: string, steps: seq<Dag.Step>): Graph {
    var ids := Ids(StepPrefix(pipeline), Names(steps));
    Within(Dependencies(Edges(pipeline, steps)), set s | s in ids)
  }

  lemma DrawnIds(pipeline: string, steps: seq<Dag.Step>)
    ensures var ids := Ids(StepPrefix(pipeline), Names(steps));
            && (forall v :: v in Dag.DepGraph(Dag.StepMap(steps)) <==> StepPrefix(pipeline) + v in ids)
            && (forall x :: x in ids ==> StepPrefix(pipeline) <= x)
  {
    hide Dag.StepMap;
    Dag.StepMapNames(steps);
    var names := Names(steps);
    forall v
      ensures v in Dag.DepGraph(Dag.StepMap(steps)) <==> StepPrefix(pipeline) + v in Ids(StepPrefix(pipeline), names)
    {
      IdsMembers(StepPrefix(pipeline), names, v);
      if v in names {
        var i :| 0 <= i < |names| && names[i] == v;
        assert steps[i].name == v;
      }
      if v in Dag.StepMap(steps) {
        var i :| 0 <= i < |steps| && steps[i].name == v;
        assert names[i] == v;
      }
    }
  }

  lemma DrawnRenames(pipeline: string, steps: seq<Dag.Step>)
    requires Dag.DistinctNames(steps) && Dag.KnownDependencies(Dag.DepGraph(Dag.StepMap(steps)))
    ensures Renamed(Dag.DepGraph(Dag.StepMap(steps)), DrawnGraph(pipeline, steps), StepPrefix(pipeline))
  {
    hide Dag.StepMap, Ids, Edges, Dependencies, Renamed, StepPrefix;
    var g, prefix, deps := Dag.DepGraph(Dag.StepMap(steps)), StepPrefix(pipeline), Dependencies(Edges(pipeline, steps));
    DrawnIds(pipeline, steps);
    Dag.StepMapNames(steps);
    forall v | v in g ensures Succ(deps, prefix + v) == Ids(prefix, g[v]) {
      var i :| 0 <= i < |steps| && steps[i].name == v;
      Dag.StepMapLookup(steps, i);
      ExtractedTargets(pipeline, steps, i);
      DependenciesAre(Edges(pipeline, steps), prefix + v);
    }
    Dag.KnownClosed(Dag.StepMap(steps));
    ExtractedRenames(g, Ids(prefix, Names(steps)), deps, prefix);
  }

  lemma Depth(g: Graph, order: seq<seq<string>>, v: string) returns (k: nat)
    requires Dag.IsLayering(g, order) && v in g
    ensures !ChainFrom(g, v, k)
  {
    assert Dag.InLayers(order, v);
    var l :| 0 <= l < |order| && v in order[l];
    assert LongestChain(g, v, l);
    k := l + 1;
  }

  /** A cycle in the drawn graph would be chains of every length in the pipeline. */
  lemma DrawnAcyclic(g: Graph, order: seq<seq<string>>, h: Graph, prefix: string)
    requires Dag.IsLayering(g, order) && Renamed(g, h, prefix) && forall x :: x in h ==> prefix <= x
    ensures Acyclic(h)
  {
    hide Renamed, Dag.IsLayering, OnCycle;
    forall x ensures !OnCycle(h, x) {
      if x in h {
        var v := x[|prefix|..];
        assert x == prefix + v;
        RenamedKeys(g, h, prefix, v);
        var k := Depth(g, order, v);
        RenamedChain(g, h, prefix, v, k);
        ShortNoCycle(h, x, k);
      } else {
        NoCycleOutside(h, x);
      }
    }
  }

  lemma RenamedKeys(g: Graph, h: Graph, prefix: string, v: string)
    requires Renamed(g, h, prefix) && prefix + v in h
    ensures v in g
  {
  }

  /** Level l of the drawing holds exactly the steps of layer l. */
  ghost predicate SameLevels(pipeline: string, order: seq<seq<string>>, levels: seq<seq<string>>) {
    && |levels| == |order|
    && forall l, v :: 0 <= l < |order| ==> (v in order[l] <==> StepPrefix(pipeline) + v in levels[l])
  }

  lemma NoStepsNoLayers(steps: seq<Dag.Step>, order: seq<seq<string>>)
    requires steps == [] && Dag.IsLayering(Dag.DepGraph(Dag.StepMap(steps)), order)
    ensures order == []
  {
    Dag.LayeringUnique(Dag.DepGraph(Dag.StepMap(steps)), order, []);
  }

  /** For every pipeline that BuildDAG accepts, the drawing terminates and its levels are the layers that will be
      executed. The renderer groups only pipelines with a step; one without steps has no levels. */
  method DrawLevels(pipeline: string, steps: seq<Dag.Step>) returns (dag: Result<Dag.DAG>, levels: seq<seq<string>>)
    ensures dag.Ok? <==> && Dag.DistinctNames(steps)
                         && Dag.KnownDependencies(Dag.DepGraph(Dag.StepMap(steps)))
                         && Acyclic(Dag.DepGraph(Dag.StepMap(steps)))
    ensures dag.Ok? ==> SameLevels(pipeline, dag.value.order, levels)
  {
    hide Dag.StepMap, Dag.DepGraph, Dag.KnownDependencies, Dag.IsLayering, Acyclic, Ids, Edges, Dependencies, Renamed,
         StepPrefix, Within, IsLevels, Names, AtLevel;
    dag := Dag.BuildDAG(steps);
    levels := [];
    if dag.Ok? && |steps| > 0 {
      var nodes, edges := ExtractPipeline(pipeline, steps);
      var deps := StepDeps(edges);
      ghost var g, prefix := Dag.DepGraph(Dag.StepMap(steps)), StepPrefix(pipeline);
      DrawnIds(pipeline, steps);
      DrawnRenames(pipeline, steps);
      WithinKeys(Within(deps, set s | s in nodes), deps, nodes, prefix);
      DrawnAcyclic(g, dag.value.order, Within(deps, set s | s in nodes), prefix);
      levels := GroupByDepLevel(nodes, deps);
      SomeNode(pipeline, steps);
      LevelsAreLayers(g, dag.value.order, nodes, deps, prefix, levels);
    } else if dag.Ok? {
      NoStepsNoLayers(steps, dag.value.order);
    }
  }

  lemma WithinKeys(h: Graph, deps: Graph, nodes: seq<string>, prefix: string)
    requires h == Within(deps, set s | s in nodes) && forall x :: x in nodes ==> prefix <= x
    ensures forall x :: x in h ==> prefix <= x
  {
  }

  lemma SomeNode(pipeline: string, steps: seq<Dag.Step>)
    requires steps != []
    ensures Ids(StepPrefix(pipeline), Names(steps)) != []
  {
  }
}
