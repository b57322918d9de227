/** groupByDepLevel of internal/graph/dot.go: memoised dependency levels for drawing. */
module Levels {
  import opened Digraph
  import Dag

  function Keep(deps: seq<string>, steps: set<string>): seq<string> {
    if deps == [] then [] else (if deps[0] in steps then [deps[0]] else []) + Keep(deps[1..], steps)
  }

  lemma {:induction false} KeepMembers(deps: seq<string>, steps: set<string>)
    ensures forall d :: d in Keep(deps, steps) <==> d in deps && d in steps
  {
    if deps != [] {
      KeepMembers(deps[1..], steps);
      assert deps == [deps[0]] + deps[1..];
    }
  }

  /** The "depends on" edges among the steps of one pipeline. */
  function Within(deps: Graph, steps: set<string>): Graph {
    map id | id in steps :: Keep(Succ(deps, id), steps)
  }

  class LevelMemo {
    const steps: set<string>
    const deps: Graph
    var levels: map<string, nat>

    constructor (steps: set<string>, deps: Graph)
      ensures this.steps == steps && this.deps == deps && levels == map[]
    {
      this.steps := steps;
      this.deps := deps;
      levels := map[];
    }

    ghost function G(): Graph {
      Within(deps, steps)
    }

    ghost predicate Valid()
      reads this
    {
      forall x :: x in levels ==> x in steps && LongestChain(G(), x, levels[x])
    }

    /** The closure `computeLevel`: on an acyclic graph every memoised level is a longest chain. */
    method ComputeLevel(id: string) returns (level: nat)
      requires Valid() && id in steps && Acyclic(G())
      modifies this
      ensures Valid() && id in levels && levels[id] == level && LongestChain(G(), id, level)
      ensures old(levels.Keys) <= levels.Keys
      decreases ReachedWithin(G(), steps, id)
    {
      hide LongestChain, Acyclic, Highest, Within, ReachedWithin;
      if id in levels {
        return levels[id];
      }
      var maxDep: int := -1;
      ghost var direct := Succ(deps, id);
      WithinSucc(deps, steps, id);
      NoDeps(G(), steps);
      if id in deps {
        for i := 0 to |deps[id]|
          invariant maxDep >= -1 && Valid() && old(levels.Keys) <= levels.Keys
          invariant Highest(G(), deps[id][..i], steps, maxDep)
        {
          var dep := deps[id][i];
          assert deps[id][..i + 1] == deps[id][..i] + [dep];
          if dep in steps {
            assert dep in direct && dep in Succ(G(), id);
            StepDown(G(), steps, id, dep);
            var l := ComputeLevel(dep);
            HigherDep(G(), deps[id][..i], steps, maxDep, dep, l);
            if l > maxDep {
              maxDep := l;
            }
          } else {
            SkipDep(G(), deps[id][..i], steps, maxDep, dep);
          }
        }
        assert deps[id][..|deps[id]|] == deps[id];
      }
      LevelFromDeps(G(), id, direct, steps, maxDep);
      levels := levels[id := maxDep + 1];
      level := maxDep + 1;
    }
  }

  /** best is the highest level among the entries of deps that are steps, -1 if there are none. */
  ghost predicate Highest(g: Graph, deps: seq<string>, steps: set<string>, best: int) {
    && best >= -1
    && (best >= 0 ==> exists d :: d in deps && d in steps && LongestChain(g, d, best))
    && (forall d :: d in deps && d in steps ==> !ChainFrom(g, d, best + 1))
  }

  lemma WithinSucc(deps: Graph, steps: set<string>, id: string)
    requires id in steps
    ensures forall d :: d in Succ(Within(deps, steps), id) <==> d in Succ(deps, id) && d in steps
  {
    KeepMembers(Succ(deps, id), steps);
  }

  lemma NoDeps(g: Graph, steps: set<string>)
    ensures Highest(g, [], steps, -1)
  {
  }

  lemma SkipDep(g: Graph, deps: seq<string>, steps: set<string>, best: int, dep: string)
    requires Highest(g, deps, steps, best) && dep !in steps
    ensures Highest(g, deps + [dep], steps, best)
  {
    if best >= 0 {
      var d :| d in deps && d in steps && LongestChain(g, d, best);
      assert d in deps + [dep];
    }
  }

  lemma HigherDep(g: Graph, deps: seq<string>, steps: set<string>, best: int, dep: string, l: nat)
    requires Highest(g, deps, steps, best) && dep in steps && LongestChain(g, dep, l)
    ensures Highest(g, deps + [dep], steps, if l > best then l else best)
  {
    forall d | d in deps + [dep] && d in steps ensures !ChainFrom(g, d, (if l > best then l else best) + 1) {
      if d in deps {
        if l > best && ChainFrom(g, d, l + 1) {
          ShorterChain(g, d, best + 1, l + 1);
        }
      } else if l <= best && ChainFrom(g, d, best + 1) {
        ShorterChain(g, d, l + 1, best + 1);
      }
    }
    if best >= 0 {
      var d :| d in deps && d in steps && LongestChain(g, d, best);
      assert d in deps + [dep];
    }
    assert dep in deps + [dep];
  }

  lemma LevelFromDeps(g: Graph, id: string, deps: seq<string>, steps: set<string>, best: int)
    requires Highest(g, deps, steps, best) && best >= -1
    requires forall d :: d in Succ(g, id) <==> d in deps && d in steps
    ensures LongestChain(g, id, best + 1)
  {
    if best >= 0 {
      var d :| d in deps && d in steps && LongestChain(g, d, best);
      assert d in Succ(g, id) && ChainFrom(g, d, best);
    }
  }

  lemma StepDown(g: Graph, steps: set<string>, id: string, dep: string)
    requires Acyclic(g) && dep in Succ(g, id) && dep in steps
    ensures ReachedWithin(g, steps, dep) < ReachedWithin(g, steps, id)
  {
    ReachesSelf(g, dep);
    assert !OnCycle(g, dep);
    assert dep in ReachedWithin(g, steps, id) && dep !in ReachedWithin(g, steps, dep);
    forall x | x in ReachedWithin(g, steps, dep) ensures x in ReachedWithin(g, steps, id) {
      PlusReaches(g, dep, x);
    }
  }

  /** The steps whose longest chain has l edges, in the order and as often as they are given. */
  ghost function AtLevel(g: Graph, steps: seq<string>, l: nat): seq<string> {
    if steps == [] then [] else
      var last := steps[|steps| - 1];
      AtLevel(g, steps[..|steps| - 1], l) + if LongestChain(g, last, l) then [last] else []
  }

  ghost predicate IsLevels(g: Graph, steps: seq<string>, result: seq<seq<string>>) {
    && (forall l, x :: 0 <= l < |result| && x in result[l] ==> x in steps && LongestChain(g, x, l))
    && (forall x :: x in steps ==> Dag.InLayers(result, x))
  }

  /** Level by level, the steps whose longest chain has that many edges; the last level is used unless
      there are no steps at all, when one empty level remains. */
  method GroupByDepLevel(steps: seq<string>, deps: Graph) returns (result: seq<seq<string>>)
    requires Acyclic(Within(deps, set s | s in steps))
    ensures IsLevels(Within(deps, set s | s in steps), steps, result)
    ensures |result| > 0 && (steps == [] || result[|result| - 1] != [])
    ensures forall l :: 0 <= l < |result| ==> result[l] == AtLevel(Within(deps, set s | s in steps), steps, l)
  {
    hide LongestChain, Acyclic, Within, IsLevels, AtLevel, Sent;
    var stepSet := set s | s in steps;
    var memo := new LevelMemo(stepSet, deps);
    for i := 0 to |steps|
      invariant memo.Valid() && memo.steps == stepSet && memo.deps == deps
      invariant forall s :: s in steps[..i] ==> s in memo.levels
    {
      var _ := memo.ComputeLevel(steps[i]);
      assert steps[..i + 1] == steps[..i] + [steps[i]];
    }
    assert steps[..|steps|] == steps;

    var maxLevel := HighestLevel(memo.levels);
    result := Distribute(steps, memo.levels, maxLevel);
    Grouped(Within(deps, stepSet), steps, memo.levels, maxLevel, result);
    InOrderOfSteps(Within(deps, stepSet), steps, memo.levels, result);
  }

  lemma InOrderOfSteps(g: Graph, steps: seq<string>, levels: map<string, nat>, result: seq<seq<string>>)
    requires forall s :: s in steps ==> s in levels && LongestChain(g, s, levels[s])
    requires forall l :: 0 <= l < |result| ==> result[l] == Sent(steps, levels, l)
    ensures forall l :: 0 <= l < |result| ==> result[l] == AtLevel(g, steps, l)
  {
    hide LongestChain, Sent, AtLevel;
    forall l | 0 <= l < |result| ensures result[l] == AtLevel(g, steps, l) {
      SentAtLevel(g, steps, levels, l);
    }
  }

  lemma {:induction false} SentAtLevel(g: Graph, steps: seq<string>, levels: map<string, nat>, l: nat)
    requires forall s :: s in steps ==> s in levels && LongestChain(g, s, levels[s])
    ensures Sent(steps, levels, l) == AtLevel(g, steps, l)
  {
    hide LongestChain;
    if steps != [] {
      var n := |steps| - 1;
      assert steps[n] in steps;
      SentAtLevel(g, steps[..n], levels, l);
      if LongestChain(g, steps[n], l) {
        LongestUnique(g, steps[n], l, levels[steps[n]]);
      }
    }
  }

  lemma Grouped(g: Graph, steps: seq<string>, levels: map<string, nat>, maxLevel: nat, result: seq<seq<string>>)
    requires forall s :: s in levels <==> s in steps
    requires forall s :: s in levels ==> LongestChain(g, s, levels[s]) && levels[s] <= maxLevel
    requires levels == map[] || exists s :: s in levels && levels[s] == maxLevel
    requires |result| == maxLevel + 1
    requires forall l, x :: 0 <= l <= maxLevel ==> (x in result[l] <==> x in steps && levels[x] == l)
    ensures IsLevels(g, steps, result)
    ensures steps == [] || result[|result| - 1] != []
  {
    hide LongestChain;
    if steps != [] {
      assert steps[0] in steps;
      var s :| s in levels && levels[s] == maxLevel;
      assert s in result[maxLevel];
    }
    forall x | x in steps ensures Dag.InLayers(result, x) {
      assert x in result[levels[x]];
    }
    forall l, x | 0 <= l < |result| && x in result[l] ensures x in steps && LongestChain(g, x, l) {
      assert levels[x] == l;
    }
  }

  method HighestLevel(levels: map<string, nat>) returns (maxLevel: nat)
    ensures forall s :: s in levels ==> levels[s] <= maxLevel
    ensures levels == map[] || exists s :: s in levels && levels[s] == maxLevel
  {
    maxLevel := 0;
    var rest := levels.Keys;
    while rest != {}
      invariant rest <= levels.Keys
      invariant forall s :: s in levels.Keys - rest ==> levels[s] <= maxLevel
      invariant maxLevel == 0 || exists s :: s in levels && levels[s] == maxLevel
      decreases rest
    {
      var s :| s in rest;
      if levels[s] > maxLevel {
        maxLevel := levels[s];
      }
      rest := rest - {s};
    }
    if levels != map[] {
      var s :| s in levels;
      assert levels[s] <= maxLevel;
    }
  }

  function Sent(steps: seq<string>, levels: map<string, nat>, l: nat): seq<string>
    requires forall s :: s in steps ==> s in levels
  {
    if steps == [] then [] else
      var n := |steps| - 1;
      assert steps[n] in steps;
      Sent(steps[..n], levels, l) + if levels[steps[n]] == l then [steps[n]] else []
  }

  /** The last loop: each step goes to the list of its level, in input order. */
  method Distribute(steps: seq<string>, levels: map<string, nat>, maxLevel: nat) returns (result: seq<seq<string>>)
    requires forall s :: s in steps ==> s in levels && levels[s] <= maxLevel
    ensures |result| == maxLevel + 1
    ensures forall l, x :: 0 <= l <= maxLevel ==> (x in result[l] <==> x in steps && levels[x] == l)
    ensures forall l :: 0 <= l <= maxLevel ==> result[l] == Sent(steps, levels, l)
  {
    result := seq(maxLevel + 1, _ => []);
    for i := 0 to |steps|
      invariant |result| == maxLevel + 1
      invariant forall l, x :: 0 <= l <= maxLevel ==> (x in result[l] <==> x in steps[..i] && levels[x] == l)
      invariant forall l :: 0 <= l <= maxLevel ==> result[l] == Sent(steps[..i], levels, l)
    {
      assert steps[..i + 1] == steps[..i] + [steps[i]] && steps[..i + 1][..i] == steps[..i];
      var l := levels[steps[i]];
      result := result[l := result[l] + [steps[i]]];
    }
    assert steps[..|steps|] == steps;
  }

  /** The renderer's node ids: the pipeline's prefix before each step name. */
  function Ids(prefix: string, names: seq<string>): seq<string> {
    seq(|names|, i requires 0 <= i < |names| => prefix + names[i])
  }

  lemma IdsMembers(prefix: string, names: seq<string>, n: string)
    ensures prefix + n in Ids(prefix, names) <==> n in names
  {
    if prefix + n in Ids(prefix, names) {
      var i :| 0 <= i < |names| && Ids(prefix, names)[i] == prefix + n;
      PrefixInjective(prefix, names[i], n);
    }
    if n in names {
      var i :| 0 <= i < |names| && names[i] == n;
      assert Ids(prefix, names)[i] == prefix + n;
    }
  }

  lemma PrefixInjective(prefix: string, a: string, b: string)
    requires prefix + a == prefix + b
    ensures a == b
  {
    assert a == (prefix + a)[|prefix|..];
    assert b == (prefix + b)[|prefix|..];
  }

  /** h is g with every vertex renamed to its node id. */
  ghost predicate Renamed(g: Graph, h: Graph, prefix: string) {
    && (forall v :: v in g <==> prefix + v in h)
    && (forall v :: v in g ==> forall w :: w in g[v] <==> prefix + w in h[prefix + v])
    && (forall x, y :: x in h && y in h[x] ==> prefix <= y)
  }

  lemma RenamedSucc(g: Graph, h: Graph, prefix: string, v: string)
    requires Renamed(g, h, prefix)
    ensures forall w :: w in Succ(g, v) <==> prefix + w in Succ(h, prefix + v)
    ensures forall y :: y in Succ(h, prefix + v) ==> prefix <= y
  {
  }

  lemma {:induction false} RenamedChain(g: Graph, h: Graph, prefix: string, v: string, n: nat)
    requires Renamed(g, h, prefix)
    ensures ChainFrom(g, v, n) <==> ChainFrom(h, prefix + v, n)
    decreases n
  {
    hide Renamed, Succ;
    if n > 0 {
      RenamedSucc(g, h, prefix, v);
      if ChainFrom(g, v, n) {
        var w :| w in Succ(g, v) && ChainFrom(g, w, n - 1);
        RenamedChain(g, h, prefix, w, n - 1);
        assert prefix + w in Succ(h, prefix + v);
      }
      if ChainFrom(h, prefix + v, n) {
        var y :| y in Succ(h, prefix + v) && ChainFrom(h, y, n - 1);
        var w := y[|prefix|..];
        assert y == prefix + w;
        RenamedChain(g, h, prefix, w, n - 1);
        assert w in Succ(g, v);
      }
    }
  }

  lemma RenamedLongest(g: Graph, h: Graph, prefix: string, v: string, n: nat)
    requires Renamed(g, h, prefix)
    ensures LongestChain(g, v, n) <==> LongestChain(h, prefix + v, n)
  {
    RenamedChain(g, h, prefix, v, n);
    RenamedChain(g, h, prefix, v, n + 1);
  }

  lemma LayerIff(g: Graph, order: seq<seq<string>>, v: string, l: nat)
    requires Dag.IsLayering(g, order)
    ensures l < |order| && v in order[l] <==> v in g && LongestChain(g, v, l)
  {
    if v in g && LongestChain(g, v, l) {
      assert Dag.InLayers(order, v);
      var k :| 0 <= k < |order| && v in order[k];
      LongestUnique(g, v, k, l);
    }
  }

  lemma LevelIff(h: Graph, steps: seq<string>, result: seq<seq<string>>, x: string, l: nat)
    requires IsLevels(h, steps, result)
    ensures l < |result| && x in result[l] <==> x in steps && LongestChain(h, x, l)
  {
    if x in steps && LongestChain(h, x, l) {
      assert Dag.InLayers(result, x);
      var k :| 0 <= k < |result| && x in result[k];
      LongestUnique(h, x, k, l);
    }
  }

  lemma LevelLayer(g: Graph, order: seq<seq<string>>, h: Graph, steps: seq<string>, prefix: string,
                   result: seq<seq<string>>, v: string, l: nat)
    requires Dag.IsLayering(g, order) && IsLevels(h, steps, result) && Renamed(g, h, prefix)
    requires v in g <==> prefix + v in steps
    ensures l < |order| && v in order[l] <==> l < |result| && prefix + v in result[l]
  {
    LayerIff(g, order, v, l);
    LevelIff(h, steps, result, prefix + v, l);
    RenamedLongest(g, h, prefix, v, l);
  }

  /** The levels drawn are, as sets, the layers executed: for any acyclic pipeline with at least one step
      the two computations agree level by level. */
  lemma LevelsAreLayers(g: Graph, order: seq<seq<string>>, steps: seq<string>, deps: Graph, prefix: string,
                        result: seq<seq<string>>)
    requires Dag.IsLayering(g, order)
    requires steps != []
    requires forall v :: v in g <==> prefix + v in steps
    requires forall x :: x in steps ==> prefix <= x
    requires Renamed(g, Within(deps, set s | s in steps), prefix)
    requires IsLevels(Within(deps, set s | s in steps), steps, result)
    requires |result| > 0 && result[|result| - 1] != []
    ensures |result| == |order|
    ensures forall l, v :: 0 <= l < |order| ==> (v in order[l] <==> prefix + v in result[l])
  {
    hide Dag.IsLayering, IsLevels, Renamed;
    var h := Within(deps, set s | s in steps);
    forall l: nat, v ensures l < |order| && v in order[l] <==> l < |result| && prefix + v in result[l] {
      LevelLayer(g, order, h, steps, prefix, result, v, l);
    }
    var top, v := |result| - 1, Suffix(prefix, h, steps, result);
    LevelLayer(g, order, h, steps, prefix, result, v, top);
    LastLayerUsed(g, order);
    LevelLayer(g, order, h, steps, prefix, result, order[|order| - 1][0], |order| - 1);
  }

  lemma LastLayerUsed(g: Graph, order: seq<seq<string>>)
    requires Dag.IsLayering(g, order) && order != []
    ensures order[|order| - 1] != []
  {
  }

  ghost function Suffix(prefix: string, h: Graph, steps: seq<string>, result: seq<seq<string>>): (v: string)
    requires forall x :: x in steps ==> prefix <= x
    requires IsLevels(h, steps, result) && |result| > 0 && result[|result| - 1] != []
    ensures prefix + v in result[|result| - 1]
  {
    var x := result[|result| - 1][0];
    assert x in result[|result| - 1] && x in steps;
    assert x == prefix + x[|prefix|..];
    x[|prefix|..]
  }

  /** The node ids and "depends on" edges extracted from a pipeline with known dependencies rename its
      dependency graph. */
  lemma ExtractedRenames(g: Graph, steps: seq<string>, deps: Graph, prefix: string)
    requires Closed(g, g.Keys)
    requires forall v :: v in g <==> prefix + v in steps
    requires forall x :: x in steps ==> prefix <= x
    requires forall v :: v in g ==> Succ(deps, prefix + v) == Ids(prefix, g[v])
    ensures Renamed(g, Within(deps, set s | s in steps), prefix)
  {
    var all := set s | s in steps;
    var h := Within(deps, all);
    forall v | v in g ensures forall w :: w in g[v] <==> prefix + w in h[prefix + v] {
      KeepMembers(Succ(deps, prefix + v), all);
      forall w ensures w in g[v] <==> prefix + w in h[prefix + v] {
        IdsMembers(prefix, g[v], w);
        assert w in g[v] ==> w in Succ(g, v);
      }
    }
    forall x, y | x in h && y in h[x] ensures prefix <= y {
      KeepMembers(Succ(deps, x), all);
    }
  }
}
