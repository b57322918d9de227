/** Finite directed graphs given by adjacency lists, shared by the import graph,
    the pipeline DAG and the level computation of the graph renderer. */
module Digraph {

  /** A vertex may be mentioned by an adjacency list without being a key: a dangling
      import has no outgoing edges. */
  type Graph = map<string, seq<string>>

  function Succ(g: Graph, v: string): seq<string> {
    if v in g then g[v] else []
  }

  /** There is a walk of exactly n edges from u to v. */
  ghost predicate ReachesIn(g: Graph, u: string, v: string, n: nat)
    decreases n
  {
    if n == 0 then u == v else exists w :: w in Succ(g, u) && ReachesIn(g, w, v, n - 1)
  }

  ghost predicate Reaches(g: Graph, u: string, v: string) {
    exists n :: ReachesIn(g, u, v, n)
  }

  /** A walk of at least one edge. */
  ghost predicate ReachesPlus(g: Graph, u: string, v: string) {
    exists w :: w in Succ(g, u) && Reaches(g, w, v)
  }

  /** v lies on a cycle: a walk of at least one edge leads from v back to v. */
  ghost predicate OnCycle(g: Graph, v: string) {
    ReachesPlus(g, v, v)
  }

  ghost predicate Acyclic(g: Graph) {
    forall v :: !OnCycle(g, v)
  }

  ghost predicate Mutual(g: Graph, u: string, v: string) {
    Reaches(g, u, v) && Reaches(g, v, u)
  }

  ghost predicate Closed(g: Graph, s: set<string>) {
    forall v, w :: v in s && w in Succ(g, v) ==> w in s
  }

  /** Every key and every mentioned vertex. */
  ghost function Vertices(g: Graph): set<string> {
    g.Keys + set v, w | v in g && w in g[v] :: w
  }

  lemma VerticesClosed(g: Graph)
    ensures Closed(g, Vertices(g))
  {
  }

  lemma ReachesSelf(g: Graph, v: string)
    ensures Reaches(g, v, v)
  {
    assert ReachesIn(g, v, v, 0);
  }

  lemma {:induction false} WalkConcat(g: Graph, u: string, v: string, w: string, m: nat, n: nat)
    requires ReachesIn(g, u, v, m) && ReachesIn(g, v, w, n)
    ensures ReachesIn(g, u, w, m + n)
    decreases m
  {
    if m > 0 {
      var x :| x in Succ(g, u) && ReachesIn(g, x, v, m - 1);
      WalkConcat(g, x, v, w, m - 1, n);
    }
  }

  lemma ReachesTrans(g: Graph, u: string, v: string, w: string)
    requires Reaches(g, u, v) && Reaches(g, v, w)
    ensures Reaches(g, u, w)
  {
    var m: nat :| ReachesIn(g, u, v, m);
    var n: nat :| ReachesIn(g, v, w, n);
    WalkConcat(g, u, v, w, m, n);
  }

  lemma EdgeReaches(g: Graph, u: string, v: string)
    requires v in Succ(g, u)
    ensures Reaches(g, u, v)
  {
    assert ReachesIn(g, v, v, 0);
    assert ReachesIn(g, u, v, 1);
  }

  lemma {:induction false} ClosedWalk(g: Graph, s: set<string>, u: string, v: string, n: nat)
    requires Closed(g, s) && u in s && ReachesIn(g, u, v, n)
    ensures v in s
    decreases n
  {
    if n > 0 {
      var x :| x in Succ(g, u) && ReachesIn(g, x, v, n - 1);
      ClosedWalk(g, s, x, v, n - 1);
    }
  }

  /** A closed set cannot be left. */
  lemma ClosedReaches(g: Graph, s: set<string>, u: string, v: string)
    requires Closed(g, s) && u in s && Reaches(g, u, v)
    ensures v in s
  {
    var n: nat :| ReachesIn(g, u, v, n);
    ClosedWalk(g, s, u, v, n);
  }

  lemma PlusStep(g: Graph, u: string, v: string, w: string)
    requires Reaches(g, u, v) && w in Succ(g, v)
    ensures ReachesPlus(g, u, w)
  {
    var n: nat :| ReachesIn(g, u, v, n);
    EdgeReaches(g, v, w);
    if n == 0 {
      ReachesSelf(g, w);
    } else {
      var x :| x in Succ(g, u) && ReachesIn(g, x, v, n - 1);
      assert Reaches(g, x, v);
      ReachesTrans(g, x, v, w);
    }
  }

  lemma PlusReaches(g: Graph, u: string, v: string)
    requires ReachesPlus(g, u, v)
    ensures Reaches(g, u, v)
  {
    var w :| w in Succ(g, u) && Reaches(g, w, v);
    EdgeReaches(g, u, w);
    ReachesTrans(g, u, w, v);
  }

  /** Reaching a different vertex takes at least one edge. */
  lemma ReachesOther(g: Graph, u: string, v: string)
    requires Reaches(g, u, v) && u != v
    ensures ReachesPlus(g, u, v)
  {
    var n: nat :| ReachesIn(g, u, v, n);
    var w :| w in Succ(g, u) && ReachesIn(g, w, v, n - 1);
    assert Reaches(g, w, v);
  }

  /** There is a walk of n edges out of v. */
  ghost predicate ChainFrom(g: Graph, v: string, n: nat)
    decreases n
  {
    n == 0 || exists w :: w in Succ(g, v) && ChainFrom(g, w, n - 1)
  }

  /** The longest walk out of v has n edges. */
  ghost predicate LongestChain(g: Graph, v: string, n: nat) {
    ChainFrom(g, v, n) && !ChainFrom(g, v, n + 1)
  }

  lemma {:induction false} ShorterChain(g: Graph, v: string, m: nat, n: nat)
    requires m <= n && ChainFrom(g, v, n)
    ensures ChainFrom(g, v, m)
    decreases n
  {
    if m > 0 {
      var w :| w in Succ(g, v) && ChainFrom(g, w, n - 1);
      ShorterChain(g, w, m - 1, n - 1);
    }
  }

  lemma LongestUnique(g: Graph, v: string, m: nat, n: nat)
    requires LongestChain(g, v, m) && LongestChain(g, v, n)
    ensures m == n
  {
    if m < n {
      ShorterChain(g, v, m + 1, n);
    } else if n < m {
      ShorterChain(g, v, n + 1, m);
    }
  }

  lemma {:induction false} WalkThenChain(g: Graph, u: string, v: string, m: nat, n: nat)
    requires ReachesIn(g, u, v, m) && ChainFrom(g, v, n)
    ensures ChainFrom(g, u, m + n)
    decreases m
  {
    if m > 0 {
      var w :| w in Succ(g, u) && ReachesIn(g, w, v, m - 1);
      WalkThenChain(g, w, v, m - 1, n);
    }
  }

  /** Out of a cycle there are walks of every length. */
  lemma {:induction false} CycleChains(g: Graph, v: string, n: nat)
    requires OnCycle(g, v)
    ensures ChainFrom(g, v, n)
  {
    if n > 0 {
      CycleChains(g, v, n - 1);
      var w :| w in Succ(g, v) && Reaches(g, w, v);
      var m: nat :| ReachesIn(g, w, v, m);
      WalkThenChain(g, w, v, m, n - 1);
      ShorterChain(g, w, n - 1, m + n - 1);
    }
  }

  lemma NoCycleOutside(g: Graph, v: string)
    requires v !in g
    ensures !OnCycle(g, v)
  {
  }

  lemma ShortNoCycle(g: Graph, v: string, k: nat)
    requires !ChainFrom(g, v, k)
    ensures !OnCycle(g, v)
  {
    if OnCycle(g, v) {
      CycleChains(g, v, k);
    }
  }

  ghost predicate HasSuccessorIn(g: Graph, s: set<string>, v: string) {
    exists w :: w in Succ(g, v) && w in s
  }

  /** Every vertex of s has a successor in s. */
  ghost predicate Sinkless(g: Graph, s: set<string>) {
    forall v {:trigger HasSuccessorIn(g, s, v)} :: v in s ==> HasSuccessorIn(g, s, v)
  }

  ghost function ReachedWithin(g: Graph, s: set<string>, v: string): set<string> {
    set w | w in s && ReachesPlus(g, v, w)
  }

  /** A finite set without a sink holds a cycle. */
  lemma {:induction false} SinklessCyclic(g: Graph, s: set<string>, v: string)
    requires Sinkless(g, s) && v in s
    ensures !Acyclic(g)
    decreases ReachedWithin(g, s, v)
  {
    assert HasSuccessorIn(g, s, v);
    var w :| w in Succ(g, v) && w in s;
    if !OnCycle(g, w) {
      ReachesSelf(g, w);
      assert w in ReachedWithin(g, s, v) && w !in ReachedWithin(g, s, w);
      forall x | x in ReachedWithin(g, s, w) ensures x in ReachedWithin(g, s, v) {
        PlusReaches(g, w, x);
      }
      SinklessCyclic(g, s, w);
    }
  }
}
