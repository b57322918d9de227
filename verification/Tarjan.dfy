/** Tarjan's strongly connected components over the import graph
    (internal/imports/graph.go). */
module TarjanInvariant {
  import opened Digraph

  /** The fields of the `tarjan` struct as one value. */
  datatype State = State(
    index: nat,
    stack: seq<string>,
    onStack: map<string, bool>,
    indices: map<string, nat>,
    lowlink: map<string, nat>,
    sccs: seq<seq<string>>)

  ghost predicate Emitted(sccs: seq<seq<string>>, v: string) {
    exists k :: 0 <= k < |sccs| && v in sccs[k]
  }

  ghost predicate Distinct(s: seq<string>) {
    forall i, j :: 0 <= i < j < |s| ==> s[i] != s[j]
  }

  /** c lists a maximal set of mutually reachable vertices, without repetition. */
  ghost predicate IsComponent(g: Graph, c: seq<string>) {
    && c != []
    && Distinct(c)
    && (forall u, v {:trigger Reaches(g, u, v)} :: u in c && v in c ==> Reaches(g, u, v))
    && (forall u, v {:trigger Mutual(g, u, v)} :: u in c && Mutual(g, u, v) ==> v in c)
  }

  /** Numbering: the stack is strictly increasing in `indices`. */
  ghost predicate Numbered(s: State) {
    && (forall v :: v in s.indices ==> s.indices[v] < s.index)
    && (forall v :: v in s.stack ==> v in s.indices)
    && (forall i, j :: 0 <= i < j < |s.stack| ==> s.indices[s.stack[i]] < s.indices[s.stack[j]])
    && s.lowlink.Keys == s.indices.Keys
    && (forall v :: v in s.stack <==> v in s.onStack && s.onStack[v])
  }

  /** Every visited vertex is on the stack or in exactly one emitted component. */
  ghost predicate Partitioned(g: Graph, stack: seq<string>, visited: set<string>, sccs: seq<seq<string>>) {
    && (forall v :: v in visited ==> v in stack || Emitted(sccs, v))
    && (forall v :: Emitted(sccs, v) ==> v in visited && v !in stack)
    && (forall k, l, v :: 0 <= k < |sccs| && 0 <= l < |sccs| && v in sccs[k] && v in sccs[l] ==> k == l)
    && (forall k :: 0 <= k < |sccs| ==> IsComponent(g, sccs[k]))
    && (forall v, w :: Emitted(sccs, v) && w in Succ(g, v) ==> Emitted(sccs, w))
  }

  /** y reaches a vertex whose call is open and that was numbered no later than y. */
  ghost predicate ReachesOpen(g: Graph, indices: map<string, nat>, grey: set<string>, y: string)
    requires y in indices
  {
    exists x :: x in grey && x in indices && indices[x] <= indices[y] && Reaches(g, y, x)
  }

  /** Stack order is reachability order, and every stacked vertex reaches an open call below it. */
  ghost predicate Linked(g: Graph, stack: seq<string>, indices: map<string, nat>, grey: set<string>)
    requires forall v :: v in stack ==> v in indices
  {
    && (forall v :: v in grey ==> v in stack)
    && (forall v, w :: v in indices && v !in grey && w in Succ(g, v) ==> w in indices)
    && (forall x, y {:trigger Reaches(g, x, y)} ::
          x in stack && y in stack && indices[x] <= indices[y] ==> Reaches(g, x, y))
    && (forall y {:trigger ReachesOpen(g, indices, grey, y)} :: y in stack ==> ReachesOpen(g, indices, grey, y))
  }

  /** The invariant between calls; `grey` holds the vertices whose call has not returned. */
  ghost predicate Inv(g: Graph, s: State, grey: set<string>) {
    && Numbered(s)
    && Partitioned(g, s.stack, s.indices.Keys, s.sccs)
    && Linked(g, s.stack, s.indices, grey)
  }

  lemma PrefixMembers(a: seq<string>, b: seq<string>)
    requires a <= b
    ensures forall y :: y in a ==> y in b
    ensures b == a + b[|a|..]
  {
  }

  /** What a call never undoes. */
  ghost predicate Extends(s: State, t: State) {
    && s.stack <= t.stack
    && s.sccs <= t.sccs
    && (forall v :: v in s.indices ==> v in t.indices && t.indices[v] == s.indices[v])
    && (forall v :: v in s.lowlink ==> v in t.lowlink && t.lowlink[v] == s.lowlink[v])
  }

  /** low is a lower bound on the numbers of the vertices of `base` that an edge out of
      the vertices of `above` enters. */
  ghost predicate Bounds(g: Graph, base: seq<string>, above: seq<string>, indices: map<string, nat>, low: nat) {
    forall x, y :: x in above && y in base && y in indices && y in Succ(g, x) ==> low <= indices[y]
  }

  /** low is the number of a vertex of `stack` that v reaches. */
  ghost predicate Named(g: Graph, stack: seq<string>, indices: map<string, nat>, v: string, low: nat)
    requires forall y :: y in stack ==> y in indices
  {
    exists y :: y in stack && indices[y] == low && Reaches(g, v, y)
  }

  /** What `strongconnect(v)` leaves behind: either v's component was emitted and the stack is back
      where it was, or v stays and its low link names an older stacked vertex it reaches. */
  ghost predicate Returned(g: Graph, s: State, v: string, t: State)
    requires Numbered(s) && Extends(s, t) && Numbered(t) && v in t.indices
  {
    && t.lowlink[v] <= t.indices[v]
    && s.index <= t.indices[v]
    && Bounds(g, s.stack, t.stack[|s.stack|..], t.indices, t.lowlink[v])
    && (if v in t.stack then Named(g, s.stack, t.indices, v, t.lowlink[v])
        else t.stack == s.stack && t.lowlink[v] == t.indices[v])
  }

  function Push(s: State, v: string): State {
    State(s.index + 1, s.stack + [v], s.onStack[v := true], s.indices[v := s.index], s.lowlink[v := s.index], s.sccs)
  }

  lemma PushLinked(g: Graph, stack: seq<string>, indices: map<string, nat>, grey: set<string>, v: string, n: nat)
    requires forall y :: y in stack ==> y in indices && indices[y] < n
    requires Linked(g, stack, indices, grey) && v !in indices
    requires forall x :: x in grey ==> Reaches(g, x, v)
    ensures Linked(g, stack + [v], indices[v := n], grey + {v})
  {
    var open, now := grey + {v}, indices[v := n];
    forall y | y in stack ensures Reaches(g, y, v) {
      assert ReachesOpen(g, indices, grey, y);
      var x :| x in grey && x in indices && indices[x] <= indices[y] && Reaches(g, y, x);
      ReachesTrans(g, y, x, v);
    }
    ReachesSelf(g, v);
    forall y {:trigger ReachesOpen(g, now, open, y)} | y in stack + [v] ensures ReachesOpen(g, now, open, y) {
      if y in stack {
        assert ReachesOpen(g, indices, grey, y);
        var x :| x in grey && x in indices && indices[x] <= indices[y] && Reaches(g, y, x);
        assert x in open;
      } else {
        assert v in open;
      }
    }
  }

  lemma PushInv(g: Graph, s: State, grey: set<string>, v: string)
    requires Inv(g, s, grey) && v !in s.indices
    requires forall x :: x in grey ==> Reaches(g, x, v)
    ensures Inv(g, Push(s, v), grey + {v})
  {
    hide Numbered, Partitioned, Linked, Reaches;
    PushNumbered(s, v);
    PushLinked(g, s.stack, s.indices, grey, v, s.index);
    PushPartitioned(g, s.stack, s.indices.Keys, s.sccs, v);
    assert s.indices[v := s.index].Keys == s.indices.Keys + {v};
  }

  lemma PushNumbered(s: State, v: string)
    requires Numbered(s) && v !in s.indices
    ensures Numbered(Push(s, v))
    ensures forall y :: y in s.stack ==> y in s.indices && s.indices[y] < s.index
  {
  }

  lemma PushPartitioned(g: Graph, stack: seq<string>, visited: set<string>, sccs: seq<seq<string>>, v: string)
    requires Partitioned(g, stack, visited, sccs) && v !in visited
    ensures Partitioned(g, stack + [v], visited + {v}, sccs)
  {
    hide IsComponent, Succ;
  }

  /** low accounts for the imports `done` of v and for everything stacked above v. */
  ghost predicate LowLink(g: Graph, base: seq<string>, stack: seq<string>, indices: map<string, nat>, v: string,
                          done: seq<string>, low: nat)
    requires base + [v] <= stack && v in indices
    requires forall y :: y in stack ==> y in indices
  {
    && low <= indices[v]
    && Named(g, stack, indices, v, low)
    && Bounds(g, base, stack[|base| + 1..], indices, low)
    && (forall w :: w in done && w in base && w in indices ==> low <= indices[w])
  }

  /** The state while the imports of v are scanned: those in `done` have been seen. */
  ghost predicate Scanning(g: Graph, s: State, v: string, grey: set<string>, t: State, done: seq<string>) {
    && Inv(g, t, grey + {v})
    && Extends(s, t)
    && v in t.indices && t.indices[v] == s.index
    && s.stack + [v] <= t.stack
    && (forall w :: w in done ==> w in Succ(g, v) && w in t.indices)
    && LowLink(g, s.stack, t.stack, t.indices, v, done, t.lowlink[v])
  }

  lemma ScanStart(g: Graph, s: State, v: string, grey: set<string>)
    requires Inv(g, s, grey) && v !in s.indices
    requires forall x :: x in grey ==> Reaches(g, x, v)
    ensures Scanning(g, s, v, grey, Push(s, v), [])
  {
    PushInv(g, s, grey, v);
    ReachesSelf(g, v);
    var t := Push(s, v);
    assert v in t.stack;
  }

  function Lower(t: State, v: string, low: nat): State
    requires v in t.lowlink
  {
    if low < t.lowlink[v] then t.(lowlink := t.lowlink[v := low]) else t
  }

  function Min(a: nat, b: nat): nat {
    if a < b then a else b
  }

  lemma LowerInv(g: Graph, t: State, grey: set<string>, v: string, low: nat)
    requires Inv(g, t, grey) && v in t.lowlink
    ensures Inv(g, Lower(t, v, low), grey)
  {
  }

  lemma LowerScanning(g: Graph, s: State, v: string, grey: set<string>, t: State, done: seq<string>, low: nat)
    requires v !in s.indices && Numbered(s)
    requires Inv(g, t, grey + {v}) && Extends(s, t)
    requires v in t.indices && t.indices[v] == s.index && s.stack + [v] <= t.stack
    requires forall w :: w in done ==> w in Succ(g, v) && w in t.indices
    requires LowLink(g, s.stack, t.stack, t.indices, v, done, Min(t.lowlink[v], low))
    ensures Scanning(g, s, v, grey, Lower(t, v, low), done)
  {
    hide Partitioned, Linked, LowLink, Succ;
    LowerInv(g, t, grey + {v}, v, low);
  }

  /** An import already on the stack: its number is taken into the low link. */
  lemma ScanBackEdge(g: Graph, s: State, v: string, grey: set<string>, t: State, done: seq<string>, w: string)
    requires v !in s.indices && Numbered(s)
    requires Scanning(g, s, v, grey, t, done)
    requires w in Succ(g, v) && w in t.stack
    ensures Scanning(g, s, v, grey, Lower(t, v, t.indices[w]), done + [w])
  {
    hide Partitioned, Linked, Succ;
    EdgeReaches(g, v, w);
    var low := Min(t.lowlink[v], t.indices[w]);
    assert LowLink(g, s.stack, t.stack, t.indices, v, done + [w], low);
    LowerScanning(g, s, v, grey, t, done + [w], t.indices[w]);
  }

  /** An import in an emitted component changes nothing. */
  lemma ScanEmitted(g: Graph, s: State, v: string, grey: set<string>, t: State, done: seq<string>, w: string)
    requires Numbered(s)
    requires Scanning(g, s, v, grey, t, done)
    requires w in Succ(g, v) && w in t.indices && w !in t.stack
    ensures Scanning(g, s, v, grey, t, done + [w])
  {
    assert w !in s.stack;
  }

  /** Before the recursive call: every open call reaches the import. */
  lemma GreyReachesImport(g: Graph, grey: set<string>, v: string, w: string)
    requires w in Succ(g, v)
    requires forall x :: x in grey ==> Reaches(g, x, v)
    ensures forall x :: x in grey + {v} ==> Reaches(g, x, w)
  {
    EdgeReaches(g, v, w);
    forall x | x in grey ensures Reaches(g, x, w) {
      ReachesTrans(g, x, v, w);
    }
  }

  /** After the recursive call on the import w took t to u. */
  lemma ScanTreeEdge(g: Graph, s: State, v: string, grey: set<string>, t: State, done: seq<string>, w: string, u: State)
    requires v !in s.indices && Numbered(s)
    requires Scanning(g, s, v, grey, t, done)
    requires w in Succ(g, v) && w !in t.indices
    requires Inv(g, u, grey + {v}) && Extends(t, u) && w in u.indices && Returned(g, t, w, u)
    ensures Scanning(g, s, v, grey, Lower(u, v, u.lowlink[w]), done + [w])
  {
    hide Partitioned, Linked, LowLink, Returned, Succ, Reaches, Bounds, Named;
    TreeEdgeLow(g, s, v, grey, t, done, w, u);
    ExtendsTrans(s, t, u);
    LowerScanning(g, s, v, grey, u, done + [w], u.lowlink[w]);
  }

  lemma ExtendsTrans(s: State, t: State, u: State)
    requires Extends(s, t) && Extends(t, u)
    ensures Extends(s, u)
  {
  }

  lemma TreeEdgeLow(g: Graph, s: State, v: string, grey: set<string>, t: State, done: seq<string>, w: string, u: State)
    requires v !in s.indices && Numbered(s)
    requires Scanning(g, s, v, grey, t, done)
    requires w in Succ(g, v) && w !in t.indices
    requires Inv(g, u, grey + {v}) && Extends(t, u) && w in u.indices && Returned(g, t, w, u)
    ensures s.stack + [v] <= u.stack
    ensures LowLink(g, s.stack, u.stack, u.indices, v, done + [w], Min(u.lowlink[v], u.lowlink[w]))
  {
    hide Partitioned, Linked, Reaches, Bounds, Named, Succ;
    var low := Min(u.lowlink[v], u.lowlink[w]);
    assert w !in s.stack;
    assert Bounds(g, s.stack, u.stack[|s.stack| + 1..], u.indices, low) by {
      TreeEdgeBounds(g, s.stack, v, t, w, u, low);
    }
    assert Named(g, u.stack, u.indices, v, low) by {
      TreeEdgeNamed(g, s.stack, v, t, w, u);
    }
  }

  lemma TreeEdgeBounds(g: Graph, base: seq<string>, v: string, t: State, w: string, u: State, low: nat)
    requires Numbered(t) && Numbered(u) && Extends(t, u) && w in u.indices && v in t.indices
    requires base + [v] <= t.stack
    requires low <= u.lowlink[w] && low <= t.lowlink[v]
    requires Bounds(g, base, t.stack[|base| + 1..], t.indices, t.lowlink[v])
    requires Bounds(g, t.stack, u.stack[|t.stack|..], u.indices, u.lowlink[w])
    ensures Bounds(g, base, u.stack[|base| + 1..], u.indices, low)
  {
    assert u.stack[|base| + 1..] == t.stack[|base| + 1..] + u.stack[|t.stack|..];
    PrefixMembers(base + [v], t.stack);
  }

  lemma TreeEdgeNamed(g: Graph, base: seq<string>, v: string, t: State, w: string, u: State)
    requires Numbered(t) && Numbered(u) && Extends(t, u) && v in t.indices && w in u.indices
    requires w in Succ(g, v)
    requires t.lowlink[v] <= t.indices[v]
    requires Named(g, t.stack, t.indices, v, t.lowlink[v])
    requires Returned(g, t, w, u)
    ensures Named(g, u.stack, u.indices, v, Min(u.lowlink[v], u.lowlink[w]))
  {
    if u.lowlink[w] < u.lowlink[v] {
      assert w in u.stack;
      var y :| y in t.stack && u.indices[y] == u.lowlink[w] && Reaches(g, w, y);
      EdgeReaches(g, v, w);
      ReachesTrans(g, v, w, y);
      assert y in u.stack;
    } else {
      var y :| y in t.stack && t.indices[y] == t.lowlink[v] && Reaches(g, v, y);
      assert y in u.stack;
    }
  }

  /** After the scan, when the low link names an older vertex: v reaches an older open call. */
  lemma OlderOpen(g: Graph, stack: seq<string>, indices: map<string, nat>, grey: set<string>, v: string, low: nat)
    returns (x: string)
    requires forall y :: y in stack ==> y in indices
    requires v in indices
    requires Linked(g, stack, indices, grey + {v})
    requires Named(g, stack, indices, v, low) && low < indices[v]
    ensures x in grey && x in indices && indices[x] <= low && Reaches(g, v, x)
  {
    var y :| y in stack && indices[y] == low && Reaches(g, v, y);
    assert ReachesOpen(g, indices, grey + {v}, y);
    x :| x in grey + {v} && x in indices && indices[x] <= indices[y] && Reaches(g, y, x);
    ReachesTrans(g, v, y, x);
  }

  /** So v need not stay open for the stacked vertices to reach an open call. */
  lemma StayLinked(g: Graph, stack: seq<string>, indices: map<string, nat>, grey: set<string>, v: string, low: nat)
    requires forall y :: y in stack ==> y in indices
    requires v in indices && v !in grey
    requires Linked(g, stack, indices, grey + {v})
    requires forall w :: w in Succ(g, v) ==> w in indices
    requires Named(g, stack, indices, v, low) && low < indices[v]
    ensures Linked(g, stack, indices, grey)
  {
    var x := OlderOpen(g, stack, indices, grey, v, low);
    forall z {:trigger ReachesOpen(g, indices, grey, z)} | z in stack ensures ReachesOpen(g, indices, grey, z) {
      assert ReachesOpen(g, indices, grey + {v}, z);
      ReopenBelow(g, indices, grey, v, x, z);
    }
  }

  lemma ReopenBelow(g: Graph, indices: map<string, nat>, grey: set<string>, v: string, x: string, z: string)
    requires v in indices && z in indices
    requires x in grey && x in indices && indices[x] <= indices[v] && Reaches(g, v, x)
    requires ReachesOpen(g, indices, grey + {v}, z)
    ensures ReachesOpen(g, indices, grey, z)
  {
    var o :| o in grey + {v} && o in indices && indices[o] <= indices[z] && Reaches(g, z, o);
    if o == v {
      ReachesTrans(g, z, v, x);
    }
  }

  lemma Stay(g: Graph, s: State, v: string, grey: set<string>, t: State)
    requires Inv(g, s, grey) && v !in s.indices
    requires Scanning(g, s, v, grey, t, Succ(g, v))
    requires t.lowlink[v] < t.indices[v]
    ensures Inv(g, t, grey) && Returned(g, s, v, t)
  {
    StayLinked(g, t.stack, t.indices, grey, v, t.lowlink[v]);
    StayReturned(g, s.stack, v, t, t.lowlink[v]);
  }

  lemma StayReturned(g: Graph, base: seq<string>, v: string, t: State, low: nat)
    requires Numbered(t) && v in t.indices && base + [v] <= t.stack
    requires forall y :: y in base ==> y in t.indices
    requires LowLink(g, base, t.stack, t.indices, v, Succ(g, v), low) && low < t.indices[v]
    ensures Bounds(g, base, t.stack[|base|..], t.indices, low)
    ensures v in t.stack && Named(g, base, t.indices, v, low)
  {
    assert t.stack[|base|..] == [v] + t.stack[|base| + 1..];
    var y :| y in t.stack && t.indices[y] == low && Reaches(g, v, y);
    var i :| 0 <= i < |t.stack| && t.stack[i] == y;
    assert t.stack[|base|] == v;
    assert i < |base|;
    assert base[i] == y;
  }

  /** The vertices numbered from v on that are still stacked. */
  ghost function Above(stack: seq<string>, indices: map<string, nat>, v: string): set<string>
    requires v in indices
  {
    set y | y in stack && y in indices && indices[v] <= indices[y]
  }

  lemma ReachesRoot(g: Graph, stack: seq<string>, indices: map<string, nat>, grey: set<string>, v: string, y: string)
    requires forall x :: x in stack ==> x in indices
    requires Linked(g, stack, indices, grey + {v})
    requires forall x :: x in grey ==> x in indices && indices[x] <= indices[v]
    requires v in stack && y in Above(stack, indices, v)
    ensures Mutual(g, v, y)
  {
    assert ReachesOpen(g, indices, grey + {v}, y);
    var o :| o in grey + {v} && o in indices && indices[o] <= indices[y] && Reaches(g, y, o);
    assert Reaches(g, o, v);
    ReachesTrans(g, y, o, v);
    assert Reaches(g, v, y);
  }

  /** When the low link is v's own number, nothing above v leads below it. */
  lemma AboveClosed(g: Graph, base: seq<string>, s: State, v: string, grey: set<string>, done: set<string>)
    requires Numbered(s) && v in s.indices && base + [v] <= s.stack
    requires Partitioned(g, s.stack, s.indices.Keys, s.sccs)
    requires Linked(g, s.stack, s.indices, grey + {v})
    requires forall x :: x in grey ==> x in base
    requires forall w :: w in Succ(g, v) ==> w in s.indices
    requires LowLink(g, base, s.stack, s.indices, v, Succ(g, v), s.indices[v])
    requires done == set x | x in s.indices && Emitted(s.sccs, x)
    ensures Closed(g, Above(s.stack, s.indices, v) + done)
  {
    var c := Above(s.stack, s.indices, v);
    PrefixMembers(base + [v], s.stack);
    assert s.stack[|base|] == v;
    forall x, y | x in c + done && y in Succ(g, x) ensures y in c + done {
      if x in c {
        AboveSplit(base, s, v, x);
        assert x !in grey;
        assert y in s.indices;
        if y in s.stack && y !in c {
          AboveSplit(base, s, v, y);
        }
      }
    }
  }

  lemma AboveSplit(base: seq<string>, s: State, v: string, x: string)
    requires Numbered(s) && v in s.indices && base + [v] <= s.stack && x in s.stack
    ensures x in Above(s.stack, s.indices, v) <==> x in s.stack[|base|..]
    ensures x in base <==> x !in Above(s.stack, s.indices, v)
    ensures x in Above(s.stack, s.indices, v) ==> x == v || x in s.stack[|base| + 1..]
  {
    var i :| 0 <= i < |s.stack| && s.stack[i] == x;
    assert s.stack[|base|] == v;
    if i < |base| {
      assert x == base[i];
    } else {
      assert x == s.stack[|base|..][i - |base|];
      forall j | 0 <= j < |base| ensures base[j] != x {
        assert s.stack[j] == base[j];
      }
      if i > |base| {
        assert x == s.stack[|base| + 1..][i - |base| - 1];
      }
    }
  }

  lemma AboveTail(base: seq<string>, s: State, v: string)
    requires Numbered(s) && v in s.indices && base + [v] <= s.stack
    ensures forall x :: x in s.stack[|base|..] <==> x in Above(s.stack, s.indices, v)
  {
    PrefixMembers(base + [v], s.stack);
    forall x | x in s.stack ensures x in s.stack[|base|..] <==> x in Above(s.stack, s.indices, v) {
      AboveSplit(base, s, v, x);
    }
  }

  lemma AboveMaximal(g: Graph, c: set<string>, done: set<string>, v: string, z: string)
    requires Closed(g, c + done) && Closed(g, done)
    requires v in c && v !in done
    requires Mutual(g, v, z)
    ensures z in c
  {
    ClosedReaches(g, c + done, v, z);
    if z in done {
      ClosedReaches(g, done, z, v);
    }
  }

  lemma RootMutual(g: Graph, v: string, c: set<string>, done: set<string>)
    requires Closed(g, c + done) && Closed(g, done) && v in c && v !in done
    requires forall x :: x in c ==> Mutual(g, v, x)
    ensures forall x, y {:trigger Reaches(g, x, y)} :: x in c && y in c ==> Reaches(g, x, y)
    ensures forall x, z {:trigger Mutual(g, x, z)} :: x in c && Mutual(g, x, z) ==> z in c
  {
    forall x, y {:trigger Reaches(g, x, y)} | x in c && y in c ensures Reaches(g, x, y) {
      assert Mutual(g, v, x) && Mutual(g, v, y);
      ReachesTrans(g, x, v, y);
    }
    forall x, z {:trigger Mutual(g, x, z)} | x in c && Mutual(g, x, z) ensures z in c {
      assert Mutual(g, v, x);
      ReachesTrans(g, v, x, z);
      ReachesTrans(g, z, x, v);
      AboveMaximal(g, c, done, v, z);
    }
  }

  /** v and everything above it is a component. */
  lemma AboveIsComponent(g: Graph, base: seq<string>, s: State, v: string, grey: set<string>, c: seq<string>)
    requires Numbered(s) && v in s.indices && base + [v] <= s.stack
    requires Partitioned(g, s.stack, s.indices.Keys, s.sccs)
    requires Linked(g, s.stack, s.indices, grey + {v})
    requires forall x :: x in grey ==> x in base
    requires forall w :: w in Succ(g, v) ==> w in s.indices
    requires LowLink(g, base, s.stack, s.indices, v, Succ(g, v), s.indices[v])
    requires Distinct(c) && forall x :: x in c <==> x in Above(s.stack, s.indices, v)
    ensures IsComponent(g, c)
    ensures forall x, y :: x in c && y in Succ(g, x) ==> y in c || Emitted(s.sccs, y)
  {
    var done := set x | x in s.indices && Emitted(s.sccs, x);
    var above := Above(s.stack, s.indices, v);
    PrefixMembers(base + [v], s.stack);
    assert s.stack[|base|] == v;
    AboveClosed(g, base, s, v, grey, done);
    assert forall x :: x in grey ==> s.indices[x] <= s.indices[v] by {
      forall x | x in grey ensures s.indices[x] <= s.indices[v] {
        AboveSplit(base, s, v, x);
      }
    }
    forall x | x in above ensures Mutual(g, v, x) {
      ReachesRoot(g, s.stack, s.indices, grey, v, x);
    }
    assert Closed(g, done);
    RootMutual(g, v, above, done);
  }

  /** The state after the pop loop emitted c and left `base` on the stack. */
  ghost predicate Popped(base: seq<string>, t: State, v: string, c: seq<string>, u: State)
    requires v in t.indices
  {
    && u.index == t.index && u.indices == t.indices && u.lowlink == t.lowlink
    && u.stack == base
    && u.sccs == t.sccs + [c]
    && Distinct(c)
    && (forall x :: x in c <==> x in Above(t.stack, t.indices, v))
    && (forall x :: x in base <==> x in u.onStack && u.onStack[x])
  }

  lemma EmitPartitioned(g: Graph, stack: seq<string>, base: seq<string>, visited: set<string>, sccs: seq<seq<string>>,
                        c: seq<string>)
    requires Partitioned(g, stack, visited, sccs)
    requires IsComponent(g, c)
    requires forall x, y :: x in c && y in Succ(g, x) ==> y in c || Emitted(sccs, y)
    requires forall x :: x in base || x in c <==> x in stack
    requires forall x :: x in c ==> x !in base && x in visited
    ensures Partitioned(g, base, visited, sccs + [c])
  {
    EmittedSnoc(sccs, c);
    forall k, x | 0 <= k < |sccs| && x in sccs[k] ensures x !in c {
      assert Emitted(sccs, x);
    }
  }

  lemma AbovePartition(base: seq<string>, t: State, v: string, c: seq<string>)
    requires Numbered(t) && v in t.indices && base + [v] <= t.stack
    requires forall x :: x in c <==> x in Above(t.stack, t.indices, v)
    ensures forall x :: x in base || x in c <==> x in t.stack
    ensures forall x :: x in c ==> x !in base && x in t.indices
  {
    PrefixMembers(base + [v], t.stack);
    forall x | x in t.stack ensures x in base <==> x !in c {
      AboveSplit(base, t, v, x);
    }
  }

  lemma EmittedSnoc(sccs: seq<seq<string>>, c: seq<string>)
    ensures forall x :: Emitted(sccs + [c], x) <==> Emitted(sccs, x) || x in c
  {
    var all := sccs + [c];
    forall x ensures Emitted(all, x) <==> Emitted(sccs, x) || x in c {
      if Emitted(sccs, x) {
        var k :| 0 <= k < |sccs| && x in sccs[k];
        assert x in all[k];
      }
      if x in c {
        assert x in all[|sccs|];
      }
    }
  }

  lemma EmitLinked(g: Graph, s: State, v: string, grey: set<string>, t: State)
    requires Numbered(s) && Linked(g, s.stack, s.indices, grey)
    requires Extends(s, t) && Numbered(t)
    requires Linked(g, t.stack, t.indices, grey + {v})
    requires forall w :: w in Succ(g, v) ==> w in t.indices
    ensures Linked(g, s.stack, t.indices, grey)
  {
    PrefixMembers(s.stack, t.stack);
    forall y {:trigger ReachesOpen(g, t.indices, grey, y)} | y in s.stack ensures ReachesOpen(g, t.indices, grey, y) {
      assert ReachesOpen(g, s.indices, grey, y);
    }
  }

  lemma Emit(g: Graph, s: State, v: string, grey: set<string>, t: State, c: seq<string>, u: State)
    requires Inv(g, s, grey) && v !in s.indices
    requires Scanning(g, s, v, grey, t, Succ(g, v))
    requires t.lowlink[v] == t.indices[v]
    requires Popped(s.stack, t, v, c, u)
    ensures Extends(s, u) && Inv(g, u, grey) && Returned(g, s, v, u)
  {
    assert IsComponent(g, c) && forall x, y :: x in c && y in Succ(g, x) ==> y in c || Emitted(t.sccs, y) by {
      AboveIsComponent(g, s.stack, t, v, grey, c);
    }
    assert Partitioned(g, u.stack, u.indices.Keys, u.sccs) by {
      AbovePartition(s.stack, t, v, c);
      EmitPartitioned(g, t.stack, s.stack, t.indices.Keys, t.sccs, c);
    }
    assert Linked(g, s.stack, t.indices, grey) by {
      EmitLinked(g, s, v, grey, t);
    }
    EmitNumbered(s, v, t, c, u);
  }

  lemma EmitNumbered(s: State, v: string, t: State, c: seq<string>, u: State)
    requires Numbered(s) && Numbered(t) && Extends(s, t)
    requires v !in s.indices && v in t.indices
    requires Popped(s.stack, t, v, c, u)
    ensures Numbered(u) && Extends(s, u) && v !in u.stack
  {
    PrefixMembers(s.stack, t.stack);
  }
}
