/** Planning and applying changes: internal/plan/plan.go and internal/apply/apply.go. */
module PlanApply {
  import opened Wrappers
  import opened StateFile
  import opened StateCache
  import Strings

  datatype Resource = Resource(fqn: string, hash: string)

  datatype ActionKind = Create | Update | Delete | Noop

  datatype Action = Action(fqn: string, kind: ActionKind, resource: Option<Resource>)

  // ---- The plan ----

  /** FQN to resource; of resources with one FQN the last stays. */
  function ResourceMap(desired: seq<Resource>): map<string, Resource> {
    if desired == [] then map[]
    else ResourceMap(desired[..|desired| - 1])[desired[|desired| - 1].fqn := desired[|desired| - 1]]
  }

  function KindFor(r: Resource, current: map<string, Entry>): ActionKind {
    if r.fqn !in current then Create
    else if current[r.fqn].hash != r.hash || current[r.fqn].status == Failed then Update
    else Noop
  }

  function DesiredActions(desired: seq<Resource>, current: map<string, Entry>): seq<Action> {
    if desired == [] then [] else
      var r := desired[|desired| - 1];
      DesiredActions(desired[..|desired| - 1], current) + [Action(r.fqn, KindFor(r, current), Some(r))]
  }

  function Deletions(current: seq<Entry>, desired: map<string, Resource>): seq<Action> {
    if current == [] then [] else
      var e := current[|current| - 1];
      Deletions(current[..|current| - 1], desired) + (if e.fqn in desired then [] else [Action(e.fqn, Delete, None)])
  }

  /** The actions of a plan, before they are sorted. */
  function Actions(desired: seq<Resource>, current: seq<Entry>): seq<Action> {
    DesiredActions(desired, IndexOf(current)) + Deletions(current, ResourceMap(desired))
  }

  predicate ActionBefore(x: Action, y: Action) {
    Strings.Less(x.fqn, y.fqn)
  }

  lemma ActionWeakOrder()
    ensures Strings.WeakOrder(ActionBefore)
  {
    hide Strings.Less;
    Strings.LessWeakOrder();
    forall x: Action, y: Action, z: Action | ActionBefore(x, z) ensures ActionBefore(x, y) || ActionBefore(y, z) {
      assert Strings.Less(x.fqn, z.fqn) ==> Strings.Less(x.fqn, y.fqn) || Strings.Less(y.fqn, z.fqn);
    }
    forall x: Action, y: Action, z: Action | ActionBefore(x, y) && ActionBefore(y, z) ensures ActionBefore(x, z) {
      assert Strings.Less(x.fqn, y.fqn) && Strings.Less(y.fqn, z.fqn);
    }
  }

  // ---- What a plan means ----

  ghost predicate DistinctResources(desired: seq<Resource>) {
    forall i, j :: 0 <= i < j < |desired| ==> desired[i].fqn != desired[j].fqn
  }

  ghost predicate DistinctActions(actions: seq<Action>) {
    forall i, j :: 0 <= i < j < |actions| ==> actions[i].fqn != actions[j].fqn
  }

  /** Resources that state and specification disagree on, and entries that nothing asks for. */
  ghost function Outstanding(desired: map<string, Resource>, current: map<string, Entry>): set<string> {
    (set q | q in desired && KindFor(desired[q], current) != Noop :: q) + (set q | q in current && q !in desired :: q)
  }

  ghost function Changing(actions: seq<Action>): set<string> {
    set a | a in actions && a.kind != Noop :: a.fqn
  }

  lemma {:induction false} ResourceMapIs(desired: seq<Resource>)
    requires DistinctResources(desired)
    ensures forall r :: r in desired ==> r.fqn in ResourceMap(desired) && ResourceMap(desired)[r.fqn] == r
    ensures forall q :: q in ResourceMap(desired) ==>
            ResourceMap(desired)[q] in desired && ResourceMap(desired)[q].fqn == q
  {
    if desired != [] {
      var n := |desired| - 1;
      ResourceMapIs(desired[..n]);
      forall r | r in desired ensures r.fqn in ResourceMap(desired) && ResourceMap(desired)[r.fqn] == r {
        var i :| 0 <= i < |desired| && desired[i] == r;
        assert i < n ==> r in desired[..n];
      }
    }
  }

  lemma {:induction false} IndexKeys(entries: seq<Entry>)
    ensures forall q :: q in IndexOf(entries) <==> exists i :: 0 <= i < |entries| && entries[i].fqn == q
    ensures forall q :: q in IndexOf(entries) ==> IndexOf(entries)[q] in entries && IndexOf(entries)[q].fqn == q
  {
    if entries != [] {
      var n := |entries| - 1;
      IndexKeys(entries[..n]);
      forall q | q in IndexOf(entries) ensures exists i :: 0 <= i < |entries| && entries[i].fqn == q {
        if q == entries[n].fqn {
          assert entries[n].fqn == q;
        } else {
          assert q in IndexOf(entries[..n]);
          var i :| 0 <= i < |entries[..n]| && entries[..n][i].fqn == q;
          assert entries[i].fqn == q;
        }
      }
      forall i | 0 <= i < |entries| ensures entries[i].fqn in IndexOf(entries) {
        assert i < n ==> entries[..n][i].fqn == entries[i].fqn;
      }
    }
  }

  lemma {:induction false} DesiredActionsAre(desired: seq<Resource>, current: map<string, Entry>)
    ensures |DesiredActions(desired, current)| == |desired|
    ensures forall i :: 0 <= i < |desired| ==>
              DesiredActions(desired, current)[i] ==
              Action(desired[i].fqn, KindFor(desired[i], current), Some(desired[i]))
  {
    hide KindFor;
    if desired != [] {
      DesiredActionsAre(desired[..|desired| - 1], current);
    }
  }

  lemma {:induction false} DeletionsAre(current: seq<Entry>, desired: map<string, Resource>)
    ensures forall a :: a in Deletions(current, desired) ==>
              && a.kind == Delete && a.resource == None && a.fqn !in desired
              && exists i :: 0 <= i < |current| && current[i].fqn == a.fqn
    ensures forall i :: 0 <= i < |current| && current[i].fqn !in desired ==>
              Action(current[i].fqn, Delete, None) in Deletions(current, desired)
  {
    if current != [] {
      var n := |current| - 1;
      DeletionsAre(current[..n], desired);
      forall a | a in Deletions(current, desired)
        ensures a.kind == Delete && a.resource == None && a.fqn !in desired
        ensures exists i :: 0 <= i < |current| && current[i].fqn == a.fqn
      {
        if a in Deletions(current[..n], desired) {
          var i :| 0 <= i < |current[..n]| && current[..n][i].fqn == a.fqn;
          assert current[i].fqn == a.fqn;
        } else {
          assert a.fqn == current[n].fqn;
        }
      }
      forall i | 0 <= i < |current| && current[i].fqn !in desired
        ensures Action(current[i].fqn, Delete, None) in Deletions(current, desired)
      {
        assert i < n ==> current[..n][i] == current[i];
      }
    }
  }

  lemma {:induction false} DeletionsDistinct(current: seq<Entry>, desired: map<string, Resource>)
    requires DistinctFQNs(current)
    ensures DistinctActions(Deletions(current, desired))
  {
    if current != [] {
      var n := |current| - 1;
      DeletionsDistinct(current[..n], desired);
      DeletionsAre(current[..n], desired);
      forall a | a in Deletions(current[..n], desired) ensures a.fqn != current[n].fqn {
        var i :| 0 <= i < |current[..n]| && current[..n][i].fqn == a.fqn;
        assert current[i].fqn != current[n].fqn;
      }
    }
  }

  /** A plan changes exactly what is outstanding. */
  lemma PlanIsOutstanding(desired: seq<Resource>, current: seq<Entry>)
    requires DistinctResources(desired)
    ensures Changing(Actions(desired, current)) == Outstanding(ResourceMap(desired), IndexOf(current))
  {
    hide KindFor, DesiredActions, Deletions, IndexOf, ResourceMap;
    var dm, cm := ResourceMap(desired), IndexOf(current);
    var da, xa := DesiredActions(desired, cm), Deletions(current, dm);
    ResourceMapIs(desired);
    IndexKeys(current);
    DesiredActionsAre(desired, cm);
    DeletionsAre(current, dm);
    var actions := Actions(desired, current);
    forall q | q in Changing(actions) ensures q in Outstanding(dm, cm) {
      var a :| a in actions && a.kind != Noop && a.fqn == q;
      if a in da {
        var i :| 0 <= i < |da| && da[i] == a;
        assert desired[i] in desired;
      } else {
        assert a in xa;
      }
    }
    forall q | q in Outstanding(dm, cm) ensures q in Changing(actions) {
      if q in dm {
        var i :| 0 <= i < |desired| && desired[i] == dm[q];
        assert da[i] in actions && da[i].kind != Noop && da[i].fqn == q;
      } else {
        var i :| 0 <= i < |current| && current[i].fqn == q;
        assert Action(q, Delete, None) in actions;
      }
    }
  }

  lemma ActionsDistinct(desired: seq<Resource>, current: seq<Entry>)
    requires DistinctResources(desired) && DistinctFQNs(current)
    ensures DistinctActions(Actions(desired, current))
  {
    hide KindFor, DesiredActions, Deletions, IndexOf, ResourceMap;
    var dm, cm := ResourceMap(desired), IndexOf(current);
    var da, xa := DesiredActions(desired, cm), Deletions(current, dm);
    ResourceMapIs(desired);
    DesiredActionsAre(desired, cm);
    DeletionsAre(current, dm);
    DeletionsDistinct(current, dm);
    var actions := Actions(desired, current);
    forall i, j | 0 <= i < j < |actions| ensures actions[i].fqn != actions[j].fqn {
      if j < |da| {
        assert actions[i] == da[i] && actions[j] == da[j];
      } else {
        assert actions[j] == xa[j - |da|] && xa[j - |da|] in xa;
        if i < |da| {
          assert actions[i] == da[i] && desired[i] in desired;
        } else {
          assert actions[i] == xa[i - |da|];
        }
      }
    }
  }

  // ---- What each action of a plan says of the resources and entries given ----

  ghost predicate IsDesired(desired: seq<Resource>, q: string) {
    exists i :: 0 <= i < |desired| && desired[i].fqn == q
  }

  ghost predicate HasEntry(current: seq<Entry>, q: string) {
    exists i :: 0 <= i < |current| && current[i].fqn == q
  }

  /** The i-th entry is the last one for q. */
  ghost predicate IsLast(current: seq<Entry>, q: string, i: int) {
    0 <= i < |current| && current[i].fqn == q && forall j :: i < j < |current| ==> current[j].fqn != q
  }

  /** What is on record for q, its last entry, is r and did not fail. */
  ghost predicate UpToDate(current: seq<Entry>, r: Resource) {
    exists i :: IsLast(current, r.fqn, i) && current[i].hash == r.hash && current[i].status != Failed
  }

  /** An action creates what has no entry, updates what has one that is of another version or failed, leaves alone what
      has one that is up to date, and deletes what nothing desires; and it carries the resource desired. */
  ghost predicate Sensible(desired: seq<Resource>, current: seq<Entry>, a: Action) {
    && (a.kind == Delete <==> !IsDesired(desired, a.fqn))
    && (a.kind == Delete ==> HasEntry(current, a.fqn) && a.resource == None)
    && (a.kind != Delete ==> a.resource.Some? && a.resource.value in desired && a.resource.value.fqn == a.fqn)
    && (a.kind == Create <==> IsDesired(desired, a.fqn) && !HasEntry(current, a.fqn))
    && (a.kind == Noop <==> a.resource.Some? && UpToDate(current, a.resource.value))
    && (a.kind == Update <==> a.resource.Some? && HasEntry(current, a.fqn) && !UpToDate(current, a.resource.value))
  }

  /** Every resource desired and every entry that nothing desires has its action. */
  ghost predicate Complete(desired: seq<Resource>, current: seq<Entry>, actions: seq<Action>) {
    && (forall i :: 0 <= i < |desired| ==> IsPlanned(desired[i], actions))
    && (forall i :: 0 <= i < |current| && !IsDesired(desired, current[i].fqn) ==> IsDeleted(current[i].fqn, actions))
  }

  ghost predicate IsPlanned(r: Resource, actions: seq<Action>) {
    exists a :: a in actions && a.fqn == r.fqn && a.resource == Some(r)
  }

  ghost predicate IsDeleted(q: string, actions: seq<Action>) {
    exists a :: a in actions && a.fqn == q && a.kind == Delete
  }

  lemma {:induction false} IndexIsLast(entries: seq<Entry>, q: string)
    ensures q in IndexOf(entries) <==> HasEntry(entries, q)
    ensures q in IndexOf(entries) ==> exists i :: IsLast(entries, q, i) && entries[i] == IndexOf(entries)[q]
    ensures forall i :: IsLast(entries, q, i) ==> q in IndexOf(entries) && entries[i] == IndexOf(entries)[q]
  {
    if entries != [] {
      hide IsLast, HasEntry;
      var n := |entries| - 1;
      var front, e := entries[..n], entries[n];
      IndexIsLast(front, q);
      assert entries == front + [e];
      HasMore(front, e, q);
      forall i ensures IsLast(entries, q, i) <==> if e.fqn == q then i == n else IsLast(front, q, i) {
        LastMore(front, e, q, i);
      }
      forall i | IsLast(front, q, i) ensures 0 <= i < n && entries[i] == front[i] {
        LastWithin(front, q, i);
      }
      assert e.fqn == q ==> IsLast(entries, q, n);
    }
  }

  lemma HasMore(front: seq<Entry>, e: Entry, q: string)
    ensures HasEntry(front + [e], q) <==> HasEntry(front, q) || e.fqn == q
  {
    var all := front + [e];
    assert all[|front|] == e;
    if i :| 0 <= i < |front| && front[i].fqn == q {
      assert all[i].fqn == q;
    }
  }

  lemma LastMore(front: seq<Entry>, e: Entry, q: string, i: int)
    ensures IsLast(front + [e], q, i) <==> if e.fqn == q then i == |front| else IsLast(front, q, i)
  {
    var all := front + [e];
    assert all[|front|] == e;
    assert forall j :: 0 <= j < |front| ==> all[j] == front[j];
  }

  lemma LastWithin(entries: seq<Entry>, q: string, i: int)
    requires IsLast(entries, q, i)
    ensures 0 <= i < |entries|
  {
  }

  lemma {:induction false} ResourcesNamed(desired: seq<Resource>, q: string)
    ensures q in ResourceMap(desired) <==> IsDesired(desired, q)
  {
    if desired != [] {
      var n := |desired| - 1;
      ResourcesNamed(desired[..n], q);
      assert forall i :: 0 <= i < n ==> desired[..n][i] == desired[i];
      assert desired[n].fqn == q ==> IsDesired(desired, q);
    }
  }

  lemma KindMeans(r: Resource, current: seq<Entry>)
    ensures var k := KindFor(r, IndexOf(current));
            && k != Delete && (k == Create <==> !HasEntry(current, r.fqn)) && (k == Noop <==> UpToDate(current, r))
            && (k == Update <==> HasEntry(current, r.fqn) && !UpToDate(current, r))
  {
    hide IndexOf;
    IndexIsLast(current, r.fqn);
  }

  lemma ActionsMean(desired: seq<Resource>, current: seq<Entry>)
    ensures forall a :: a in Actions(desired, current) ==> Sensible(desired, current, a)
    ensures Complete(desired, current, Actions(desired, current))
  {
    hide KindFor, DesiredActions, Deletions, IndexOf, ResourceMap, HasEntry, UpToDate;
    var dm, cm := ResourceMap(desired), IndexOf(current);
    var da, xa := DesiredActions(desired, cm), Deletions(current, dm);
    DesiredActionsAre(desired, cm);
    DeletionsAre(current, dm);
    forall q ensures q in dm <==> IsDesired(desired, q) {
      ResourcesNamed(desired, q);
    }
    forall a | a in Actions(desired, current) ensures Sensible(desired, current, a) {
      if a in da {
        var i :| 0 <= i < |da| && da[i] == a;
        KindMeans(desired[i], current);
        assert desired[i].fqn == a.fqn;
      } else {
        assert a in xa;
        EntryOf(current, a.fqn);
      }
    }
    forall i | 0 <= i < |desired| ensures IsPlanned(desired[i], Actions(desired, current)) {
      assert da[i] in Actions(desired, current);
    }
    forall i | 0 <= i < |current| && !IsDesired(desired, current[i].fqn)
      ensures IsDeleted(current[i].fqn, Actions(desired, current))
    {
      assert Action(current[i].fqn, Delete, None) in Actions(desired, current);
    }
  }

  lemma EntryOf(current: seq<Entry>, q: string)
    requires exists i :: 0 <= i < |current| && current[i].fqn == q
    ensures HasEntry(current, q)
  {
  }

  lemma PlanMeans(desired: seq<Resource>, current: seq<Entry>, actions: seq<Action>)
    requires IsPlan(desired, current, actions)
    ensures forall a :: a in actions ==> Sensible(desired, current, a)
    ensures Complete(desired, current, actions) && |actions| == |Actions(desired, current)|
  {
    hide Actions, Sensible, IsDesired;
    var all := Actions(desired, current);
    ActionsMean(desired, current);
    Strings.PermutedMembers(actions, all);
    forall r | IsPlanned(r, all) ensures IsPlanned(r, actions) {
      var a :| a in all && a.fqn == r.fqn && a.resource == Some(r);
      assert a in actions;
    }
    forall q | IsDeleted(q, all) ensures IsDeleted(q, actions) {
      var a :| a in all && a.fqn == q && a.kind == Delete;
      assert a in actions;
    }
  }

  // ---- Recording what the adapter did ----

  datatype Outcome = Outcome(fqn: string, kind: ActionKind, ok: bool, error: string)

  function ToApply(actions: seq<Action>): seq<Action> {
    if actions == [] then [] else
      var a := actions[|actions| - 1];
      ToApply(actions[..|actions| - 1]) + (if a.kind == Noop then [] else [a])
  }

  function HashAt(toApply: seq<Action>, i: nat): string {
    if i < |toApply| && toApply[i].resource.Some? then toApply[i].resource.value.hash else ""
  }

  function Record(state: map<string, Entry>, r: Outcome, hash: string): map<string, Entry> {
    if !r.ok then state[r.fqn := Entry(r.fqn, "", Failed, r.error)]
    else if r.kind == Delete then state - {r.fqn}
    else state[r.fqn := Entry(r.fqn, hash, Applied, "")]
  }

  function RecordAll(state: map<string, Entry>, results: seq<Outcome>, toApply: seq<Action>): map<string, Entry> {
    if results == [] then state else
      var n := |results| - 1;
      Record(RecordAll(state, results[..n], toApply), results[n], HashAt(toApply, n))
  }

  /** One result per action, in order. */
  ghost predicate Answers(toApply: seq<Action>, results: seq<Outcome>) {
    && |results| == |toApply|
    && forall i :: 0 <= i < |results| ==> results[i].fqn == toApply[i].fqn && results[i].kind == toApply[i].kind
  }

  ghost function FailedOnes(results: seq<Outcome>): set<string> {
    set r | r in results && !r.ok :: r.fqn
  }

  /** The entries of a state map, in whatever order. */
  ghost predicate Lists(entries: seq<Entry>, state: map<string, Entry>) {
    && DistinctFQNs(entries)
    && (forall i :: 0 <= i < |entries| ==> entries[i].fqn in state && state[entries[i].fqn] == entries[i])
    && (forall q :: q in state ==> state[q] in entries)
  }

  lemma {:induction false} ToApplyAre(actions: seq<Action>)
    requires DistinctActions(actions)
    ensures DistinctActions(ToApply(actions))
    ensures forall a :: a in ToApply(actions) <==> a in actions && a.kind != Noop
  {
    if actions != [] {
      var n := |actions| - 1;
      ToApplyAre(actions[..n]);
      assert actions == actions[..n] + [actions[n]];
      forall a | a in ToApply(actions[..n]) ensures a.fqn != actions[n].fqn {
        var i :| 0 <= i < |actions[..n]| && actions[..n][i] == a;
        assert actions[i] == a;
      }
    }
  }

  /** Each name with a result is as its one result says, every other as before. */
  lemma {:induction false} RecordAllAt(state: map<string, Entry>, results: seq<Outcome>, toApply: seq<Action>,
                                       q: string)
    requires forall i, j :: 0 <= i < j < |results| ==> results[i].fqn != results[j].fqn
    ensures var m := RecordAll(state, results, toApply);
            (forall i :: 0 <= i < |results| && results[i].fqn == q ==>
               var one := Record(map[], results[i], HashAt(toApply, i));
               (q in m <==> q in one) && (q in m && q in one ==> m[q] == one[q]))
    ensures var m := RecordAll(state, results, toApply);
            (forall i :: 0 <= i < |results| ==> results[i].fqn != q) ==>
              (q in m <==> q in state) && (q in m && q in state ==> m[q] == state[q])
  {
    hide HashAt;
    if results != [] {
      var n := |results| - 1;
      RecordAllAt(state, results[..n], toApply, q);
      assert forall i :: 0 <= i < n ==> results[..n][i] == results[i];
    }
  }

  ghost predicate Named(state: map<string, Entry>) {
    forall q :: q in state ==> state[q].fqn == q
  }

  lemma {:induction false} RecordKeepsNames(state: map<string, Entry>, results: seq<Outcome>, toApply: seq<Action>)
    requires Named(state)
    ensures Named(RecordAll(state, results, toApply))
  {
    hide HashAt;
    if results != [] {
      var n := |results| - 1;
      RecordKeepsNames(state, results[..n], toApply);
      RecordNamed(RecordAll(state, results[..n], toApply), results[n], HashAt(toApply, n));
    }
  }

  lemma RecordNamed(state: map<string, Entry>, r: Outcome, hash: string)
    requires Named(state)
    ensures Named(Record(state, r, hash))
  {
    if r.ok && r.kind == Delete {
      var m := state - {r.fqn};
      assert forall q :: q in m ==> q in state && m[q] == state[q];
    }
  }

  lemma ListsIndex(entries: seq<Entry>, state: map<string, Entry>)
    requires Lists(entries, state) && Named(state)
    ensures IndexOf(entries) == state
  {
    hide IndexOf;
    IndexKeys(entries);
    forall q | q in state ensures q in IndexOf(entries) && IndexOf(entries)[q] == state[q] {
      var i :| 0 <= i < |entries| && entries[i] == state[q];
      assert entries[i].fqn == q;
      var e := IndexOf(entries)[q];
      var j :| 0 <= j < |entries| && entries[j] == e;
    }
    forall q | q in IndexOf(entries) ensures q in state {
      var j :| 0 <= j < |entries| && entries[j].fqn == q;
    }
  }

  /** Outstanding after recording: exactly the failed. */
  lemma RecordedOutstanding(dm: map<string, Resource>, state: map<string, Entry>, toApply: seq<Action>,
                            results: seq<Outcome>)
    requires DistinctActions(toApply) && Answers(toApply, results)
    requires forall q :: q in dm ==> dm[q].fqn == q
    requires forall q :: q in Outstanding(dm, state) <==> exists i :: 0 <= i < |toApply| && toApply[i].fqn == q
    requires forall i :: 0 <= i < |toApply| ==>
               var q := toApply[i].fqn;
               if q in dm then toApply[i].kind in {Create, Update} && toApply[i].resource == Some(dm[q])
               else toApply[i].kind == Delete
    ensures Outstanding(dm, RecordAll(state, results, toApply)) == FailedOnes(results)
  {
    hide RecordAll, HashAt, Outstanding;
    var m := RecordAll(state, results, toApply);
    forall q ensures q in Outstanding(dm, m) <==> q in FailedOnes(results) {
      RecordAllAt(state, results, toApply, q);
      if i :| 0 <= i < |results| && results[i].fqn == q {
        OneRecorded(dm, state, toApply, results, i, m);
      } else {
        NotRecorded(dm, state, m, q);
        forall r | r in results ensures r.fqn != q {
          var j :| 0 <= j < |results| && results[j] == r;
        }
      }
    }
  }

  lemma NotRecorded(dm: map<string, Resource>, state: map<string, Entry>, m: map<string, Entry>, q: string)
    requires q !in Outstanding(dm, state) && (q in dm ==> dm[q].fqn == q)
    requires (q in m <==> q in state) && (q in m && q in state ==> m[q] == state[q])
    ensures q !in Outstanding(dm, m)
  {
  }

  lemma OneRecorded(dm: map<string, Resource>, state: map<string, Entry>, toApply: seq<Action>, results: seq<Outcome>,
                    i: nat, m: map<string, Entry>)
    requires Answers(toApply, results) && DistinctActions(toApply) && i < |results|
    requires var q := results[i].fqn;
             && (q in dm ==> dm[q].fqn == q)
             && (if q in dm then toApply[i].kind in {Create, Update} && toApply[i].resource == Some(dm[q])
                 else toApply[i].kind == Delete)
    requires var q, one := results[i].fqn, Record(map[], results[i], HashAt(toApply, i));
             (q in m <==> q in one) && (q in m && q in one ==> m[q] == one[q])
    ensures results[i].fqn in Outstanding(dm, m) <==> results[i].fqn in FailedOnes(results)
  {
    var q := results[i].fqn;
    assert q in FailedOnes(results) <==> !results[i].ok by {
      if r :| r in results && !r.ok && r.fqn == q {
        var j :| 0 <= j < |results| && results[j] == r;
        assert toApply[j].fqn == toApply[i].fqn;
        assert i == j;
      }
      assert results[i] in results;
    }
  }

  // ---- Sorting keeps the plan ----

  lemma PermutedDistinct(a: seq<Action>, b: seq<Action>)
    requires DistinctActions(a) && multiset(a) == multiset(b)
    ensures DistinctActions(b) && forall x :: x in a <==> x in b
  {
    Strings.PermutedUnique(a, b);
    forall i, j | 0 <= i < j < |b| ensures b[i].fqn != b[j].fqn {
      var p :| 0 <= p < |a| && a[p] == b[i];
      var q :| 0 <= q < |a| && a[q] == b[j];
      assert b[i] != b[j];
    }
  }

  // ---- One round ----

  /** actions is the plan for desired and current, in some order. */
  ghost predicate IsPlan(desired: seq<Resource>, current: seq<Entry>, actions: seq<Action>) {
    multiset(actions) == multiset(Actions(desired, current))
  }

  lemma PlannedActions(desired: seq<Resource>, current: seq<Entry>, actions: seq<Action>)
    requires DistinctResources(desired) && DistinctFQNs(current) && IsPlan(desired, current, actions)
    ensures DistinctActions(actions)
    ensures Changing(actions) == Outstanding(ResourceMap(desired), IndexOf(current))
    ensures forall a :: a in actions ==> a in Actions(desired, current)
  {
    hide Actions, Outstanding;
    ActionsDistinct(desired, current);
    PermutedDistinct(Actions(desired, current), actions);
    PlanIsOutstanding(desired, current);
  }

  lemma ActionShape(desired: seq<Resource>, current: seq<Entry>, a: Action)
    requires DistinctResources(desired) && a in Actions(desired, current) && a.kind != Noop
    ensures var dm := ResourceMap(desired);
            if a.fqn in dm then a.kind in {Create, Update} && a.resource == Some(dm[a.fqn]) else a.kind == Delete
  {
    hide DesiredActions, Deletions, IndexOf, ResourceMap;
    var dm, cm := ResourceMap(desired), IndexOf(current);
    ResourceMapIs(desired);
    DesiredActionsAre(desired, cm);
    DeletionsAre(current, dm);
    if a in DesiredActions(desired, cm) {
      var i :| 0 <= i < |desired| && DesiredActions(desired, cm)[i] == a;
      assert desired[i] in desired;
    }
  }

  /** After an apply with one result per action, the next plan has to change exactly what failed, in whatever order
      the plan was carried out and the state was saved. */
  lemma ApplyThenPlan(desired: seq<Resource>, current: seq<Entry>, actions: seq<Action>, results: seq<Outcome>,
                      saved: seq<Entry>)
    requires DistinctResources(desired) && DistinctFQNs(current) && IsPlan(desired, current, actions)
    requires Answers(ToApply(actions), results)
    requires Lists(saved, RecordAll(IndexOf(current), results, ToApply(actions)))
    ensures Changing(Actions(desired, saved)) == FailedOnes(results)
    ensures FailedOnes(results) <= Changing(Actions(desired, current))
    ensures DistinctFQNs(saved)
  {
    hide IndexOf, ResourceMap, Actions, RecordAll, Outstanding;
    var dm, cm, todo := ResourceMap(desired), IndexOf(current), ToApply(actions);
    PlannedActions(desired, current, actions);
    ToApplyAre(actions);
    ResourceMapIs(desired);
    IndexKeys(current);
    forall i | 0 <= i < |todo|
      ensures var q := todo[i].fqn;
              if q in dm then todo[i].kind in {Create, Update} && todo[i].resource == Some(dm[q])
              else todo[i].kind == Delete
    {
      assert todo[i] in todo;
      ActionShape(desired, current, todo[i]);
    }
    TodoNames(actions, todo);
    RecordedOutstanding(dm, cm, todo, results);
    RecordKeepsNames(cm, results, todo);
    ListsIndex(saved, RecordAll(cm, results, todo));
    PlanIsOutstanding(desired, saved);
    PlanIsOutstanding(desired, current);
    FailedArePlanned(actions, todo, results);
  }

  // ---- A load that fails before the results are recorded ----

  ghost predicate Listed(toApply: seq<Action>, q: string) {
    exists i :: 0 <= i < |toApply| && toApply[i].fqn == q
  }

  ghost function NoopNames(actions: seq<Action>): set<string> {
    set a | a in actions && a.kind == Noop :: a.fqn
  }

  /** Recording into an empty state: what failed is outstanding, and every resource without an action. */
  lemma ForgottenOutstanding(dm: map<string, Resource>, toApply: seq<Action>, results: seq<Outcome>)
    requires DistinctActions(toApply) && Answers(toApply, results)
    requires forall q :: q in dm ==> dm[q].fqn == q
    requires forall i :: 0 <= i < |toApply| ==>
               var q := toApply[i].fqn;
               if q in dm then toApply[i].kind in {Create, Update} && toApply[i].resource == Some(dm[q])
               else toApply[i].kind == Delete
    ensures Outstanding(dm, RecordAll(map[], results, toApply)) ==
            FailedOnes(results) + set q | q in dm && !Listed(toApply, q)
  {
    hide RecordAll, HashAt, Outstanding;
    var m := RecordAll(map[], results, toApply);
    var forgotten := set q | q in dm && !Listed(toApply, q);
    forall q ensures q in Outstanding(dm, m) <==> q in FailedOnes(results) + forgotten {
      RecordAllAt(map[], results, toApply, q);
      if i :| 0 <= i < |results| && results[i].fqn == q {
        assert toApply[i].fqn == q;
        OneRecorded(dm, map[], toApply, results, i, m);
      } else {
        forall r | r in results ensures r.fqn != q {
          var j :| 0 <= j < |results| && results[j] == r;
        }
        assert forall i :: 0 <= i < |toApply| ==> toApply[i].fqn == results[i].fqn;
        assert !Listed(toApply, q);
        AbsentOutstanding(dm, m, q);
      }
    }
  }

  lemma AbsentOutstanding(dm: map<string, Resource>, m: map<string, Entry>, q: string)
    requires q !in m && (q in dm ==> dm[q].fqn == q)
    ensures q in Outstanding(dm, m) <==> q in dm
  {
  }

  /** The error of the load is ignored, so everything that needed no change is forgotten: the next plan changes what
      failed and all that, and the promise of ApplyThenPlan holds if and only if the plan had no noop. */
  lemma ApplyAfterFailedLoad(desired: seq<Resource>, current: seq<Entry>, actions: seq<Action>, results: seq<Outcome>,
                             saved: seq<Entry>)
    requires DistinctResources(desired) && DistinctFQNs(current) && IsPlan(desired, current, actions)
    requires Answers(ToApply(actions), results)
    requires Lists(saved, RecordAll(map[], results, ToApply(actions)))
    ensures Changing(Actions(desired, saved)) == FailedOnes(results) + NoopNames(actions)
    ensures Changing(Actions(desired, saved)) == FailedOnes(results) <==> NoopNames(actions) == {}
  {
    hide IndexOf, ResourceMap, Actions, RecordAll, Outstanding, NoopNames;
    var dm, todo := ResourceMap(desired), ToApply(actions);
    PlannedActions(desired, current, actions);
    ToApplyAre(actions);
    ResourceMapIs(desired);
    forall i | 0 <= i < |todo|
      ensures var q := todo[i].fqn;
              if q in dm then todo[i].kind in {Create, Update} && todo[i].resource == Some(dm[q])
              else todo[i].kind == Delete
    {
      assert todo[i] in todo;
      ActionShape(desired, current, todo[i]);
    }
    ForgottenOutstanding(dm, todo, results);
    RecordKeepsNames(map[], results, todo);
    ListsIndex(saved, RecordAll(map[], results, todo));
    PlanIsOutstanding(desired, saved);
    NoopsAreForgotten(desired, current, actions);
    FailedArePlanned(actions, todo, results);
    NoopsApart(actions);
  }

  lemma NoopsApart(actions: seq<Action>)
    requires DistinctActions(actions)
    ensures NoopNames(actions) !! Changing(actions)
  {
    forall a, b | a in actions && b in actions && a.kind == Noop && b.kind != Noop ensures a.fqn != b.fqn {
      var i :| 0 <= i < |actions| && actions[i] == a;
      var j :| 0 <= j < |actions| && actions[j] == b;
    }
  }

  lemma NoopsAreForgotten(desired: seq<Resource>, current: seq<Entry>, actions: seq<Action>)
    requires DistinctResources(desired) && DistinctFQNs(current) && IsPlan(desired, current, actions)
    ensures NoopNames(actions) == set q | q in ResourceMap(desired) && !Listed(ToApply(actions), q)
  {
    hide IndexOf, ResourceMap, ToApply, DesiredActions, Deletions;
    var dm, cm, todo := ResourceMap(desired), IndexOf(current), ToApply(actions);
    PlannedActions(desired, current, actions);
    ToApplyAre(actions);
    ResourceMapIs(desired);
    DesiredActionsAre(desired, cm);
    DeletionsAre(current, dm);
    TodoNames(actions, todo);
    NoopsApart(actions);
    forall q | q in NoopNames(actions) ensures q in dm && !Listed(todo, q) {
      var a :| a in actions && a.kind == Noop && a.fqn == q;
      assert a in DesiredActions(desired, cm);
      var i :| 0 <= i < |desired| && DesiredActions(desired, cm)[i] == a;
      assert desired[i] in desired;
    }
    ActionsDistinct(desired, current);
    PermutedDistinct(Actions(desired, current), actions);
    forall q | q in dm && !Listed(todo, q) ensures q in NoopNames(actions) {
      var i :| 0 <= i < |desired| && desired[i] == dm[q];
      var a := DesiredActions(desired, cm)[i];
      assert a in Actions(desired, current);
      assert a in actions && a.fqn == q;
      assert q !in Changing(actions);
    }
  }

  lemma TodoNames(actions: seq<Action>, todo: seq<Action>)
    requires forall a :: a in todo <==> a in actions && a.kind != Noop
    ensures forall q :: q in Changing(actions) <==> exists i :: 0 <= i < |todo| && todo[i].fqn == q
  {
    forall q | q in Changing(actions) ensures exists i :: 0 <= i < |todo| && todo[i].fqn == q {
      var a :| a in actions && a.kind != Noop && a.fqn == q;
      var i :| 0 <= i < |todo| && todo[i] == a;
    }
    forall i | 0 <= i < |todo| ensures todo[i].fqn in Changing(actions) {
      assert todo[i] in todo;
    }
  }

  lemma FailedArePlanned(actions: seq<Action>, todo: seq<Action>, results: seq<Outcome>)
    requires Answers(todo, results) && forall a :: a in todo ==> a in actions && a.kind != Noop
    ensures FailedOnes(results) <= Changing(actions)
  {
    forall q | q in FailedOnes(results) ensures q in Changing(actions) {
      var r :| r in results && !r.ok && r.fqn == q;
      var i :| 0 <= i < |results| && results[i] == r;
      assert todo[i] in todo;
    }
  }

  // ---- Any number of rounds ----

  /** One plan and apply: the adapter fails as a whole, or its results are recorded. */
  ghost predicate RoundTo(desired: seq<Resource>, current: seq<Entry>, next: seq<Entry>) {
    || next == current
    || exists actions, results ::
         && IsPlan(desired, current, actions) && Answers(ToApply(actions), results)
         && Lists(next, RecordAll(IndexOf(current), results, ToApply(actions)))
  }

  ghost predicate Rounds(desired: seq<Resource>, states: seq<seq<Entry>>) {
    states != [] && forall k :: 0 <= k < |states| - 1 ==> RoundTo(desired, states[k], states[k + 1])
  }

  lemma RoundShrinks(desired: seq<Resource>, current: seq<Entry>, next: seq<Entry>)
    requires DistinctResources(desired) && DistinctFQNs(current) && RoundTo(desired, current, next)
    ensures DistinctFQNs(next) && Changing(Actions(desired, next)) <= Changing(Actions(desired, current))
  {
    hide Actions, Changing, RecordAll, ToApply, IndexOf;
    if next != current {
      var actions, results :|
        && IsPlan(desired, current, actions) && Answers(ToApply(actions), results)
        && Lists(next, RecordAll(IndexOf(current), results, ToApply(actions)));
      ApplyThenPlan(desired, current, actions, results, next);
    }
  }

  /** Over any number of rounds what is outstanding only shrinks. */
  lemma {:induction false} RoundsShrink(desired: seq<Resource>, states: seq<seq<Entry>>, i: nat, j: nat)
    requires DistinctResources(desired) && Rounds(desired, states) && DistinctFQNs(states[0]) && i <= j < |states|
    ensures DistinctFQNs(states[j])
    ensures Changing(Actions(desired, states[j])) <= Changing(Actions(desired, states[i]))
    decreases j
  {
    hide Actions, Changing, RoundTo, DistinctFQNs;
    if j > 0 {
      RoundsShrink(desired, states, if i < j then i else j - 1, j - 1);
      assert RoundTo(desired, states[j - 1], states[j - 1 + 1]);
      RoundShrinks(desired, states[j - 1], states[j]);
    }
  }

  /** A plan with nothing to change leaves the state as it is. */
  lemma SettledStaysSettled(desired: seq<Resource>, current: seq<Entry>, actions: seq<Action>)
    requires DistinctResources(desired) && DistinctFQNs(current) && IsPlan(desired, current, actions)
    requires Changing(Actions(desired, current)) == {}
    ensures ToApply(actions) == []
  {
    hide Actions, Outstanding, IndexOf, ResourceMap;
    PlannedActions(desired, current, actions);
    PlanIsOutstanding(desired, current);
    ToApplyAre(actions);
    if ToApply(actions) != [] {
      TodoMeansChange(actions);
    }
  }

  lemma TodoMeansChange(actions: seq<Action>)
    requires DistinctActions(actions) && ToApply(actions) != []
    ensures Changing(actions) != {}
  {
    hide ToApply;
    ToApplyAre(actions);
    var a := ToApply(actions)[0];
    assert a in ToApply(actions);
    assert a.fqn in Changing(actions);
  }

  // ---- The loops ----

  method IndexState(current: seq<Entry>) returns (m: map<string, Entry>)
    ensures m == IndexOf(current)
  {
    m := map[];
    var i := 0;
    while i < |current|
      invariant 0 <= i <= |current|
      invariant m == IndexOf(current[..i])
    {
      assert current[..i + 1][..i] == current[..i];
      m := m[current[i].fqn := current[i]];
      i := i + 1;
    }
    assert current[..i] == current;
  }

  method IndexResources(desired: seq<Resource>) returns (m: map<string, Resource>)
    ensures m == ResourceMap(desired)
  {
    m := map[];
    var i := 0;
    while i < |desired|
      invariant 0 <= i <= |desired|
      invariant m == ResourceMap(desired[..i])
    {
      assert desired[..i + 1][..i] == desired[..i];
      m := m[desired[i].fqn := desired[i]];
      i := i + 1;
    }
    assert desired[..i] == desired;
  }

  /** Some action is not a noop. */
  ghost predicate HasChange(actions: seq<Action>) {
    exists i :: 0 <= i < |actions| && actions[i].kind != Noop
  }

  lemma HasChangeAppend(actions: seq<Action>, a: Action)
    ensures HasChange(actions + [a]) <==> HasChange(actions) || a.kind != Noop
  {
    if i :| 0 <= i < |actions| && actions[i].kind != Noop {
      assert (actions + [a])[i].kind != Noop;
    }
    if a.kind != Noop {
      assert (actions + [a])[|actions|].kind != Noop;
    }
  }

  method PlanDesired(desired: seq<Resource>, current: map<string, Entry>)
    returns (actions: seq<Action>, hasChanges: bool)
    ensures actions == DesiredActions(desired, current)
    ensures hasChanges <==> HasChange(actions)
  {
    hide HasChange;
    actions, hasChanges := [], false;
    NoChange();
    var i := 0;
    while i < |desired|
      invariant 0 <= i <= |desired|
      invariant actions == DesiredActions(desired[..i], current)
      invariant hasChanges <==> HasChange(actions)
    {
      assert desired[..i + 1][..i] == desired[..i];
      var r := desired[i];
      var kind := Noop;
      if r.fqn !in current {
        kind, hasChanges := Create, true;
      } else if current[r.fqn].hash != r.hash {
        kind, hasChanges := Update, true;
      } else if current[r.fqn].status == Failed {
        kind, hasChanges := Update, true;
      }
      HasChangeAppend(actions, Action(r.fqn, kind, Some(r)));
      actions := actions + [Action(r.fqn, kind, Some(r))];
      i := i + 1;
    }
    assert desired[..i] == desired;
  }

  lemma NoChange()
    ensures !HasChange([])
  {
  }

  method PlanDeletions(current: seq<Entry>, desired: map<string, Resource>, before: seq<Action>, changes: bool)
    returns (actions: seq<Action>, hasChanges: bool)
    requires changes <==> HasChange(before)
    ensures actions == before + Deletions(current, desired)
    ensures hasChanges <==> HasChange(actions)
  {
    hide HasChange;
    actions, hasChanges := before, changes;
    assert before + [] == before;
    var i := 0;
    while i < |current|
      invariant 0 <= i <= |current|
      invariant actions == before + Deletions(current[..i], desired)
      invariant hasChanges <==> HasChange(actions)
    {
      assert current[..i + 1][..i] == current[..i];
      var e := current[i];
      if e.fqn !in desired {
        HasChangeAppend(actions, Action(e.fqn, Delete, None));
        actions := actions + [Action(e.fqn, Delete, None)];
        hasChanges := true;
      }
      i := i + 1;
    }
    assert current[..i] == current;
  }

  lemma HasChangeChanging(actions: seq<Action>, sorted: seq<Action>)
    requires multiset(actions) == multiset(sorted)
    ensures HasChange(actions) <==> Changing(sorted) != {}
  {
    assert forall a :: a in actions <==> a in multiset(actions);
    assert forall a :: a in sorted <==> a in multiset(sorted);
    if i :| 0 <= i < |actions| && actions[i].kind != Noop {
      assert actions[i] in actions;
      assert actions[i].fqn in Changing(sorted);
    }
    if Changing(sorted) != {} {
      var q :| q in Changing(sorted);
      var a :| a in sorted && a.kind != Noop && a.fqn == q;
      assert a in actions;
    }
  }

  method ComputePlan(desired: seq<Resource>, current: seq<Entry>) returns (plan: array<Action>, hasChanges: bool)
    ensures fresh(plan)
    ensures Strings.SortedBy(plan[..], ActionBefore) && IsPlan(desired, current, plan[..])
    ensures hasChanges <==> Changing(plan[..]) != {}
    ensures forall i, j :: 0 <= i < j < plan.Length ==> !Strings.Less(plan[j].fqn, plan[i].fqn)
    ensures forall i :: 0 <= i < plan.Length ==> Sensible(desired, current, plan[i])
    ensures Complete(desired, current, plan[..])
    ensures hasChanges <==> exists i :: 0 <= i < plan.Length && plan[i].kind != Noop
  {
    hide Strings.SortedBy, Strings.WeakOrder, DesiredActions, Deletions, HasChange, Changing;
    var currentMap := IndexState(current);
    var desiredMap := IndexResources(desired);
    var actions, changes := PlanDesired(desired, currentMap);
    actions, hasChanges := PlanDeletions(current, desiredMap, actions, changes);
    plan := new Action[|actions|](i requires 0 <= i < |actions| => actions[i]);
    assert plan[..] == actions;
    ActionWeakOrder();
    Strings.InsertionSort(plan, ActionBefore);
    HasChangeChanging(actions, plan[..]);
    hide Actions, Sensible, Complete, Strings.Less;
    PlanFacts(desired, current, plan[..]);
  }

  lemma PlanFacts(desired: seq<Resource>, current: seq<Entry>, actions: seq<Action>)
    requires Strings.SortedBy(actions, ActionBefore) && IsPlan(desired, current, actions)
    ensures forall i, j :: 0 <= i < j < |actions| ==> !Strings.Less(actions[j].fqn, actions[i].fqn)
    ensures forall i :: 0 <= i < |actions| ==> Sensible(desired, current, actions[i])
    ensures Complete(desired, current, actions)
    ensures Changing(actions) != {} <==> exists i :: 0 <= i < |actions| && actions[i].kind != Noop
  {
    hide Strings.SortedBy, IsPlan, Sensible, Complete, Strings.Less, Changing;
    PlanMeans(desired, current, actions);
    ChangingMeans(actions);
    SortedByName(actions);
  }

  lemma SortedByName(actions: seq<Action>)
    requires Strings.SortedBy(actions, ActionBefore)
    ensures forall i, j :: 0 <= i < j < |actions| ==> !Strings.Less(actions[j].fqn, actions[i].fqn)
  {
    hide Strings.Less;
  }

  lemma ChangingMeans(actions: seq<Action>)
    ensures Changing(actions) != {} <==> exists i :: 0 <= i < |actions| && actions[i].kind != Noop
  {
    if i :| 0 <= i < |actions| && actions[i].kind != Noop {
      assert actions[i].fqn in Changing(actions);
    }
    if Changing(actions) != {} {
      var q :| q in Changing(actions);
      var a :| a in actions && a.kind != Noop && a.fqn == q;
      var i :| 0 <= i < |actions| && actions[i] == a;
      assert actions[i].kind != Noop;
    }
  }

  datatype Tally = Tally(created: nat, updated: nat, deleted: nat, failed: nat)

  function Count(results: seq<Outcome>): Tally {
    if results == [] then Tally(0, 0, 0, 0) else
      var t := Count(results[..|results| - 1]);
      var r := results[|results| - 1];
      if !r.ok then t.(failed := t.failed + 1)
      else match r.kind
           case Create => t.(created := t.created + 1)
           case Update => t.(updated := t.updated + 1)
           case Delete => t.(deleted := t.deleted + 1)
           case Noop => t
  }

  /** Every result is counted once, and no failure is counted exactly when nothing stays outstanding. */
  lemma {:induction false} CountsAll(results: seq<Outcome>)
    requires forall i :: 0 <= i < |results| ==> results[i].kind != Noop
    ensures var t := Count(results); t.created + t.updated + t.deleted + t.failed == |results|
    ensures Count(results).failed == 0 <==> FailedOnes(results) == {}
  {
    if results != [] {
      var n := |results| - 1;
      CountsAll(results[..n]);
      assert results == results[..n] + [results[n]];
      assert FailedOnes(results) == FailedOnes(results[..n]) + if results[n].ok then {} else {results[n].fqn};
    }
  }

  ghost function Number(results: seq<Outcome>, p: Outcome -> bool): nat {
    if results == [] then 0 else Number(results[..|results| - 1], p) + if p(results[|results| - 1]) then 1 else 0
  }

  /** What each of the four counts is the number of. */
  lemma {:induction false} CountsByKind(results: seq<Outcome>)
    ensures Count(results).created == Number(results, (r: Outcome) => r.ok && r.kind == Create)
    ensures Count(results).updated == Number(results, (r: Outcome) => r.ok && r.kind == Update)
    ensures Count(results).deleted == Number(results, (r: Outcome) => r.ok && r.kind == Delete)
    ensures Count(results).failed == Number(results, (r: Outcome) => !r.ok)
  {
    if results != [] {
      CountsByKind(results[..|results| - 1]);
    }
  }

  /** What the state says afterwards of a resource with a result: what was applied, with its version; what failed, with
      the adapter's error and no version; nothing of what was deleted. */
  lemma RecordedAs(state: map<string, Entry>, results: seq<Outcome>, toApply: seq<Action>, i: nat)
    requires Answers(toApply, results) && i < |results|
    requires forall j, k :: 0 <= j < k < |results| ==> results[j].fqn != results[k].fqn
    ensures var m, q := RecordAll(state, results, toApply), results[i].fqn;
            && (results[i].ok && results[i].kind == Delete ==> q !in m)
            && (results[i].ok && results[i].kind != Delete ==>
                  && q in m && m[q].fqn == q && m[q].status == Applied && m[q].error == ""
                  && m[q].hash == if toApply[i].resource.Some? then toApply[i].resource.value.hash else "")
            && (!results[i].ok ==>
                  q in m && m[q].fqn == q && m[q].status == Failed && m[q].error == results[i].error && m[q].hash == "")
    ensures var m := RecordAll(state, results, toApply);
            forall q :: (forall j :: 0 <= j < |results| ==> results[j].fqn != q) ==>
              (q in m <==> q in state) && (q in m && q in state ==> m[q] == state[q])
  {
    hide RecordAll;
    RecordAllAt(state, results, toApply, results[i].fqn);
    forall q | forall j :: 0 <= j < |results| ==> results[j].fqn != q
      ensures var m := RecordAll(state, results, toApply);
              (q in m <==> q in state) && (q in m && q in state ==> m[q] == state[q])
    {
      RecordAllAt(state, results, toApply, q);
    }
  }

  method FilterActions(actions: seq<Action>) returns (todo: seq<Action>)
    ensures todo == ToApply(actions)
  {
    todo := [];
    var i := 0;
    while i < |actions|
      invariant 0 <= i <= |actions|
      invariant todo == ToApply(actions[..i])
    {
      assert actions[..i + 1][..i] == actions[..i];
      if actions[i].kind != Noop {
        todo := todo + [actions[i]];
      }
      i := i + 1;
    }
    assert actions[..i] == actions;
  }

  method ProcessResults(results: seq<Outcome>, toApply: seq<Action>, state: map<string, Entry>)
    returns (m: map<string, Entry>, tally: Tally)
    ensures m == RecordAll(state, results, toApply) && tally == Count(results)
  {
    m, tally := state, Tally(0, 0, 0, 0);
    var i := 0;
    while i < |results|
      invariant 0 <= i <= |results|
      invariant m == RecordAll(state, results[..i], toApply) && tally == Count(results[..i])
    {
      assert results[..i + 1][..i] == results[..i];
      var r := results[i];
      if r.ok {
        match r.kind {
          case Create => tally := tally.(created := tally.created + 1);
          case Update => tally := tally.(updated := tally.updated + 1);
          case Delete => tally := tally.(deleted := tally.deleted + 1);
          case Noop =>
        }
        if r.kind == Delete {
          m := m - {r.fqn};
        } else {
          var hash := "";
          if i < |toApply| && toApply[i].resource.Some? {
            hash := toApply[i].resource.value.hash;
          }
          m := m[r.fqn := Entry(r.fqn, hash, Applied, "")];
        }
      } else {
        tally := tally.(failed := tally.failed + 1);
        m := m[r.fqn := Entry(r.fqn, "", Failed, r.error)];
      }
      i := i + 1;
    }
    assert results[..i] == results;
  }

  /** The values of the state map in map order, which is arbitrary. */
  method ListState(state: map<string, Entry>) returns (entries: seq<Entry>)
    requires Named(state)
    ensures Lists(entries, state)
  {
    entries := [];
    var rest := state.Keys;
    while rest != {}
      invariant rest <= state.Keys && DistinctFQNs(entries)
      invariant forall i :: 0 <= i < |entries| ==>
                  entries[i].fqn in state.Keys - rest && state[entries[i].fqn] == entries[i]
      invariant forall q :: q in state.Keys - rest ==> state[q] in entries
      decreases rest
    {
      var q :| q in rest;
      entries := entries + [state[q]];
      rest := rest - {q};
    }
  }

  /** Apply up to the call of Save: None when there is nothing to save because there was nothing to do or the
      adapter failed. An error of the load is ignored. */
  method Apply(adapter: seq<Action> -> Result<seq<Outcome>>, actions: seq<Action>, loaded: Result<seq<Entry>>)
    returns (saved: Option<seq<Entry>>, tally: Tally)
    ensures var todo := ToApply(actions);
            var existing := if loaded.Ok? then loaded.value else [];
            if todo == [] || adapter(todo).Err? then saved == None && tally == Tally(0, 0, 0, 0)
            else && saved.Some? && Lists(saved.value, RecordAll(IndexOf(existing), adapter(todo).value, todo))
                 && tally == Count(adapter(todo).value)
  {
    hide IndexOf, RecordAll, Lists;
    var todo := FilterActions(actions);
    saved, tally := None, Tally(0, 0, 0, 0);
    if |todo| == 0 {
      return;
    }
    var results := adapter(todo);
    if results.Err? {
      return;
    }
    var existing := if loaded.Ok? then loaded.value else [];
    var state := IndexState(existing);
    IndexKeys(existing);
    var m;
    m, tally := ProcessResults(results.value, todo, state);
    RecordKeepsNames(state, results.value, todo);
    var entries := ListState(m);
    saved := Some(entries);
  }
}
