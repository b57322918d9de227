/** Conversation memory: internal/memory/lru.go and internal/memory/sliding.go. */
module Memory {
  import opened Strings

  type Message = string

  // ---- Recency lists ----

  function Without(s: seq<string>, x: string): seq<string> {
    if s == [] then [] else (if s[0] == x then [] else [s[0]]) + Without(s[1..], x)
  }

  /** x first, the others as they were. */
  function Promoted(s: seq<string>, x: string): seq<string> {
    [x] + Without(s, x)
  }

  lemma {:induction false} WithoutMembers(s: seq<string>, x: string)
    ensures forall y :: y in Without(s, x) <==> y in s && y != x
  {
    if s != [] {
      WithoutMembers(s[1..], x);
      assert s == [s[0]] + s[1..];
    }
  }

  lemma {:induction false} WithoutAbsent(s: seq<string>, x: string)
    requires x !in s
    ensures Without(s, x) == s
  {
    if s != [] {
      WithoutAbsent(s[1..], x);
      assert s == [s[0]] + s[1..];
    }
  }

  lemma {:induction false} WithoutAppend(a: seq<string>, b: seq<string>, x: string)
    ensures Without(a + b, x) == Without(a, x) + Without(b, x)
  {
    if a == [] {
      assert a + b == b;
    } else {
      assert (a + b)[1..] == a[1..] + b;
      WithoutAppend(a[1..], b, x);
    }
  }

  lemma WithoutOne(x: string)
    ensures Without([x], x) == []
  {
  }

  lemma {:induction false} WithoutAt(s: seq<string>, k: nat)
    requires Unique(s) && k < |s|
    ensures Without(s, s[k]) == s[..k] + s[k + 1..]
  {
    hide Without;
    assert s == s[..k] + ([s[k]] + s[k + 1..]);
    WithoutAppend(s[..k], [s[k]] + s[k + 1..], s[k]);
    WithoutAppend([s[k]], s[k + 1..], s[k]);
    WithoutAbsent(s[..k], s[k]);
    WithoutAbsent(s[k + 1..], s[k]);
    WithoutOne(s[k]);
    assert [] + s[k + 1..] == s[k + 1..];
  }

  lemma MoveToFront(s: seq<string>, k: nat)
    requires Unique(s) && k < |s|
    ensures var t := [s[k]] + (s[..k] + s[k + 1..]); Unique(t) && forall x :: x in t <==> x in s
  {
    var t := [s[k]] + (s[..k] + s[k + 1..]);
    assert s == s[..k] + [s[k]] + s[k + 1..];
    forall i, j | 0 <= i < j < |t| ensures t[i] != t[j] {
      var p := if i == 0 then k else if i <= k then i - 1 else i;
      var q := if j <= k then j - 1 else j;
      assert t[i] == s[p] && t[j] == s[q];
    }
  }

  // ---- The tracker ----

  /** The linked list is the sequence of its values, the most recent first. */
  class LRU {
    var order: seq<string>
    var elements: set<string>

    ghost predicate Valid()
      reads this
    {
      Unique(order) && forall x :: x in elements <==> x in order
    }

    constructor ()
      ensures Valid() && order == []
    {
      order, elements := [], {};
    }

    method Position(id: string) returns (k: nat)
      requires Valid() && id in elements
      ensures k < |order| && order[k] == id
    {
      k := 0;
      while order[k] != id
        invariant k < |order| && id !in order[..k]
        decreases |order| - k
      {
        assert order[..k + 1] == order[..k] + [order[k]];
        k := k + 1;
      }
    }

    method Promote(id: string)
      requires Valid()
      modifies this
      ensures Valid() && order == Promoted(old(order), id)
    {
      if id in elements {
        var k := Position(id);
        WithoutAt(order, k);
        MoveToFront(order, k);
        order := [id] + (order[..k] + order[k + 1..]);
      } else {
        WithoutAbsent(order, id);
        order := [id] + order;
        elements := elements + {id};
      }
    }

    /** The empty string when nothing is tracked. */
    method Evict() returns (id: string)
      requires Valid()
      modifies this
      ensures Valid()
      ensures if old(order) == [] then id == "" && order == []
              else id == old(order)[|old(order)| - 1] && order == old(order)[..|old(order)| - 1]
    {
      if |order| == 0 {
        return "";
      }
      id := order[|order| - 1];
      order := order[..|order| - 1];
      elements := elements - {id};
    }

    method Remove(id: string)
      requires Valid()
      modifies this
      ensures Valid() && order == Without(old(order), id)
    {
      if id in elements {
        var k := Position(id);
        WithoutAt(order, k);
        order := order[..k] + order[k + 1..];
        elements := elements - {id};
      } else {
        WithoutAbsent(order, id);
      }
    }
  }

  // ---- The store as a state machine: each event is one critical section ----

  datatype Store = Store(sessions: map<string, seq<Message>>, order: seq<string>)

  datatype Limits = Limits(maxMessages: nat, maxSessions: nat)

  function History(s: Store, id: string): seq<Message> {
    if id in s.sessions then s.sessions[id] else []
  }

  function LastOf(ms: seq<Message>, n: nat): (r: seq<Message>)
    ensures |r| <= n
  {
    if |ms| > n then ms[|ms| - n..] else ms
  }

  /** The eviction loop: it gives up on an empty identifier. */
  function EvictOver(s: Store, max: nat): Store
    decreases |s.order|
  {
    if |s.order| <= max then s else
      var n := |s.order| - 1;
      var victim := s.order[n];
      if victim == "" then s.(order := s.order[..n])
      else EvictOver(Store(s.sessions - {victim}, s.order[..n]), max)
  }

  function Saved(s: Store, lim: Limits, id: string, ms: seq<Message>): Store {
    var kept := LastOf(History(s, id) + ms, lim.maxMessages);
    EvictOver(Store(s.sessions[id := kept], Promoted(s.order, id)), lim.maxSessions)
  }

  function Cleared(s: Store, id: string): Store {
    Store(s.sessions - {id}, Without(s.order, id))
  }

  /** The two phases of Load are separate events, so that anything can fall between them. */
  datatype Event = Save(id: string, ms: seq<Message>) | Clear(id: string)
                 | LoadRead(id: string) | LoadPromote(id: string)

  function Step(s: Store, lim: Limits, e: Event): Store {
    match e
    case Save(id, ms) => Saved(s, lim, id, ms)
    case Clear(id) => Cleared(s, id)
    case LoadRead(_) => s
    case LoadPromote(id) => s.(order := Promoted(s.order, id))
  }

  /** With a history of everything saved since a session was last cleared or evicted, and of last uses. */
  datatype Traced = Traced(store: Store, full: map<string, seq<Message>>, use: map<string, int>, now: int)

  function Restrict(m: map<string, seq<Message>>, keys: set<string>): map<string, seq<Message>> {
    map k | k in m && k in keys :: m[k]
  }

  ghost function Advance(t: Traced, lim: Limits, e: Event): Traced {
    var s := Step(t.store, lim, e);
    var full := if e.Save? then t.full[e.id := (if e.id in t.full then t.full[e.id] else []) + e.ms] else t.full;
    var use := if e.Save? || e.LoadPromote? then t.use[e.id := t.now] else t.use;
    Traced(s, Restrict(full, s.sessions.Keys), use, t.now + 1)
  }

  ghost function Run(t: Traced, lim: Limits, es: seq<Event>): Traced
    decreases es
  {
    if es == [] then t else Run(Advance(t, lim, es[0]), lim, es[1..])
  }

  ghost const EMPTY := Traced(Store(map[], []), map[], map[], 0)

  // ---- What every run keeps ----

  /** The order lists sessions by last use, the latest first. */
  ghost predicate ByUse(order: seq<string>, use: map<string, int>, now: int) {
    && (forall i :: 0 <= i < |order| ==> order[i] in use && use[order[i]] < now)
    && (forall i, j :: 0 <= i < j < |order| ==> use[order[i]] > use[order[j]])
  }

  ghost predicate Histories(s: Store, full: map<string, seq<Message>>, lim: Limits) {
    && full.Keys == s.sessions.Keys
    && forall k :: k in full ==> s.sessions[k] == LastOf(full[k], lim.maxMessages)
  }

  ghost predicate Inv(t: Traced, lim: Limits) {
    && Unique(t.store.order) && "" !in t.store.order
    && (forall k :: k in t.store.sessions ==> k in t.store.order)
    && ByUse(t.store.order, t.use, t.now)
    && Histories(t.store, t.full, lim)
  }

  ghost predicate Bounded(s: Store, lim: Limits) {
    |s.sessions.Keys| <= lim.maxSessions
  }

  lemma {:induction false} PromotedByUse(order: seq<string>, id: string, use: map<string, int>, now: int)
    requires Unique(order) && ByUse(order, use, now)
    ensures Unique(Promoted(order, id)) && ByUse(Promoted(order, id), use[id := now], now + 1)
  {
    WithoutByUse(order, id, use, now);
    WithoutMembers(order, id);
    var w := Without(order, id);
    forall i | 0 <= i < |w| ensures w[i] != id {
      assert w[i] in w;
    }
  }

  lemma {:induction false} WithoutByUse(order: seq<string>, id: string, use: map<string, int>, now: int)
    requires Unique(order) && ByUse(order, use, now)
    ensures Unique(Without(order, id)) && ByUse(Without(order, id), use, now)
  {
    hide Without;
    if id in order {
      var k :| 0 <= k < |order| && order[k] == id;
      WithoutAt(order, k);
    } else {
      WithoutAbsent(order, id);
    }
  }

  /** Without empty identifiers the loop keeps exactly the most recent ones. */
  lemma {:induction false} EvictedAre(s: Store, max: nat)
    requires "" !in s.order && Unique(s.order)
    ensures var kept := if |s.order| <= max then s.order else s.order[..max];
            && EvictOver(s, max).order == kept
            && (forall k :: k in EvictOver(s, max).sessions <==> k in s.sessions && (k !in s.order || k in kept))
            && (forall k :: k in EvictOver(s, max).sessions ==> EvictOver(s, max).sessions[k] == s.sessions[k])
    decreases |s.order|
  {
    if |s.order| > max {
      var n := |s.order| - 1;
      var rest := Store(s.sessions - {s.order[n]}, s.order[..n]);
      EvictedAre(rest, max);
      assert s.order == rest.order + [s.order[n]];
      assert rest.order[..max] == s.order[..max];
      assert s.order[n] !in rest.order;
    }
  }

  lemma {:induction false} ListBounds(keys: set<string>, s: seq<string>)
    requires forall k :: k in keys ==> k in s
    ensures |keys| <= |s|
    decreases s
  {
    if s == [] {
      assert keys == {};
    } else {
      ListBounds(keys - {s[0]}, s[1..]);
      assert keys <= (keys - {s[0]}) + {s[0]};
      SubsetBound(keys, (keys - {s[0]}) + {s[0]});
    }
  }

  lemma {:induction false} SubsetBound(a: set<string>, b: set<string>)
    requires a <= b
    ensures |a| <= |b|
    decreases a
  {
    if a != {} {
      var x :| x in a;
      SubsetBound(a - {x}, b - {x});
    }
  }

  lemma SavedBounded(s: Store, lim: Limits, id: string, ms: seq<Message>)
    requires "" !in s.order && id != "" && Unique(Promoted(s.order, id))
    requires forall k :: k in s.sessions ==> k in s.order
    ensures Bounded(Saved(s, lim, id, ms), lim)
  {
    hide EvictOver, Without, LastOf;
    WithoutMembers(s.order, id);
    var mid := Store(s.sessions[id := LastOf(History(s, id) + ms, lim.maxMessages)], Promoted(s.order, id));
    EvictedAre(mid, lim.maxSessions);
    var after := EvictOver(mid, lim.maxSessions);
    ListBounds(after.sessions.Keys, after.order);
  }

  lemma LastOfAppend(f: seq<Message>, ms: seq<Message>, n: nat)
    ensures LastOf(LastOf(f, n) + ms, n) == LastOf(f + ms, n)
  {
  }

  /** A save as the limits see it: the session saved is first, the oldest beyond the limit are gone. */
  lemma SaveShape(t: Traced, lim: Limits, id: string, ms: seq<Message>)
    requires Inv(t, lim) && id != "" && lim.maxSessions >= 1
    ensures var after := Saved(t.store, lim, id, ms);
            var order := Promoted(t.store.order, id);
            && Unique(order) && "" !in order
            && after.order == (if |order| <= lim.maxSessions then order else order[..lim.maxSessions])
            && id in after.sessions && after.sessions[id] == LastOf(History(t.store, id) + ms, lim.maxMessages)
            && (forall k :: k in after.sessions <==> k in after.order && (k == id || k in t.store.sessions))
            && (forall k :: k in after.sessions && k != id ==> after.sessions[k] == t.store.sessions[k])
  {
    hide EvictOver, Without, LastOf, ByUse, Histories;
    var s := t.store;
    var order := Promoted(s.order, id);
    PromotedByUse(s.order, id, t.use, t.now);
    WithoutMembers(s.order, id);
    var mid := Store(s.sessions[id := LastOf(History(s, id) + ms, lim.maxMessages)], order);
    EvictedAre(mid, lim.maxSessions);
    var kept := if |order| <= lim.maxSessions then order else order[..lim.maxSessions];
    assert kept[0] == order[0] == id;
    assert id in kept;
    assert forall k :: k in mid.sessions ==> k in order;
  }

  /** A save extends the history of its session and drops those of the evicted. */
  lemma SaveHistories(t: Traced, lim: Limits, id: string, ms: seq<Message>)
    requires Inv(t, lim) && id != "" && lim.maxSessions >= 1
    ensures var after := Advance(t, lim, Save(id, ms)); Histories(after.store, after.full, lim)
  {
    hide Saved, LastOf, ByUse, Promoted, Unique;
    var f := if id in t.full then t.full[id] else [];
    var after := Saved(t.store, lim, id, ms);
    SaveShape(t, lim, id, ms);
    LastOfAppend(f, ms, lim.maxMessages);
    EmptyHistory(lim.maxMessages);
    assert History(t.store, id) == LastOf(f, lim.maxMessages);
    var full := Advance(t, lim, Save(id, ms)).full;
    assert full.Keys == after.sessions.Keys;
    forall k | k in full ensures after.sessions[k] == LastOf(full[k], lim.maxMessages) {
      if k != id {
        assert full[k] == t.full[k] && after.sessions[k] == t.store.sessions[k];
      }
    }
  }

  lemma SaveOrder(t: Traced, lim: Limits, id: string, ms: seq<Message>)
    requires Inv(t, lim) && id != "" && lim.maxSessions >= 1
    ensures var order := Saved(t.store, lim, id, ms).order;
            Unique(order) && "" !in order && ByUse(order, t.use[id := t.now], t.now + 1)
  {
    hide Saved, LastOf, ByUse, Promoted, Histories, Unique;
    SaveShape(t, lim, id, ms);
    PromotedByUse(t.store.order, id, t.use, t.now);
    PrefixByUse(Promoted(t.store.order, id), |Saved(t.store, lim, id, ms).order|, t.use[id := t.now], t.now + 1);
  }

  lemma SaveKeepsInv(t: Traced, lim: Limits, id: string, ms: seq<Message>)
    requires Inv(t, lim) && id != "" && lim.maxSessions >= 1
    ensures Inv(Advance(t, lim, Save(id, ms)), lim)
  {
    hide Saved, LastOf, ByUse, Promoted, Histories, Restrict, Unique;
    SaveShape(t, lim, id, ms);
    SaveHistories(t, lim, id, ms);
    SaveOrder(t, lim, id, ms);
  }

  lemma EmptyHistory(n: nat)
    ensures LastOf([], n) == []
  {
  }

  lemma PrefixByUse(order: seq<string>, n: nat, use: map<string, int>, now: int)
    requires Unique(order) && ByUse(order, use, now) && n <= |order|
    ensures Unique(order[..n]) && ByUse(order[..n], use, now) && order[..|order|] == order
    ensures "" !in order ==> "" !in order[..n]
  {
  }

  lemma ClearKeepsInv(t: Traced, lim: Limits, id: string)
    requires Inv(t, lim)
    ensures Inv(Advance(t, lim, Clear(id)), lim)
  {
    hide Without, LastOf;
    WithoutByUse(t.store.order, id, t.use, t.now);
    WithoutMembers(t.store.order, id);
  }

  lemma PromoteKeepsInv(t: Traced, lim: Limits, id: string)
    requires Inv(t, lim) && id != ""
    ensures Inv(Advance(t, lim, LoadPromote(id)), lim)
  {
    hide Without, LastOf, ByUse;
    PromotedByUse(t.store.order, id, t.use, t.now);
    WithoutMembers(t.store.order, id);
  }

  lemma StepKeepsInv(t: Traced, lim: Limits, e: Event)
    requires Inv(t, lim) && e.id != "" && lim.maxSessions >= 1 && Bounded(t.store, lim)
    ensures var after := Advance(t, lim, e); Inv(after, lim) && Bounded(after.store, lim)
  {
    hide LastOf, Saved, Inv, Unique;
    match e
    case Save(id, ms) =>
      SaveKeepsInv(t, lim, id, ms);
      StoreFacts(t, lim, id);
      SavedBounded(t.store, lim, id, ms);
    case Clear(id) =>
      ClearKeepsInv(t, lim, id);
      SubsetBound(Cleared(t.store, id).sessions.Keys, t.store.sessions.Keys);
    case LoadRead(_) => ReadKeepsInv(t, lim, e.id);
    case LoadPromote(id) => PromoteKeepsInv(t, lim, id);
  }

  lemma StoreFacts(t: Traced, lim: Limits, id: string)
    requires Inv(t, lim)
    ensures "" !in t.store.order && Unique(Promoted(t.store.order, id))
    ensures forall k :: k in t.store.sessions ==> k in t.store.order
  {
    PromotedByUse(t.store.order, id, t.use, t.now);
  }

  lemma ReadKeepsInv(t: Traced, lim: Limits, id: string)
    requires Inv(t, lim)
    ensures Inv(Advance(t, lim, LoadRead(id)), lim)
  {
    hide LastOf;
  }

  /** In every interleaving on non-empty identifiers: at most maxSessions sessions, each holding the last maxMessages of
      everything saved since it was last cleared or evicted. */
  lemma {:induction false} EveryRun(t: Traced, lim: Limits, es: seq<Event>)
    requires Inv(t, lim) && Bounded(t.store, lim) && lim.maxSessions >= 1
    requires forall i :: 0 <= i < |es| ==> es[i].id != ""
    ensures var after := Run(t, lim, es); Inv(after, lim) && Bounded(after.store, lim)
    decreases es
  {
    hide Inv, Bounded, Advance;
    if es != [] {
      StepKeepsInv(t, lim, es[0]);
      EveryRun(Advance(t, lim, es[0]), lim, es[1..]);
    }
  }

  lemma RunsFromEmpty(lim: Limits, es: seq<Event>)
    requires lim.maxSessions >= 1 && forall i :: 0 <= i < |es| ==> es[i].id != ""
    ensures var after := Run(EMPTY, lim, es);
            && |after.store.sessions.Keys| <= lim.maxSessions
            && after.full.Keys == after.store.sessions.Keys
            && forall k :: k in after.full ==>
                 var held, all := after.store.sessions[k], after.full[k];
                 && |held| == (if |all| <= lim.maxMessages then |all| else lim.maxMessages)
                 && held == all[|all| - |held|..]
  {
    hide Run;
    EveryRun(EMPTY, lim, es);
  }

  // ---- The same from the events alone ----

  /** All messages saved to id since it was last cleared. */
  ghost function SavedSince(es: seq<Event>, id: string): seq<Message> {
    if es == [] then [] else
      var before, e := SavedSince(es[..|es| - 1], id), es[|es| - 1];
      if e.id != id then before
      else if e.Clear? then []
      else if e.Save? then before + e.ms
      else before
  }

  /** Something was saved to id since it was last cleared. */
  ghost predicate IsOpen(es: seq<Event>, id: string) {
    es != [] &&
    var e := es[|es| - 1];
    if e.id == id && e.Clear? then false
    else if e.id == id && e.Save? then true
    else IsOpen(es[..|es| - 1], id)
  }

  /** At no time since it was opened was id without an entry. */
  ghost predicate NeverEvicted(lim: Limits, es: seq<Event>, id: string) {
    && (IsOpen(es, id) ==> id in Run(EMPTY, lim, es).store.sessions)
    && (es != [] ==> NeverEvicted(lim, es[..|es| - 1], id))
  }

  ghost predicate IsSuffix(part: seq<Message>, all: seq<Message>) {
    |part| <= |all| && part == all[|all| - |part|..]
  }

  lemma SuffixMore(part: seq<Message>, all: seq<Message>, ms: seq<Message>)
    requires IsSuffix(part, all)
    ensures IsSuffix(part + ms, all + ms) && IsSuffix(ms, all + ms)
  {
    assert all + ms == all[..|all| - |part|] + (part + ms);
  }

  lemma {:induction false} RunSuffix(lim: Limits, es: seq<Event>, id: string)
    ensures id in Run(EMPTY, lim, es).full ==> IsSuffix(Run(EMPTY, lim, es).full[id], SavedSince(es, id))
    decreases |es|
  {
    hide Run;
    if es == [] {
      RunNothing(lim);
    } else {
      var n := |es| - 1;
      var t, e := Run(EMPTY, lim, es[..n]), es[n];
      RunSuffix(lim, es[..n], id);
      RunSnoc(EMPTY, lim, es[..n], e);
      assert es[..n] + [e] == es;
      ClearDrops(t, lim, id);
      if e.id == id && e.Save? {
        SuffixMore(if id in t.full then t.full[id] else [], SavedSince(es[..n], id), e.ms);
      }
    }
  }

  lemma RunNothing(lim: Limits)
    ensures Run(EMPTY, lim, []) == EMPTY
  {
  }

  lemma ClearDrops(t: Traced, lim: Limits, id: string)
    ensures id !in Advance(t, lim, Clear(id)).full && id !in Advance(t, lim, Clear(id)).store.sessions
  {
  }

  lemma {:induction false} RunFull(lim: Limits, es: seq<Event>, id: string)
    requires NeverEvicted(lim, es, id)
    ensures IsOpen(es, id) ==>
              id in Run(EMPTY, lim, es).full && Run(EMPTY, lim, es).full[id] == SavedSince(es, id)
    ensures !IsOpen(es, id) ==> id !in Run(EMPTY, lim, es).full && SavedSince(es, id) == []
    decreases |es|
  {
    hide Run, Step;
    if es == [] {
      RunNothing(lim);
    } else {
      var n := |es| - 1;
      var t, e := Run(EMPTY, lim, es[..n]), es[n];
      RunFull(lim, es[..n], id);
      RunSnoc(EMPTY, lim, es[..n], e);
      assert es[..n] + [e] == es;
      ClearDrops(t, lim, id);
    }
  }

  /** In every interleaving a session holds the end of what was saved to it since it was last cleared, at most
      maxMessages of it; and if it was not evicted in between, all of it or exactly maxMessages. */
  lemma HoldsTheEnd(lim: Limits, es: seq<Event>, id: string)
    requires lim.maxSessions >= 1 && forall i :: 0 <= i < |es| ==> es[i].id != ""
    ensures var store, all := Run(EMPTY, lim, es).store, SavedSince(es, id);
            var held := if id in store.sessions then store.sessions[id] else [];
            && |held| <= lim.maxMessages && |held| <= |all| && held == all[|all| - |held|..]
            && (NeverEvicted(lim, es, id) ==> |held| == if |all| <= lim.maxMessages then |all| else lim.maxMessages)
  {
    hide Run, SavedSince, NeverEvicted;
    RunsFromEmpty(lim, es);
    RunSuffix(lim, es, id);
    var t := Run(EMPTY, lim, es);
    if NeverEvicted(lim, es, id) {
      RunFull(lim, es, id);
    }
    if id in t.full {
      LastSuffix(t.store.sessions[id], t.full[id], SavedSince(es, id), lim.maxMessages);
    }
  }

  lemma LastSuffix(held: seq<Message>, full: seq<Message>, all: seq<Message>, n: nat)
    requires IsSuffix(full, all) && |held| == (if |full| <= n then |full| else n) && IsSuffix(held, full)
    ensures IsSuffix(held, all)
  {
  }

  /** What a save evicts was used before everything that stays, and is never the session saved. */
  lemma VictimsAreOldest(t: Traced, lim: Limits, id: string, ms: seq<Message>, victim: string, kept: string)
    requires Inv(t, lim) && id != "" && lim.maxSessions >= 1
    requires victim in t.store.sessions && victim !in Saved(t.store, lim, id, ms).sessions
    requires kept in Saved(t.store, lim, id, ms).order
    ensures victim != id
    ensures kept == id || (kept in t.use && victim in t.use && t.use[victim] < t.use[kept])
  {
    hide Saved, LastOf, Without, Histories;
    var order := Promoted(t.store.order, id);
    var n := |Saved(t.store, lim, id, ms).order|;
    SaveShape(t, lim, id, ms);
    PromotedByUse(t.store.order, id, t.use, t.now);
    WithoutMembers(t.store.order, id);
    var i :| 0 <= i < n && order[i] == kept;
    assert victim in t.store.order && victim != id;
    assert victim in order;
    var j :| 0 <= j < |order| && order[j] == victim;
    assert victim !in Saved(t.store, lim, id, ms).order;
    assert j >= n;
  }

  // ---- Exactly when the bound holds ----

  ghost predicate Over(ids: set<string>, es: seq<Event>) {
    forall i :: 0 <= i < |es| ==> es[i].id in ids
  }

  /** Every run on these identifiers keeps the bound. */
  ghost predicate AlwaysBounded(lim: Limits, ids: set<string>) {
    forall es :: Over(ids, es) ==> Bounded(Run(EMPTY, lim, es).store, lim)
  }

  ghost predicate Only(s: Store, ids: set<string>) {
    (forall k :: k in s.sessions ==> k in ids) && (forall i :: 0 <= i < |s.order| ==> s.order[i] in ids)
  }

  lemma {:induction false} EvictOnly(s: Store, max: nat, ids: set<string>)
    requires Only(s, ids)
    ensures Only(EvictOver(s, max), ids)
    decreases |s.order|
  {
    if |s.order| > max {
      var n := |s.order| - 1;
      EvictOnly(Store(s.sessions - {s.order[n]}, s.order[..n]), max, ids);
    }
  }

  lemma StepOnly(s: Store, lim: Limits, e: Event, ids: set<string>)
    requires Only(s, ids) && e.id in ids
    ensures Only(Step(s, lim, e), ids)
  {
    hide LastOf, EvictOver, Without;
    WithoutMembers(s.order, e.id);
    var w := Without(s.order, e.id);
    assert forall i :: 0 <= i < |w| ==> w[i] in w;
    if e.Save? {
      var kept := LastOf(History(s, e.id) + e.ms, lim.maxMessages);
      EvictOnly(Store(s.sessions[e.id := kept], Promoted(s.order, e.id)), lim.maxSessions, ids);
    }
  }

  lemma {:induction false} RunOnly(t: Traced, lim: Limits, es: seq<Event>, ids: set<string>)
    requires Only(t.store, ids) && Over(ids, es)
    ensures Only(Run(t, lim, es).store, ids)
    decreases es
  {
    hide Step, Only;
    if es != [] {
      StepOnly(t.store, lim, es[0], ids);
      RunOnly(Advance(t, lim, es[0]), lim, es[1..], ids);
    }
  }

  lemma {:induction false} RunSnoc(t: Traced, lim: Limits, es: seq<Event>, e: Event)
    ensures Run(t, lim, es + [e]) == Advance(Run(t, lim, es), lim, e)
    decreases es
  {
    hide Advance;
    if es == [] {
      assert es + [e] == [e] && [e][1..] == [];
      assert Run(t, lim, [e]) == Run(Advance(t, lim, e), lim, []);
    } else {
      assert (es + [e])[1..] == es[1..] + [e];
      RunSnoc(Advance(t, lim, es[0]), lim, es[1..], e);
    }
  }

  /** Saves to the empty identifier first, then to each of xs. */
  ghost function Leak(xs: seq<string>): seq<Event> {
    if xs == [] then [Save("", [])] else Leak(xs[..|xs| - 1]) + [Save(xs[|xs| - 1], [])]
  }

  ghost predicate Holds(s: Store, xs: seq<string>) {
    && (forall k :: k in s.sessions <==> k == "" || k in xs)
    && (forall k :: k in s.order ==> k == "" || k in xs)
  }

  lemma NewFirst(s: Store, lim: Limits, x: string)
    requires x !in s.order
    ensures Promoted(s.order, x) == [x] + s.order
    ensures |s.order| < lim.maxSessions ==>
              Step(s, lim, Save(x, [])).order == [x] + s.order
    ensures |s.order| == lim.maxSessions && s.order != [] && s.order[|s.order| - 1] == "" ==>
              forall k :: k in Step(s, lim, Save(x, [])).sessions <==> k == x || k in s.sessions
    ensures |s.order| < lim.maxSessions ==>
              forall k :: k in Step(s, lim, Save(x, [])).sessions <==> k == x || k in s.sessions
  {
    hide LastOf, Without;
    WithoutAbsent(s.order, x);
    assert |s.order| > 0 ==> ([x] + s.order)[|s.order|] == s.order[|s.order| - 1];
  }

  ghost predicate Filled(s: Store, xs: seq<string>) {
    Holds(s, xs) && |s.order| == |xs| + 1 && s.order[|xs|] == ""
  }

  lemma FillFirst(lim: Limits)
    requires lim.maxSessions >= 1
    ensures Filled(Step(EMPTY.store, lim, Save("", [])), [])
  {
    hide Step;
    NewFirst(EMPTY.store, lim, "");
  }

  lemma FillNext(s: Store, lim: Limits, xs: seq<string>, x: string)
    requires Filled(s, xs) && x !in xs && x != "" && |xs| + 1 < lim.maxSessions
    ensures Filled(Step(s, lim, Save(x, [])), xs + [x])
  {
    hide Step, Unique;
    NewFirst(s, lim, x);
    var order := Step(s, lim, Save(x, [])).order;
    assert order[|xs| + 1] == s.order[|xs|];
    forall k | k in order ensures k == "" || k in xs + [x] {
      assert k == x || k in s.order;
    }
  }

  /** As long as there is room nothing is evicted and the empty identifier stays last. */
  lemma {:induction false} LeakFills(lim: Limits, xs: seq<string>)
    requires Unique(xs) && "" !in xs && |xs| < lim.maxSessions
    ensures Filled(Run(EMPTY, lim, Leak(xs)).store, xs)
    decreases xs
  {
    hide Step, Filled, Run;
    if xs == [] {
      RunSnoc(EMPTY, lim, [], Save("", []));
      assert [] + [Save("", [])] == [Save("", [])];
      NoEvents(lim);
      FillFirst(lim);
    } else {
      var n := |xs| - 1;
      assert xs == xs[..n] + [xs[n]] && xs[n] !in xs[..n];
      LeakFills(lim, xs[..n]);
      RunSnoc(EMPTY, lim, Leak(xs[..n]), Save(xs[n], []));
      FillNext(Run(EMPTY, lim, Leak(xs[..n])).store, lim, xs[..n], xs[n]);
    }
  }

  lemma NoEvents(lim: Limits)
    ensures Run(EMPTY, lim, []) == EMPTY
  {
  }

  lemma {:induction false} LeakOver(ids: set<string>, xs: seq<string>)
    requires "" in ids && forall i :: 0 <= i < |xs| ==> xs[i] in ids
    ensures Over(ids, Leak(xs))
  {
    if xs != [] {
      LeakOver(ids, xs[..|xs| - 1]);
    }
  }

  lemma {:induction false} Pick(ids: set<string>, n: nat) returns (xs: seq<string>)
    requires n <= |ids|
    ensures |xs| == n && Unique(xs) && forall i :: 0 <= i < n ==> xs[i] in ids
    decreases n
  {
    if n == 0 {
      xs := [];
    } else {
      var x :| x in ids;
      xs := Pick(ids - {x}, n - 1);
      xs := xs + [x];
    }
  }

  /** One save more: the empty identifier ends the eviction loop and its session stays behind. */
  lemma LeakLast(lim: Limits, xs: seq<string>)
    requires Unique(xs) && "" !in xs && |xs| == lim.maxSessions >= 1
    ensures Run(EMPTY, lim, Leak(xs)).store.sessions.Keys == {""} + set x | x in xs
  {
    hide Step, Run;
    var n := |xs| - 1;
    assert xs == xs[..n] + [xs[n]] && xs[n] !in xs[..n];
    LeakFills(lim, xs[..n]);
    RunSnoc(EMPTY, lim, Leak(xs[..n]), Save(xs[n], []));
    NewFirst(Run(EMPTY, lim, Leak(xs[..n])).store, lim, xs[n]);
  }

  lemma LeakExceeds(lim: Limits, ids: set<string>) returns (es: seq<Event>)
    requires lim.maxSessions >= 1 && "" in ids && |ids| > lim.maxSessions
    ensures Over(ids, es) && |Run(EMPTY, lim, es).store.sessions.Keys| == lim.maxSessions + 1
  {
    hide Step, Run, Leak;
    var xs := Pick(ids - {""}, lim.maxSessions);
    assert forall i :: 0 <= i < |xs| ==> xs[i] != "";
    LeakOver(ids, xs);
    LeakLast(lim, xs);
    UniqueSize(xs);
    es := Leak(xs);
  }

  /** The bound holds in every run on a set of identifiers, if and only if the empty one is not among them or the
      limit is large enough for all of them. */
  lemma BoundedExactly(lim: Limits, ids: set<string>)
    requires lim.maxSessions >= 1
    ensures AlwaysBounded(lim, ids) <==> "" !in ids || |ids| <= lim.maxSessions
  {
    hide Run;
    if "" !in ids {
      forall es | Over(ids, es) ensures Bounded(Run(EMPTY, lim, es).store, lim) {
        EveryRun(EMPTY, lim, es);
      }
    } else if |ids| <= lim.maxSessions {
      forall es | Over(ids, es) ensures Bounded(Run(EMPTY, lim, es).store, lim) {
        RunOnly(EMPTY, lim, es, ids);
        SubsetBound(Run(EMPTY, lim, es).store.sessions.Keys, ids);
      }
    } else {
      var es := LeakExceeds(lim, ids);
      assert !Bounded(Run(EMPTY, lim, es).store, lim);
    }
  }

  // ---- The store ----

  class SlidingWindow {
    const limits: Limits
    var sessions: map<string, seq<Message>>
    const lru: LRU

    ghost predicate Valid()
      reads this, lru
    {
      lru.Valid()
    }

    ghost function View(): Store
      reads this, lru
    {
      Store(sessions, lru.order)
    }

    /** Non-positive limits fall back to 50 messages and 10000 sessions. */
    constructor (maxMessages: int, maxSessions: int)
      ensures Valid() && fresh(lru) && View() == Store(map[], [])
      ensures limits == Limits(if maxMessages <= 0 then 50 else maxMessages,
                               if maxSessions <= 0 then 10000 else maxSessions)
    {
      limits := Limits(if maxMessages <= 0 then 50 else maxMessages, if maxSessions <= 0 then 10000 else maxSessions);
      sessions := map[];
      lru := new LRU();
    }

    /** What Load returns: with full histories as in every run, the last messages saved since the session was last
        cleared or evicted, and nothing for a session that is not stored. */
    method ReadPhase(id: string) returns (ms: seq<Message>)
      ensures ms == History(View(), id)
      ensures forall full :: Histories(View(), full, limits) ==>
                ms == LastOf(if id in full then full[id] else [], limits.maxMessages)
    {
      ms := if id in sessions then sessions[id] else [];
    }

    method PromotePhase(id: string)
      requires Valid()
      modifies lru
      ensures Valid() && View() == Step(old(View()), limits, LoadPromote(id))
    {
      lru.Promote(id);
    }

    method SaveMessages(id: string, ms: seq<Message>)
      requires Valid()
      modifies this, lru
      ensures Valid() && View() == Step(old(View()), limits, Save(id, ms))
    {
      var existing := if id in sessions then sessions[id] else [];
      existing := existing + ms;
      if |existing| > limits.maxMessages {
        existing := existing[|existing| - limits.maxMessages..];
      }
      sessions := sessions[id := existing];
      lru.Promote(id);
      EvictOldest();
    }

    method EvictOldest()
      requires Valid()
      modifies this, lru
      ensures Valid() && View() == EvictOver(old(View()), limits.maxSessions)
    {
      hide Unique;
      while |lru.order| > limits.maxSessions
        invariant Valid()
        invariant EvictOver(View(), limits.maxSessions) == EvictOver(old(View()), limits.maxSessions)
        decreases |lru.order|
      {
        var victim := lru.Evict();
        if victim == "" {
          return;
        }
        sessions := sessions - {victim};
      }
    }

    method ClearSession(id: string)
      requires Valid()
      modifies this, lru
      ensures Valid() && View() == Step(old(View()), limits, Clear(id))
    {
      sessions := sessions - {id};
      lru.Remove(id);
    }
  }
}
