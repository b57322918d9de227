/** Concurrent pipeline execution (internal/pipeline/executor.go) as a state machine whose events are
    the atomic steps of the goroutines, and the sequential reference of internal/runtime/server.go. */
module Pipeline {
  import opened Strings
  import opened Dag

  datatype TokenUsage = TokenUsage(input: int, output: int, cacheRead: int, cacheWrite: int)

  const ZERO := TokenUsage(0, 0, 0, 0)

  function AddTokens(a: TokenUsage, b: TokenUsage): TokenUsage {
    TokenUsage(a.input + b.input, a.output + b.output, a.cacheRead + b.cacheRead, a.cacheWrite + b.cacheWrite)
  }

  datatype Reply = Answer(output: string, tokens: TokenUsage) | Failure(error: string)

  datatype StepResult = StepResult(name: string, agentRef: string, output: string, failed: bool, error: string,
                                   tokens: TokenUsage)

  /** A pipeline to run. The events of a run carry whatever replies the agents gave; `invoke` is an invoker that answers
      by the agent, the input and whether the context is cancelled, for the runs in which it gives the replies. */
  datatype Job = Job(steps: map<string, Step>, order: seq<seq<string>>, trigger: string,
                     invoke: (string, string, bool) -> Reply)

  datatype Status = Running | Completed | Failed | Cancelled

  /** One layer in flight: steps not yet invoked, results not yet recorded, the outputs they see. */
  datatype Layer = Idle | Open(waiting: set<string>, invoked: map<string, StepResult>, snapshot: map<string, string>)

  datatype State = State(next: nat, layer: Layer, outputs: map<string, string>, results: map<string, StepResult>,
                         total: TokenUsage, failed: bool, cancelled: bool, status: Status)

  datatype Event = Begin | Invoke(name: string, reply: Reply) | Commit(name: string) | End | Cancel

  function Lookup(outputs: map<string, string>, name: string): string {
    if name in outputs then outputs[name] else ""
  }

  /** Input resolution of `executeStep`; the fallback is what the trigger entry holds. */
  function StepInput(step: Step, outputs: map<string, string>, fallback: string): string {
    var own := if step.input == "" && |step.dependsOn| > 0 then Lookup(outputs, step.dependsOn[0]) else step.input;
    if own == "" then fallback else own
  }

  /** What the invoker answers to a step. */
  function Replied(job: Job, step: Step, outputs: map<string, string>, cancelled: bool): Reply {
    job.invoke(step.agentRef, StepInput(step, outputs, Lookup(outputs, "trigger")), cancelled)
  }

  /** What `executeStep` returns for a reply. */
  function StepOutcome(step: Step, reply: Reply): StepResult {
    match reply
    case Answer(output, tokens) => StepResult(step.name, step.agentRef, output, false, "", tokens)
    case Failure(error) => StepResult(step.name, step.agentRef, "", true, error, ZERO)
  }

  function Init(job: Job): State {
    State(0, Idle, map["trigger" := job.trigger], map[], ZERO, false, false, Running)
  }

  /** The order lists known steps, each once, and no step before what it depends on. */
  ghost predicate WellOrdered(job: Job) {
    && (forall k, v :: 0 <= k < |job.order| && v in job.order[k] ==> v in job.steps && job.steps[v].name == v)
    && (forall k, l, v :: 0 <= k < |job.order| && 0 <= l < |job.order| && v in job.order[k] && v in job.order[l] ==>
          k == l)
    && (forall k, v, d :: 0 <= k < |job.order| && v in job.order[k] && d in job.steps[v].dependsOn ==>
          InLayers(job.order[..k], d))
    && (forall k, v {:trigger AtMostOnce(job.order[k], v)} :: 0 <= k < |job.order| ==> AtMostOnce(job.order[k], v))
  }

  predicate Enabled(job: Job, s: State, ev: Event) {
    s.status == Running &&
    match ev
    case Begin => s.layer.Idle?
    case Invoke(n, _) => s.layer.Open? && n in s.layer.waiting && n in job.steps
    case Commit(n) => s.layer.Open? && n in s.layer.invoked
    case End => s.layer.Open? && s.layer.waiting == {} && s.layer.invoked == map[]
    case Cancel => true
  }

  /** `Begin` is the head of the loop over layers, `Invoke` and `Commit` the two halves of a goroutine
      (or of the direct call when the layer has one step), `End` what follows `wg.Wait`. */
  function Fire(job: Job, s: State, ev: Event): State
    requires Enabled(job, s, ev)
  {
    match ev
    case Begin =>
      if s.next >= |job.order| then s.(status := Completed)
      else if s.cancelled then s.(status := Cancelled)
      else s.(layer := Open(set v | v in job.order[s.next], map[], s.outputs))
    case Invoke(n, reply) =>
      var r := StepOutcome(job.steps[n], reply);
      s.(layer := s.layer.(waiting := s.layer.waiting - {n}, invoked := s.layer.invoked[n := r]))
    case Commit(n) =>
      var r := s.layer.invoked[n];
      var t := s.(layer := s.layer.(invoked := s.layer.invoked - {n}), results := s.results[n := r],
                  total := AddTokens(s.total, r.tokens));
      if r.failed then t.(failed := true, cancelled := true) else t.(outputs := t.outputs[n := r.output])
    case End =>
      if s.failed then s.(status := Failed, layer := Idle) else s.(next := s.next + 1, layer := Idle)
    case Cancel => s.(cancelled := true)
  }

  /** s is reached by the events of one interleaving. */
  ghost predicate RunsTo(job: Job, events: seq<Event>, s: State) {
    if events == [] then s == Init(job) else
      var last := |events| - 1;
      exists prev :: RunsTo(job, events[..last], prev) && Enabled(job, prev, events[last])
        && s == Fire(job, prev, events[last])
  }

  // ---- What every interleaving keeps, for any invoker and any cancellation ----

  function SumTokens(names: seq<string>, results: map<string, StepResult>): TokenUsage {
    if names == [] then ZERO else
      AddTokens(if names[0] in results then results[names[0]].tokens else ZERO, SumTokens(names[1..], results))
  }

  function Flat(order: seq<seq<string>>): seq<string> {
    if order == [] then [] else order[0] + Flat(order[1..])
  }

  ghost function InFlight(layer: Layer): set<string> {
    if layer.Open? then layer.waiting + layer.invoked.Keys else {}
  }

  /** The steps of the first k layers. */
  ghost function Ran(order: seq<seq<string>>, k: nat): set<string>
    requires k <= |order|
  {
    if k == 0 then {} else Ran(order, k - 1) + Members(order[k - 1])
  }

  lemma {:induction false} RanLayers(order: seq<seq<string>>, k: nat)
    requires k <= |order|
    ensures forall v :: v in Ran(order, k) <==> InLayers(order[..k], v)
  {
    if k > 0 {
      RanLayers(order, k - 1);
      forall v ensures v in Ran(order, k) <==> InLayers(order[..k], v) {
        if InLayers(order[..k - 1], v) {
          var j :| 0 <= j < |order[..k - 1]| && v in order[..k - 1][j];
          assert v in order[..k][j];
        }
        if v in order[k - 1] {
          assert v in order[..k][k - 1];
        }
      }
    }
  }

  lemma RanFresh(job: Job, k: nat)
    requires WellOrdered(job) && k < |job.order|
    ensures Ran(job.order, k) !! Members(job.order[k])
  {
    RanLayers(job.order, k);
  }

  /** The recorded steps are those of the finished layers and the committed part of the open one; on
      failure the failing layer has been recorded completely and nothing beyond it. */
  ghost predicate Recorded(job: Job, s: State) {
    && s.next <= |job.order|
    && (s.status == Completed ==> s.next == |job.order|)
    && if s.layer.Open? then
         s.status == Running && OpenRecorded(job.order, s.next, s.layer, s.results.Keys)
       else if s.status == Failed then
         s.next < |job.order| && s.results.Keys == Ran(job.order, s.next + 1)
       else
         s.results.Keys == Ran(job.order, s.next)
  }

  ghost predicate AnyFailed(results: map<string, StepResult>) {
    exists v :: v in results && results[v].failed
  }

  /** Failure is exactly what the results show, and it stops the run at the end of its layer. */
  ghost predicate FailFast(s: State) {
    && (s.failed <==> AnyFailed(s.results))
    && (s.failed ==> s.cancelled && (s.layer.Open? || s.status == Failed))
    && (s.status == Failed ==> s.failed)
  }

  /** The outputs later steps see: the trigger input, overwritten by the successful results. */
  ghost function OutputsOf(trigger: string, results: map<string, StepResult>): map<string, string> {
    map["trigger" := trigger] + map v | v in results && !results[v].failed :: results[v].output
  }

  ghost predicate OpenRecorded(order: seq<seq<string>>, next: nat, layer: Layer, recorded: set<string>) {
    && layer.Open? && next < |order|
    && layer.waiting !! layer.invoked.Keys
    && InFlight(layer) <= Members(order[next])
    && recorded == Ran(order, next + 1) - InFlight(layer)
  }

  lemma InvokeRecorded(order: seq<seq<string>>, next: nat, layer: Layer, recorded: set<string>, n: string,
                       r: StepResult)
    requires OpenRecorded(order, next, layer, recorded) && n in layer.waiting
    ensures OpenRecorded(order, next, layer.(waiting := layer.waiting - {n}, invoked := layer.invoked[n := r]),
                         recorded)
  {
    var t := layer.(waiting := layer.waiting - {n}, invoked := layer.invoked[n := r]);
    assert InFlight(t) == InFlight(layer);
  }

  lemma CommitRecorded(order: seq<seq<string>>, next: nat, layer: Layer, recorded: set<string>, n: string)
    requires OpenRecorded(order, next, layer, recorded) && n in layer.invoked
    ensures n !in recorded
    ensures OpenRecorded(order, next, layer.(invoked := layer.invoked - {n}), recorded + {n})
  {
    var t := layer.(invoked := layer.invoked - {n});
    assert InFlight(layer) == InFlight(t) + {n} && n !in InFlight(t);
    assert n in Members(order[next]);
  }

  lemma BeginRecorded(job: Job, k: nat, outputs: map<string, string>)
    requires WellOrdered(job) && k < |job.order|
    ensures OpenRecorded(job.order, k, Open(set v | v in job.order[k], map[], outputs), Ran(job.order, k))
  {
    RanFresh(job, k);
    var l := Open(set v | v in job.order[k], map[], outputs);
    assert InFlight(l) == Members(job.order[k]);
  }

  lemma FireRecorded(job: Job, s: State, ev: Event)
    requires WellOrdered(job) && Recorded(job, s) && FailFast(s) && Enabled(job, s, ev)
    ensures Recorded(job, Fire(job, s, ev))
  {
    hide WellOrdered, Ran, Members, StepOutcome;
    var t := Fire(job, s, ev);
    match ev {
      case Begin =>
        if s.next < |job.order| {
          BeginRecorded(job, s.next, s.outputs);
        }
      case Invoke(n, _) =>
        InvokeRecorded(job.order, s.next, s.layer, s.results.Keys, n, t.layer.invoked[n]);
      case Commit(n) =>
        CommitRecorded(job.order, s.next, s.layer, s.results.Keys, n);
        assert t.results.Keys == s.results.Keys + {n};
      case End =>
        assert InFlight(s.layer) == {};
      case Cancel =>
    }
  }

  lemma FireFailFast(job: Job, s: State, ev: Event)
    requires Recorded(job, s) && FailFast(s) && Enabled(job, s, ev)
    ensures FailFast(Fire(job, s, ev))
  {
    hide Ran, Members, StepOutcome, AnyFailed;
    if ev.Commit? {
      CommitRecorded(job.order, s.next, s.layer, s.results.Keys, ev.name);
      CommitFailed(s.results, ev.name, s.layer.invoked[ev.name]);
    }
  }

  lemma CommitFailed(results: map<string, StepResult>, n: string, r: StepResult)
    requires n !in results
    ensures AnyFailed(results[n := r]) <==> AnyFailed(results) || r.failed
  {
    var after := results[n := r];
    if AnyFailed(results) {
      var v :| v in results && results[v].failed;
      assert v in after && after[v].failed;
    }
    if r.failed {
      assert n in after && after[n].failed;
    }
  }

  lemma CommitOutputs(trigger: string, results: map<string, StepResult>, n: string, r: StepResult)
    requires n !in results
    ensures OutputsOf(trigger, results[n := r]) ==
            if r.failed then OutputsOf(trigger, results) else OutputsOf(trigger, results)[n := r.output]
  {
  }

  ghost predicate AtMostOnce(names: seq<string>, n: string) {
    forall i, j :: 0 <= i < j < |names| ==> names[i] != n || names[j] != n
  }

  lemma {:induction false} SumOther(names: seq<string>, results: map<string, StepResult>, n: string, r: StepResult)
    requires n !in results && n !in names
    ensures SumTokens(names, results[n := r]) == SumTokens(names, results)
  {
    hide AddTokens;
    if names != [] {
      SumOther(names[1..], results, n, r);
    }
  }

  lemma AddMiddle(a: TokenUsage, b: TokenUsage, c: TokenUsage)
    ensures AddTokens(a, AddTokens(b, c)) == AddTokens(AddTokens(a, b), c)
    ensures AddTokens(ZERO, a) == a && AddTokens(a, b) == AddTokens(b, a)
  {
  }

  lemma OnceRest(names: seq<string>, n: string)
    requires names != [] && AtMostOnce(names, n)
    ensures AtMostOnce(names[1..], n) && (names[0] == n ==> n !in names[1..])
    ensures n in names <==> n == names[0] || n in names[1..]
  {
    var rest := names[1..];
    assert forall i :: 0 <= i < |rest| ==> rest[i] == names[i + 1];
    assert names == [names[0]] + rest;
  }

  lemma {:induction false} SumUpdate(names: seq<string>, results: map<string, StepResult>, n: string, r: StepResult)
    requires n !in results && AtMostOnce(names, n)
    ensures SumTokens(names, results[n := r]) ==
            AddTokens(SumTokens(names, results), if n in names then r.tokens else ZERO)
  {
    hide SumTokens, AtMostOnce, AddTokens;
    SumUnfold(names, results);
    SumUnfold(names, results[n := r]);
    if names == [] {
      AddMiddle(ZERO, ZERO, ZERO);
    } else {
      var rest := names[1..];
      OnceRest(names, n);
      var before := SumTokens(rest, results);
      if names[0] == n {
        SumOther(rest, results, n, r);
        AddMiddle(before, r.tokens, ZERO);
        AddMiddle(r.tokens, before, ZERO);
      } else {
        SumUpdate(rest, results, n, r);
        AddMiddle(if names[0] in results then results[names[0]].tokens else ZERO, before,
                  if n in names then r.tokens else ZERO);
      }
    }
  }

  lemma SumUnfold(names: seq<string>, results: map<string, StepResult>)
    ensures SumTokens(names, results) ==
            if names == [] then ZERO
            else AddTokens(if names[0] in results then results[names[0]].tokens else ZERO,
                           SumTokens(names[1..], results))
  {
  }

  /** Every step is listed once in the flattened order. */
  lemma {:induction false} FlatOnce(job: Job, j: nat, v: string)
    requires WellOrdered(job) && j <= |job.order|
    ensures AtMostOnce(Flat(job.order[j..]), v)
    ensures v in Flat(job.order[j..]) ==> exists k :: j <= k < |job.order| && v in job.order[k]
    ensures (exists k :: j <= k < |job.order| && v in job.order[k]) ==> v in Flat(job.order[j..])
    decreases |job.order| - j
  {
    if j < |job.order| {
      FlatOnce(job, j + 1, v);
      assert job.order[j..][1..] == job.order[j + 1..];
      assert Flat(job.order[j..]) == job.order[j] + Flat(job.order[j + 1..]);
      assert AtMostOnce(job.order[j], v);
      OnceConcat(job.order[j], Flat(job.order[j + 1..]), v);
    }
  }

  lemma OnceConcat(a: seq<string>, b: seq<string>, v: string)
    requires AtMostOnce(a, v) && AtMostOnce(b, v) && !(v in a && v in b)
    ensures AtMostOnce(a + b, v)
  {
    forall i, j | 0 <= i < j < |a + b| ensures (a + b)[i] != v || (a + b)[j] != v {
      if j >= |a| && i >= |a| {
        assert b[i - |a|] != v || b[j - |a|] != v;
      } else if j >= |a| {
        assert (a + b)[i] == a[i] && (a + b)[j] == b[j - |a|];
      }
    }
  }

  lemma AscendingOnce(s: seq<string>, v: string)
    requires Ascending(s)
    ensures AtMostOnce(s, v)
  {
    LessIrreflexive(v);
  }

  /** Tokens are conserved, outputs are the recorded ones. */
  ghost predicate Tallied(job: Job, s: State) {
    && s.total == SumTokens(Flat(job.order), s.results)
    && s.outputs == OutputsOf(job.trigger, s.results)
  }

  lemma FireTallied(job: Job, s: State, ev: Event)
    requires WellOrdered(job) && Recorded(job, s) && Tallied(job, s) && Enabled(job, s, ev)
    ensures Tallied(job, Fire(job, s, ev))
  {
    hide Ran, Members, StepOutcome, OutputsOf, WellOrdered, SumTokens;
    if ev.Commit? {
      CommitRecorded(job.order, s.next, s.layer, s.results.Keys, ev.name);
      var r := s.layer.invoked[ev.name];
      CommitOutputs(job.trigger, s.results, ev.name, r);
      FlatOnce(job, 0, ev.name);
      assert job.order[0..] == job.order;
      CurrentListed(job, s, ev.name);
      SumUpdate(Flat(job.order), s.results, ev.name, r);
    }
  }

  lemma CurrentListed(job: Job, s: State, n: string)
    requires WellOrdered(job) && s.layer.Open? && OpenRecorded(job.order, s.next, s.layer, s.results.Keys)
    requires n in InFlight(s.layer)
    ensures n in Flat(job.order)
  {
    FlatOnce(job, 0, n);
    assert job.order[0..] == job.order;
    assert n in job.order[s.next];
  }

  ghost predicate FailuresAreCurrent(job: Job, s: State)
    requires s.next <= |job.order|
  {
    forall v :: v in s.results && s.results[v].failed ==> v !in Ran(job.order, s.next)
  }

  ghost predicate Inv(job: Job, s: State) {
    Recorded(job, s) && FailFast(s) && Tallied(job, s) && FailuresAreCurrent(job, s)
  }

  lemma FireFailuresAreCurrent(job: Job, s: State, ev: Event)
    requires WellOrdered(job) && Recorded(job, s) && FailFast(s) && FailuresAreCurrent(job, s) && Enabled(job, s, ev)
    requires Fire(job, s, ev).next <= |job.order|
    ensures FailuresAreCurrent(job, Fire(job, s, ev))
  {
    hide Ran, StepOutcome, WellOrdered;
    if ev.Commit? {
      RanFresh(job, s.next);
    }
  }

  /** Holds in every state of every interleaving, whatever the invoker answers and whenever the
      context is cancelled from outside. */
  lemma {:induction false} EveryRun(job: Job, events: seq<Event>, s: State)
    requires WellOrdered(job) && RunsTo(job, events, s)
    ensures Inv(job, s)
  {
    if events == [] {
      InitInv(job);
    } else {
      var last := |events| - 1;
      var prev :| RunsTo(job, events[..last], prev) && Enabled(job, prev, events[last])
                  && s == Fire(job, prev, events[last]);
      EveryRun(job, events[..last], prev);
      FireInv(job, prev, events[last]);
    }
  }

  lemma FireInv(job: Job, s: State, ev: Event)
    requires WellOrdered(job) && Inv(job, s) && Enabled(job, s, ev)
    ensures Inv(job, Fire(job, s, ev))
  {
    hide WellOrdered, Recorded, FailFast, Tallied, FailuresAreCurrent, StepOutcome;
    FireRecorded(job, s, ev);
    FireFailFast(job, s, ev);
    FireTallied(job, s, ev);
    NextInRange(job, Fire(job, s, ev));
    FireFailuresAreCurrent(job, s, ev);
  }

  lemma NextInRange(job: Job, s: State)
    requires Recorded(job, s)
    ensures s.next <= |job.order|
  {
  }

  lemma {:induction false} SumNone(names: seq<string>)
    ensures SumTokens(names, map[]) == ZERO
  {
    if names != [] {
      SumNone(names[1..]);
    }
  }

  lemma InitInv(job: Job)
    ensures Inv(job, Init(job))
  {
    hide SumTokens, OutputsOf, Flat;
    SumNone(Flat(job.order));
    NoOutputs(job.trigger);
  }

  lemma NoOutputs(trigger: string)
    ensures OutputsOf(trigger, map[]) == map["trigger" := trigger]
  {
  }

  /** When a run is over: it completed, with every step recorded and none failed; or some step of layer
      `next` failed, all of that layer was recorded and nothing later ran; or it was cancelled from
      outside between layers. The token total is the sum over the recorded steps in all cases. */
  lemma RunOutcome(job: Job, events: seq<Event>, s: State)
    requires WellOrdered(job) && RunsTo(job, events, s)
    ensures s.total == SumTokens(Flat(job.order), s.results)
    ensures s.status == Completed ==> s.results.Keys == Ran(job.order, |job.order|) && !AnyFailed(s.results)
    ensures s.status == Failed ==>
              && AnyFailed(s.results) && s.next < |job.order|
              && s.results.Keys == Ran(job.order, s.next + 1)
              && (forall v :: v in s.results && s.results[v].failed ==> v in job.order[s.next])
    ensures s.status == Cancelled ==> !AnyFailed(s.results) && s.results.Keys == Ran(job.order, s.next)
  {
    EveryRun(job, events, s);
  }

  // ---- Every run ends ----

  /** What the reply of an invocation would be if the invoker gave it. */
  ghost predicate Honest(job: Job, s: State, ev: Event) {
    ev.Invoke? && s.layer.Open? && ev.name in job.steps ==>
      ev.reply == Replied(job, job.steps[ev.name], s.layer.snapshot, s.cancelled)
  }

  lemma WaitingKnown(job: Job, s: State, n: string)
    requires WellOrdered(job) && Recorded(job, s) && s.layer.Open? && n in s.layer.waiting
    ensures n in job.steps
  {
    hide Ran;
    assert n in InFlight(s.layer);
    assert n in job.order[s.next];
  }

  /** While a run is running, the layer loop or some goroutine can move. */
  lemma NextMove(job: Job, s: State) returns (ev: Event)
    requires WellOrdered(job) && Recorded(job, s) && s.status == Running
    ensures ev != Cancel && Enabled(job, s, ev) && Honest(job, s, ev)
  {
    hide WellOrdered, Recorded, Replied;
    if s.layer.Idle? {
      ev := Begin;
    } else if s.layer.waiting != {} {
      var n :| n in s.layer.waiting;
      WaitingKnown(job, s, n);
      ev := Invoke(n, Replied(job, job.steps[n], s.layer.snapshot, s.cancelled));
    } else if s.layer.invoked != map[] {
      var n :| n in s.layer.invoked;
      ev := Commit(n);
    } else {
      ev := End;
    }
  }

  /** No interleaving gets stuck. */
  lemma Progress(job: Job, events: seq<Event>, s: State)
    requires WellOrdered(job) && RunsTo(job, events, s) && s.status == Running
    ensures exists ev :: ev != Cancel && Enabled(job, s, ev)
  {
    hide WellOrdered, RunsTo, Recorded, Enabled, Tallied, FailFast;
    EveryRun(job, events, s);
    var ev := NextMove(job, s);
  }

  /** Two events for every step and two for every layer from k on. */
  ghost function LayersLeft(order: seq<seq<string>>, k: nat): nat
    requires k <= |order|
    decreases |order| - k
  {
    if k == |order| then 0 else 2 * |Members(order[k])| + 2 + LayersLeft(order, k + 1)
  }

  /** An upper bound on the events other than Cancel that are still to come. */
  ghost function Left(job: Job, s: State): nat
    requires InRangeOf(job, s)
  {
    if s.status != Running then 0
    else if s.layer.Idle? then 1 + LayersLeft(job.order, s.next)
    else 2 + 2 * |s.layer.waiting| + |s.layer.invoked.Keys| + LayersLeft(job.order, s.next + 1)
  }

  lemma InRange(job: Job, s: State)
    requires Recorded(job, s)
    ensures InRangeOf(job, s)
  {
    hide Ran;
  }

  lemma OneInvoked(waiting: set<string>, invoked: map<string, StepResult>, n: string, r: StepResult)
    requires n in waiting
    ensures |waiting - {n}| == |waiting| - 1 && |invoked[n := r].Keys| <= |invoked.Keys| + 1
  {
    assert invoked[n := r].Keys == invoked.Keys + {n};
  }

  lemma OneCommitted(invoked: map<string, StepResult>, n: string)
    requires n in invoked
    ensures |(invoked - {n}).Keys| == |invoked.Keys| - 1
  {
    assert (invoked - {n}).Keys == invoked.Keys - {n};
  }

  ghost predicate InRangeOf(job: Job, s: State) {
    s.next <= |job.order| && (s.layer.Open? ==> s.next < |job.order|)
  }

  lemma BeginLowers(job: Job, s: State)
    requires InRangeOf(job, s) && Enabled(job, s, Begin) && InRangeOf(job, Fire(job, s, Begin))
    ensures Left(job, Fire(job, s, Begin)) < Left(job, s)
  {
    if s.next < |job.order| {
      assert (set v | v in job.order[s.next]) == Members(job.order[s.next]);
    }
  }

  lemma InvokeLowers(job: Job, s: State, n: string, reply: Reply)
    requires InRangeOf(job, s) && Enabled(job, s, Invoke(n, reply)) && InRangeOf(job, Fire(job, s, Invoke(n, reply)))
    ensures Left(job, Fire(job, s, Invoke(n, reply))) < Left(job, s)
  {
    hide LayersLeft, StepOutcome;
    OneInvoked(s.layer.waiting, s.layer.invoked, n, StepOutcome(job.steps[n], reply));
  }

  lemma CommitLowers(job: Job, s: State, n: string)
    requires InRangeOf(job, s) && Enabled(job, s, Commit(n)) && InRangeOf(job, Fire(job, s, Commit(n)))
    ensures Left(job, Fire(job, s, Commit(n))) < Left(job, s)
  {
    hide LayersLeft, AddTokens;
    OneCommitted(s.layer.invoked, n);
  }

  lemma EndLowers(job: Job, s: State)
    requires InRangeOf(job, s) && Enabled(job, s, End) && InRangeOf(job, Fire(job, s, End))
    ensures Left(job, Fire(job, s, End)) < Left(job, s)
  {
    hide LayersLeft;
  }

  lemma CancelKeeps(job: Job, s: State)
    requires InRangeOf(job, s) && Enabled(job, s, Cancel)
    ensures InRangeOf(job, Fire(job, s, Cancel)) && Left(job, Fire(job, s, Cancel)) == Left(job, s)
  {
    hide LayersLeft;
  }

  /** Every event but Cancel uses one up, and Cancel none. */
  lemma FireLowers(job: Job, s: State, ev: Event)
    requires WellOrdered(job) && Inv(job, s) && Enabled(job, s, ev)
    ensures InRangeOf(job, s) && InRangeOf(job, Fire(job, s, ev))
    ensures if ev == Cancel then Left(job, Fire(job, s, ev)) == Left(job, s)
            else Left(job, Fire(job, s, ev)) < Left(job, s)
  {
    hide WellOrdered, Recorded, FailFast, Tallied, Fire, Left, Enabled;
    FireRecorded(job, s, ev);
    InRange(job, s);
    InRange(job, Fire(job, s, ev));
    match ev
    case Begin => BeginLowers(job, s);
    case Invoke(n, reply) => InvokeLowers(job, s, n, reply);
    case Commit(n) => CommitLowers(job, s, n);
    case End => EndLowers(job, s);
    case Cancel => CancelKeeps(job, s);
  }

  /** The events of a run that are not cancellations from outside. */
  ghost function Moves(events: seq<Event>): nat {
    if events == [] then 0
    else Moves(events[..|events| - 1]) + if events[|events| - 1] == Cancel then 0 else 1
  }

  /** Every run is short: at most two events for every step and two for every layer, and one more. */
  lemma {:induction false} RunsEnd(job: Job, events: seq<Event>, s: State)
    requires WellOrdered(job) && RunsTo(job, events, s)
    ensures InRangeOf(job, s) && Moves(events) + Left(job, s) <= 1 + LayersLeft(job.order, 0)
  {
    EveryRun(job, events, s);
    hide WellOrdered, Recorded, FailFast, Tallied, LayersLeft, Enabled, Fire;
    InRange(job, s);
    if events != [] {
      var last := |events| - 1;
      var prev :| RunsTo(job, events[..last], prev) && Enabled(job, prev, events[last])
                  && s == Fire(job, prev, events[last]);
      EveryRun(job, events[..last], prev);
      RunsEnd(job, events[..last], prev);
      FireLowers(job, prev, events[last]);
    } else {
      assert s == Init(job);
    }
  }
}
