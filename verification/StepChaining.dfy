/** What the steps of a pipeline are invoked with and what becomes of the replies, said of whole runs and of the
    job's own fields. */
module StepChaining {
  import opened Dag
  import opened Pipeline
  import opened PipelineDeterminism

  // ---- Inputs ----

  /** What the steps of an open layer see: the outputs of all layers before it, and the trigger. */
  ghost predicate Sees(job: Job, s: State) {
    s.layer.Open? && s.next <= |job.order| ==>
      var done, seen := Ran(job.order, s.next), s.layer.snapshot;
      && (forall v :: v in seen <==> v == "trigger" || v in done)
      && (forall v :: v in done ==> v in s.results && !s.results[v].failed && seen[v] == s.results[v].output)
      && ("trigger" !in done ==> seen["trigger"] == job.trigger)
  }

  lemma BeginSees(job: Job, s: State)
    requires Inv(job, s) && Enabled(job, s, Begin)
    ensures Sees(job, Fire(job, s, Begin))
  {
    hide Ran, SumTokens, Flat, FailFast, OpenRecorded, OutputsOf;
    assert s.results.Keys == Ran(job.order, s.next);
    AllSeen(job.trigger, s.results, Ran(job.order, s.next));
  }

  lemma AllSeen(trigger: string, results: map<string, StepResult>, done: set<string>)
    requires results.Keys == done && forall v :: v in results ==> !results[v].failed
    ensures var seen := OutputsOf(trigger, results);
            && (forall v :: v in seen <==> v == "trigger" || v in done)
            && (forall v :: v in done ==> seen[v] == results[v].output)
            && ("trigger" !in done ==> seen["trigger"] == trigger)
  {
    assert forall v :: v in results <==> v in results.Keys;
  }

  lemma CommitSees(job: Job, s: State, n: string)
    requires Sees(job, s) && Inv(job, s) && Enabled(job, s, Commit(n))
    ensures Sees(job, Fire(job, s, Commit(n)))
  {
    hide Ran, SumTokens, Flat, FailFast, Tallied, FailuresAreCurrent, AddTokens;
    assert n in InFlight(s.layer);
    assert n !in s.results.Keys;
  }

  lemma FireSees(job: Job, s: State, ev: Event)
    requires Sees(job, s) && Inv(job, s) && Enabled(job, s, ev)
    ensures Sees(job, Fire(job, s, ev))
  {
    hide Ran, Inv, StepOutcome, AddTokens;
    match ev
    case Begin => BeginSees(job, s);
    case Commit(n) => CommitSees(job, s, n);
    case Invoke(_, _) =>
    case End =>
    case Cancel =>
  }

  lemma {:induction false} RunSees(job: Job, events: seq<Event>, s: State)
    requires WellOrdered(job) && RunsTo(job, events, s)
    ensures Sees(job, s)
  {
    hide WellOrdered, Inv, RunsTo, Enabled, Fire;
    if events == [] {
      NoEvents(job, s);
    } else {
      hide Sees;
      var last := |events| - 1;
      var prev := LastEvent(job, events, s);
      EveryRun(job, events[..last], prev);
      RunSees(job, events[..last], prev);
      FireSees(job, prev, events[last]);
    }
  }

  /** In every run, failed and cancelled ones included, the text a step's agent is given is the step's own input;
      without one, the output of its first dependency, which has succeeded by then; and if there is none or it is empty,
      what triggered the pipeline, or the output of a step named trigger in an earlier layer. */
  lemma InvokedWith(job: Job, events: seq<Event>, s: State, n: string, reply: Reply)
    requires WellOrdered(job) && RunsTo(job, events, s)
    requires Enabled(job, s, Invoke(n, reply)) && Honest(job, s, Invoke(n, reply))
    ensures s.next <= |job.order| && job.steps[n].name == n
    ensures forall d :: d in job.steps[n].dependsOn ==> d in s.results && !s.results[d].failed
    ensures "trigger" in Ran(job.order, s.next) ==> "trigger" in s.results && !s.results["trigger"].failed
    ensures var step := job.steps[n];
            var text :=
              if step.input != "" then step.input
              else if |step.dependsOn| > 0 && s.results[step.dependsOn[0]].output != ""
              then s.results[step.dependsOn[0]].output
              else if "trigger" in Ran(job.order, s.next) then s.results["trigger"].output
              else job.trigger;
            reply == job.invoke(step.agentRef, text, s.cancelled)
  {
    hide WellOrdered, Inv, RunsTo, Ran, Sees, Honest;
    EveryRun(job, events, s);
    RunSees(job, events, s);
    InvokedIsListed(job, s, n, reply);
    SeenText(job, s, n, reply);
  }

  lemma SeenText(job: Job, s: State, n: string, reply: Reply)
    requires Sees(job, s) && Enabled(job, s, Invoke(n, reply)) && Honest(job, s, Invoke(n, reply))
    requires s.next <= |job.order| && forall d :: d in job.steps[n].dependsOn ==> d in Ran(job.order, s.next)
    ensures forall d :: d in job.steps[n].dependsOn ==> d in s.results && !s.results[d].failed
    ensures "trigger" in Ran(job.order, s.next) ==> "trigger" in s.results && !s.results["trigger"].failed
    ensures var step := job.steps[n];
            var text :=
              if step.input != "" then step.input
              else if |step.dependsOn| > 0 && s.results[step.dependsOn[0]].output != ""
              then s.results[step.dependsOn[0]].output
              else if "trigger" in Ran(job.order, s.next) then s.results["trigger"].output
              else job.trigger;
            reply == job.invoke(step.agentRef, text, s.cancelled)
  {
    hide Ran;
  }

  lemma InvokedIsListed(job: Job, s: State, n: string, reply: Reply)
    requires WellOrdered(job) && Inv(job, s) && Enabled(job, s, Invoke(n, reply))
    ensures s.next < |job.order| && n in job.order[s.next] && job.steps[n].name == n
    ensures forall d :: d in job.steps[n].dependsOn ==> d in Ran(job.order, s.next)
  {
    hide FailFast, Tallied, FailuresAreCurrent, Ran;
    assert n in InFlight(s.layer);
    assert n in job.order[s.next];
    RanLayers(job.order, s.next);
  }


  /** The step's output is what its agent answers to text. */
  ghost predicate Answers(job: Job, step: Step, outputs: map<string, string>, text: string) {
    var reply := job.invoke(step.agentRef, text, false);
    reply.Answer? && step.name in outputs && outputs[step.name] == reply.output
  }

  /** In every finished run a step is invoked with its own input; without one, with the output of its first
      dependency; and if that is missing or empty, with the text that triggered the pipeline. */
  lemma InputsChain(job: Job, events: seq<Event>, s: State, k: nat, v: string)
    requires WellOrdered(job) && Known(job) && Dependable(job) && Harmless(job)
    requires Cancel !in events && RunsHonestly(job, events, s) && s.status != Running
    requires k < |job.order| && v in job.order[k]
    ensures v in job.steps && job.steps[v].name == v
    ensures job.steps[v].input != "" ==> Answers(job, job.steps[v], s.outputs, job.steps[v].input)
    ensures job.steps[v].input == "" && job.steps[v].dependsOn != [] ==>
              var first := job.steps[v].dependsOn[0];
              && first in s.outputs
              && Answers(job, job.steps[v], s.outputs, if s.outputs[first] != "" then s.outputs[first] else job.trigger)
    ensures job.steps[v].input == "" && job.steps[v].dependsOn == [] ==>
              Answers(job, job.steps[v], s.outputs, job.trigger)
  {
    StepNamed(job, k, v);
    hide WellOrdered, Known, Dependable, Harmless, RunsHonestly, Results, OutputsOf, SumTokens, Flat;
    Confluence(job, events, s);
    LayeredFixpoint(job, k, v);
    if |job.steps[v].dependsOn| > 0 {
      DependencyRan(job, k, v);
    }
  }

  lemma StepNamed(job: Job, k: nat, v: string)
    requires WellOrdered(job) && k < |job.order| && v in job.order[k]
    ensures v in job.steps && job.steps[v].name == v
  {
  }

  lemma DependencyRan(job: Job, k: nat, v: string)
    requires WellOrdered(job) && Known(job) && Dependable(job)
    requires k < |job.order| && v in job.order[k] && v in job.steps && |job.steps[v].dependsOn| > 0
    ensures job.steps[v].dependsOn[0] in OutputsOf(job.trigger, Results(job, |job.order|))
  {
    hide Results, OutputsOf, Ran, Dependable, InLayers;
    var d := job.steps[v].dependsOn[0];
    assert InLayers(job.order[..k], d);
    RanLayers(job.order, k);
    ResultsKeys(job, k);
    ResultsGrow(job, k, |job.order|, d);
    OutputsAt(job, |job.order|, d);
  }

  /** One step of the sequential executor, from the outputs of the steps before it. */
  lemma SequentialStep(job: Job, decl: seq<Step>, text: string)
    requires decl != [] && RunSequential(job, decl[..|decl| - 1]).ok
    requires var step, outputs := decl[|decl| - 1], RunSequential(job, decl[..|decl| - 1]).outputs;
             || (step.input != "" && text == step.input)
             || (step.input == "" && |step.dependsOn| > 0 && step.dependsOn[0] in outputs
                 && outputs[step.dependsOn[0]] != "" && text == outputs[step.dependsOn[0]])
             || (step.input == "" && text == job.trigger
                 && (|step.dependsOn| > 0 && step.dependsOn[0] in outputs ==> outputs[step.dependsOn[0]] == ""))
    ensures var step, before := decl[|decl| - 1], RunSequential(job, decl[..|decl| - 1]);
            var reply := job.invoke(step.agentRef, text, false);
            if reply.Answer? then
              RunSequential(job, decl) ==
              Sequential(before.outputs[step.name := reply.output],
                         before.records[step.name := Done(step.agentRef, reply.output)], true)
            else
              RunSequential(job, decl) ==
              Sequential(before.outputs, before.records[step.name := Broke(step.agentRef, reply.error)], false)
  {
  }

  lemma {:induction false} SequentialKeeps(job: Job, decl: seq<Step>, i: nat, x: string)
    requires i <= |decl| && RunSequential(job, decl).ok
    requires forall j :: i <= j < |decl| ==> decl[j].name != x
    ensures RunSequential(job, decl[..i]).ok
    ensures x in RunSequential(job, decl).outputs <==> x in RunSequential(job, decl[..i]).outputs
    ensures x in RunSequential(job, decl).outputs ==>
              RunSequential(job, decl).outputs[x] == RunSequential(job, decl[..i]).outputs[x]
    decreases |decl|
  {
    hide StepInput;
    if i == |decl| {
      assert decl[..i] == decl;
    } else {
      var front := decl[..|decl| - 1];
      assert front[..i] == decl[..i];
      SequentialKeeps(job, front, i, x);
    }
  }

  /** The step's final output answers the text that it is given after the steps before it. */
  lemma SequentialAt(job: Job, decl: seq<Step>, i: nat, text: string)
    requires DistinctNames(decl) && i < |decl| && RunSequential(job, decl).ok
    requires var step, outputs := decl[i], RunSequential(job, decl[..i]).outputs;
             || (step.input != "" && text == step.input)
             || (step.input == "" && |step.dependsOn| > 0 && step.dependsOn[0] in outputs
                 && outputs[step.dependsOn[0]] != "" && text == outputs[step.dependsOn[0]])
             || (step.input == "" && text == job.trigger
                 && (|step.dependsOn| > 0 && step.dependsOn[0] in outputs ==> outputs[step.dependsOn[0]] == ""))
    ensures Answers(job, decl[i], RunSequential(job, decl).outputs, text)
  {
    hide RunSequential;
    var upto := decl[..i + 1];
    assert upto[..|upto| - 1] == decl[..i] && upto[|upto| - 1] == decl[i];
    PrefixOk(job, decl, i);
    PrefixOk(job, decl, i + 1);
    SequentialKeeps(job, decl, i + 1, decl[i].name);
    SequentialStep(job, upto, text);
  }

  /** What an earlier step stored is there when a later one runs, and at the end. */
  lemma SequentialStored(job: Job, decl: seq<Step>, j: nat, i: nat)
    requires DistinctNames(decl) && j < i <= |decl| && RunSequential(job, decl).ok
    ensures var early, late := RunSequential(job, decl[..i]).outputs, RunSequential(job, decl).outputs;
            decl[j].name in early && decl[j].name in late && early[decl[j].name] == late[decl[j].name]
  {
    hide RunSequential;
    PrefixOk(job, decl, i);
    SequentialHas(job, decl, j);
    SequentialKeeps(job, decl, j + 1, decl[j].name);
    assert decl[..i][..j + 1] == decl[..j + 1];
    SequentialKeeps(job, decl[..i], j + 1, decl[j].name);
  }

  /** The same for the sequential executor, on every declaration with distinct names that lists the first dependency
      of a step before it. */
  lemma SequentialChains(job: Job, decl: seq<Step>, i: nat)
    requires DistinctNames(decl) && i < |decl| && RunSequential(job, decl).ok
    requires decl[i].dependsOn != [] ==> exists j :: 0 <= j < i && decl[j].name == decl[i].dependsOn[0]
    ensures decl[i].input != "" ==> Answers(job, decl[i], RunSequential(job, decl).outputs, decl[i].input)
    ensures decl[i].input == "" && decl[i].dependsOn != [] ==>
              var first, outputs := decl[i].dependsOn[0], RunSequential(job, decl).outputs;
              && first in outputs
              && Answers(job, decl[i], outputs, if outputs[first] != "" then outputs[first] else job.trigger)
    ensures decl[i].input == "" && decl[i].dependsOn == [] ==>
              Answers(job, decl[i], RunSequential(job, decl).outputs, job.trigger)
  {
    hide RunSequential, DistinctNames, Answers;
    var step, outputs := decl[i], RunSequential(job, decl).outputs;
    if step.input != "" {
      SequentialAt(job, decl, i, step.input);
    } else if step.dependsOn != [] {
      var j :| 0 <= j < i && decl[j].name == step.dependsOn[0];
      SequentialStored(job, decl, j, i);
      SequentialAt(job, decl, i, if outputs[decl[j].name] != "" then outputs[decl[j].name] else job.trigger);
    } else {
      SequentialAt(job, decl, i, job.trigger);
    }
  }

  lemma {:induction false} PrefixOk(job: Job, decl: seq<Step>, i: nat)
    requires i <= |decl| && RunSequential(job, decl).ok
    ensures RunSequential(job, decl[..i]).ok
    decreases |decl|
  {
    hide StepInput;
    if i == |decl| {
      assert decl[..i] == decl;
    } else {
      var front := decl[..|decl| - 1];
      assert front[..i] == decl[..i];
      PrefixOk(job, front, i);
    }
  }

  lemma SequentialHas(job: Job, decl: seq<Step>, i: nat)
    requires i < |decl| && RunSequential(job, decl).ok
    ensures decl[i].name in RunSequential(job, decl[..i + 1]).outputs
  {
    hide StepInput;
    PrefixOk(job, decl, i + 1);
    var upto := decl[..i + 1];
    assert upto[..|upto| - 1] == decl[..i] && upto[|upto| - 1] == decl[i];
  }

  // ---- Replies ----

  /** What a step's result says of the reply its agent gave. */
  ghost predicate Carries(job: Job, r: StepResult, v: string, reply: Reply)
    requires v in job.steps
  {
    && r.name == job.steps[v].name && r.agentRef == job.steps[v].agentRef
    && (reply.Answer? ==> !r.failed && r.error == "" && r.output == reply.output && r.tokens == reply.tokens)
    && (reply.Failure? ==> r.failed && r.error == reply.error && r.output == "" && r.tokens == TokenUsage(0, 0, 0, 0))
  }

  /** The one reply that v got. */
  ghost predicate Got(events: seq<Event>, v: string, i: int) {
    && 0 <= i < |events| && events[i].Invoke? && events[i].name == v
    && forall j :: 0 <= j < |events| && events[j].Invoke? && events[j].name == v ==> j == i
  }

  ghost predicate Sourced(job: Job, events: seq<Event>, v: string, r: StepResult) {
    v in job.steps && exists i :: Got(events, v, i) && Carries(job, r, v, events[i].reply)
  }

  /** v has been invoked. */
  ghost predicate Asked(events: seq<Event>, v: string) {
    exists i :: 0 <= i < |events| && events[i].Invoke? && events[i].name == v
  }

  ghost predicate AllSourced(job: Job, events: seq<Event>, s: State) {
    && (forall v :: v in s.results ==> Sourced(job, events, v, s.results[v]))
    && (s.layer.Open? ==> forall v :: v in s.layer.invoked ==> Sourced(job, events, v, s.layer.invoked[v]))
    && (forall v :: Asked(events, v) ==> v in s.results || (s.layer.Open? && v in s.layer.invoked))
  }

  lemma SourcedMore(job: Job, events: seq<Event>, ev: Event, v: string, r: StepResult)
    requires Sourced(job, events, v, r) && !(ev.Invoke? && ev.name == v)
    ensures Sourced(job, events + [ev], v, r)
  {
    var i :| Got(events, v, i) && Carries(job, r, v, events[i].reply);
    assert (events + [ev])[i] == events[i];
    assert Got(events + [ev], v, i);
  }

  lemma AskedMore(events: seq<Event>, ev: Event, v: string)
    ensures Asked(events + [ev], v) <==> Asked(events, v) || (ev.Invoke? && ev.name == v)
  {
    var all := events + [ev];
    if Asked(events, v) {
      var i :| 0 <= i < |events| && events[i].Invoke? && events[i].name == v;
      assert all[i].Invoke? && all[i].name == v;
    }
    if ev.Invoke? && ev.name == v {
      assert all[|events|].Invoke? && all[|events|].name == v;
    }
  }

  lemma FirstAsked(job: Job, events: seq<Event>, n: string, reply: Reply)
    requires !Asked(events, n) && n in job.steps
    ensures Sourced(job, events + [Invoke(n, reply)], n, StepOutcome(job.steps[n], reply))
  {
    var all := events + [Invoke(n, reply)];
    assert all[|events|] == Invoke(n, reply);
    forall j | 0 <= j < |events| ensures !(all[j].Invoke? && all[j].name == n) {
      assert all[j] == events[j];
    }
    assert Got(all, n, |events|);
  }

  /** An event that is no invocation moves results about at most. */
  lemma QuietSourced(job: Job, events: seq<Event>, s: State, ev: Event)
    requires AllSourced(job, events, s) && Enabled(job, s, ev) && !ev.Invoke?
    ensures AllSourced(job, events + [ev], Fire(job, s, ev))
  {
    hide AllSourced, Enabled, Fire;
    SourcedStill(job, events, s, ev);
    FireQuiet(job, events + [ev], s, ev);
  }

  lemma SourcedStill(job: Job, events: seq<Event>, s: State, ev: Event)
    requires AllSourced(job, events, s) && !ev.Invoke?
    ensures AllSourced(job, events + [ev], s)
  {
    hide Sourced, Asked;
    forall v ensures Asked(events + [ev], v) <==> Asked(events, v) {
      AskedMore(events, ev, v);
    }
    forall v | v in s.results ensures Sourced(job, events + [ev], v, s.results[v]) {
      SourcedMore(job, events, ev, v, s.results[v]);
    }
    if s.layer.Open? {
      forall v | v in s.layer.invoked ensures Sourced(job, events + [ev], v, s.layer.invoked[v]) {
        SourcedMore(job, events, ev, v, s.layer.invoked[v]);
      }
    }
  }

  lemma FireQuiet(job: Job, events: seq<Event>, s: State, ev: Event)
    requires AllSourced(job, events, s) && Enabled(job, s, ev) && !ev.Invoke?
    ensures AllSourced(job, events, Fire(job, s, ev))
  {
    hide Sourced, Asked, AddTokens;
    if ev.Commit? {
      CommitQuiet(job, events, s, ev.name);
    }
  }

  lemma CommitQuiet(job: Job, events: seq<Event>, s: State, n: string)
    requires AllSourced(job, events, s) && Enabled(job, s, Commit(n))
    ensures AllSourced(job, events, Fire(job, s, Commit(n)))
  {
    hide Sourced, Asked, AddTokens, StepOutcome;
    var t := Fire(job, s, Commit(n));
    assert t.results == s.results[n := s.layer.invoked[n]] && t.layer.invoked == s.layer.invoked - {n};
  }

  lemma InvokeSourced(job: Job, events: seq<Event>, s: State, n: string, reply: Reply)
    requires AllSourced(job, events, s) && Enabled(job, s, Invoke(n, reply)) && n !in s.results && n !in s.layer.invoked
    ensures AllSourced(job, events + [Invoke(n, reply)], Fire(job, s, Invoke(n, reply)))
  {
    hide Sourced, Asked, StepOutcome;
    var ev := Invoke(n, reply);
    forall v ensures Asked(events + [ev], v) <==> Asked(events, v) || v == n {
      AskedMore(events, ev, v);
    }
    FirstAsked(job, events, n, reply);
    forall v | v in s.results ensures Sourced(job, events + [ev], v, s.results[v]) {
      SourcedMore(job, events, ev, v, s.results[v]);
    }
    forall v | v in s.layer.invoked ensures Sourced(job, events + [ev], v, s.layer.invoked[v]) {
      SourcedMore(job, events, ev, v, s.layer.invoked[v]);
    }
  }

  lemma FireSourced(job: Job, events: seq<Event>, s: State, ev: Event)
    requires AllSourced(job, events, s) && Enabled(job, s, ev)
    requires forall n :: s.layer.Open? && n in s.layer.waiting ==> n !in s.results && n !in s.layer.invoked
    ensures AllSourced(job, events + [ev], Fire(job, s, ev))
  {
    hide AllSourced, Fire;
    if ev.Invoke? {
      InvokeSourced(job, events, s, ev.name, ev.reply);
    } else {
      QuietSourced(job, events, s, ev);
    }
  }

  lemma WaitingFresh(job: Job, s: State)
    requires Recorded(job, s)
    ensures forall n :: s.layer.Open? && n in s.layer.waiting ==> n !in s.results && n !in s.layer.invoked
  {
    hide Ran;
  }

  lemma {:induction false} RunSourced(job: Job, events: seq<Event>, s: State)
    requires WellOrdered(job) && RunsTo(job, events, s)
    ensures AllSourced(job, events, s)
  {
    hide WellOrdered, Enabled, Fire, AllSourced, Recorded, FailFast, Tallied, FailuresAreCurrent;
    if events == [] {
      NothingSourced(job);
    } else {
      var last := |events| - 1;
      var prev :| RunsTo(job, events[..last], prev) && Enabled(job, prev, events[last])
                  && s == Fire(job, prev, events[last]);
      RunSourced(job, events[..last], prev);
      EveryRun(job, events[..last], prev);
      WaitingFresh(job, prev);
      FireSourced(job, events[..last], prev, events[last]);
      assert events[..last] + [events[last]] == events;
    }
  }

  lemma NothingSourced(job: Job)
    ensures AllSourced(job, [], Init(job))
  {
  }

  /** In every run, whatever happens, each recorded result carries the reply to the only invocation of its step. */
  lemma ResultsCarryReplies(job: Job, events: seq<Event>, s: State, v: string) returns (i: int)
    requires WellOrdered(job) && RunsTo(job, events, s) && v in s.results
    ensures v in job.steps && Got(events, v, i) && Carries(job, s.results[v], v, events[i].reply)
  {
    hide WellOrdered, RunsTo;
    RunSourced(job, events, s);
    i :| Got(events, v, i) && Carries(job, s.results[v], v, events[i].reply);
  }

  // ---- Token totals, field by field ----

  ghost function Sum(names: seq<string>, f: string -> int): int {
    if names == [] then 0 else f(names[0]) + Sum(names[1..], f)
  }

  ghost function Spent(results: map<string, StepResult>, v: string): TokenUsage {
    if v in results then results[v].tokens else TokenUsage(0, 0, 0, 0)
  }

  lemma {:induction false} SumByField(names: seq<string>, results: map<string, StepResult>)
    ensures SumTokens(names, results).input == Sum(names, v => Spent(results, v).input)
    ensures SumTokens(names, results).output == Sum(names, v => Spent(results, v).output)
    ensures SumTokens(names, results).cacheRead == Sum(names, v => Spent(results, v).cacheRead)
    ensures SumTokens(names, results).cacheWrite == Sum(names, v => Spent(results, v).cacheWrite)
  {
    if names != [] {
      SumByField(names[1..], results);
    }
  }

  /** In every run each of the four totals is the sum of that number over the recorded steps. */
  lemma TotalsByField(job: Job, events: seq<Event>, s: State)
    requires WellOrdered(job) && RunsTo(job, events, s)
    ensures s.total.input == Sum(Flat(job.order), v => Spent(s.results, v).input)
    ensures s.total.output == Sum(Flat(job.order), v => Spent(s.results, v).output)
    ensures s.total.cacheRead == Sum(Flat(job.order), v => Spent(s.results, v).cacheRead)
    ensures s.total.cacheWrite == Sum(Flat(job.order), v => Spent(s.results, v).cacheWrite)
  {
    hide WellOrdered, RunsTo, Sum, SumTokens, Flat;
    RunOutcome(job, events, s);
    SumByField(Flat(job.order), s.results);
  }

  // ---- Cancellation ----

  ghost predicate AskedToStop(s: State, asked: bool) {
    (s.cancelled <==> asked || s.failed) && (s.status == Cancelled ==> asked)
  }

  lemma FireStop(job: Job, s: State, ev: Event, asked: bool)
    requires FailFast(s) && AskedToStop(s, asked) && Enabled(job, s, ev)
    ensures AskedToStop(Fire(job, s, ev), asked || ev == Cancel)
  {
    hide AnyFailed, StepOutcome;
  }

  lemma LastEvent(job: Job, events: seq<Event>, s: State) returns (prev: State)
    requires events != [] && RunsTo(job, events, s)
    ensures var last := |events| - 1;
            RunsTo(job, events[..last], prev) && Enabled(job, prev, events[last]) && s == Fire(job, prev, events[last])
  {
    hide Enabled, Fire;
    var last := |events| - 1;
    prev :| RunsTo(job, events[..last], prev) && Enabled(job, prev, events[last]) && s == Fire(job, prev, events[last]);
  }

  lemma NoEvents(job: Job, s: State)
    requires RunsTo(job, [], s)
    ensures s == Init(job)
  {
  }

  lemma {:induction false} RunStop(job: Job, events: seq<Event>, s: State)
    requires WellOrdered(job) && RunsTo(job, events, s)
    ensures AskedToStop(s, Cancel in events)
  {
    hide WellOrdered, Enabled, Fire, FailFast, Recorded, Tallied, FailuresAreCurrent, RunsTo;
    if events == [] {
      NoEvents(job, s);
    } else {
      hide AskedToStop;
      var last := |events| - 1;
      var prev := LastEvent(job, events, s);
      EveryRun(job, events[..last], prev);
      RunStop(job, events[..last], prev);
      FireStop(job, prev, events[last], Cancel in events[..last]);
      assert events == events[..last] + [events[last]];
    }
  }

  /** The context is cancelled exactly once someone outside asked for it or a step failed, and a run that is given up
      for it is one that was cancelled from outside. */
  lemma CancelledExactly(job: Job, events: seq<Event>, s: State)
    requires WellOrdered(job) && RunsTo(job, events, s)
    ensures s.cancelled <==> Cancel in events || AnyFailed(s.results)
    ensures s.status == Cancelled ==> Cancel in events
  {
    hide WellOrdered, RunsTo, Recorded, Tallied, FailuresAreCurrent, AnyFailed;
    EveryRun(job, events, s);
    RunStop(job, events, s);
  }

  /** No layer that was not open when s0 was left is ever run. */
  ghost predicate Within(job: Job, s: State, k: nat) {
    s.cancelled && if s.layer.Open? || s.status == Failed then s.next + 1 <= k else s.next <= k
  }

  ghost function Reached(s0: State): nat {
    if s0.layer.Open? || s0.status == Failed then s0.next + 1 else s0.next
  }

  lemma FireWithin(job: Job, s: State, ev: Event, k: nat)
    requires Within(job, s, k) && Enabled(job, s, ev)
    ensures Within(job, Fire(job, s, ev), k)
  {
    hide StepOutcome;
  }

  lemma CancelWithin(job: Job, s: State)
    requires Enabled(job, s, Cancel)
    ensures Within(job, Fire(job, s, Cancel), Reached(s))
  {
    hide StepOutcome;
  }

  lemma {:induction false} RunWithin(job: Job, events: seq<Event>, n: nat, s0: State, s: State)
    requires n < |events| && events[n] == Cancel && RunsTo(job, events[..n], s0) && RunsTo(job, events, s)
    ensures Within(job, s, Reached(s0))
    decreases |events|
  {
    hide RunsTo, Enabled, Fire, Within, Reached;
    var last := |events| - 1;
    var prev := LastEvent(job, events, s);
    if n == last {
      RunsToOne(job, events[..n], s0, prev);
      CancelWithin(job, s0);
    } else {
      assert events[..last][..n] == events[..n];
      RunWithin(job, events[..last], n, s0, prev);
      FireWithin(job, prev, events[last], Reached(s0));
    }
  }

  /** The events determine the state. */
  lemma {:induction false} RunsToOne(job: Job, events: seq<Event>, s: State, t: State)
    requires RunsTo(job, events, s) && RunsTo(job, events, t)
    ensures s == t
  {
    hide Fire, Enabled;
    if events != [] {
      var last := |events| - 1;
      var p :| RunsTo(job, events[..last], p) && Enabled(job, p, events[last]) && s == Fire(job, p, events[last]);
      var q :| RunsTo(job, events[..last], q) && Enabled(job, q, events[last]) && t == Fire(job, q, events[last]);
      RunsToOne(job, events[..last], p, q);
    }
  }

  lemma {:induction false} RanGrows(order: seq<seq<string>>, j: nat, k: nat)
    requires j <= k <= |order|
    ensures Ran(order, j) <= Ran(order, k)
    decreases k
  {
    if j < k {
      RanGrows(order, j, k - 1);
    }
  }

  /** After a cancellation only the layer in progress is finished: whatever follows, nothing of a later layer is
      recorded. */
  lemma CancelStops(job: Job, events: seq<Event>, n: nat, s0: State, s: State)
    requires WellOrdered(job) && n < |events| && events[n] == Cancel
    requires RunsTo(job, events[..n], s0) && RunsTo(job, events, s)
    ensures var k := if s0.layer.Open? then s0.next + 1 else s0.next;
            k <= |job.order| && s.results.Keys <= Ran(job.order, k)
    ensures s.status == Completed ==> s0.next + 1 >= |job.order|
  {
    hide WellOrdered, RunsTo, Ran, FailFast, Tallied, FailuresAreCurrent;
    EveryRun(job, events[..n], s0);
    EveryRun(job, events, s);
    NotOver(job, events, n, s0, s);
    RunWithin(job, events, n, s0, s);
    var k := if s0.layer.Open? then s0.next + 1 else s0.next;
    RanGrows(job.order, if s.layer.Open? || s.status == Failed then s.next + 1 else s.next, k);
  }

  /** A run that goes on was running. */
  lemma {:induction false} NotOver(job: Job, events: seq<Event>, n: nat, s0: State, s: State)
    requires n < |events| && RunsTo(job, events[..n], s0) && RunsTo(job, events, s)
    ensures s0.status == Running
    decreases |events|
  {
    hide Fire;
    var last := |events| - 1;
    var prev := LastEvent(job, events, s);
    if n == last {
      RunsToOne(job, events[..n], s0, prev);
    } else {
      assert events[..last][..n] == events[..n];
      NotOver(job, events[..last], n, s0, prev);
    }
  }
}
