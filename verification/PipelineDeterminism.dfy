/** With an invoker that answers, every interleaving gives one result, the result of running the steps
    one after another. */
module PipelineDeterminism {
  import opened Digraph
  import opened Dag
  import opened Pipeline

  /** The invoker is a function of agent and input and never fails while the context is live. */
  ghost predicate Dependable(job: Job) {
    forall agent, input :: job.invoke(agent, input, false).Answer?
  }

  ghost predicate Known(job: Job) {
    forall k, v :: 0 <= k < |job.order| && v in job.order[k] ==> v in job.steps
  }

  /** A run in which the invoker gives every reply. */
  ghost predicate RunsHonestly(job: Job, events: seq<Event>, s: State) {
    if events == [] then s == Init(job) else
      var last := |events| - 1;
      exists prev ::
        && RunsHonestly(job, events[..last], prev) && Enabled(job, prev, events[last])
        && Honest(job, prev, events[last]) && s == Fire(job, prev, events[last])
  }

  lemma {:induction false} HonestRunsTo(job: Job, events: seq<Event>, s: State)
    requires RunsHonestly(job, events, s)
    ensures RunsTo(job, events, s)
  {
    hide Honest, Enabled, Fire;
    if events != [] {
      var last := |events| - 1;
      var prev :|
        && RunsHonestly(job, events[..last], prev) && Enabled(job, prev, events[last])
        && Honest(job, prev, events[last]) && s == Fire(job, prev, events[last]);
      HonestRunsTo(job, events[..last], prev);
    }
  }

  /** Any honest run can be led to its end. */
  lemma {:induction false} Finish(job: Job, events: seq<Event>, s: State) returns (all: seq<Event>, t: State)
    requires WellOrdered(job) && RunsHonestly(job, events, s) && Cancel !in events && InRangeOf(job, s)
    ensures RunsHonestly(job, all, t) && t.status != Running && Cancel !in all
    decreases Left(job, s)
  {
    hide WellOrdered, Honest, Enabled, Fire, Left, Inv, RunsTo;
    if s.status != Running {
      all, t := events, s;
    } else {
      HonestRunsTo(job, events, s);
      EveryRun(job, events, s);
      InvRecorded(job, s);
      var ev := NextMove(job, s);
      FireLowers(job, s, ev);
      var longer := events + [ev];
      assert longer[..|longer| - 1] == events;
      all, t := Finish(job, longer, Fire(job, s, ev));
    }
  }

  lemma InvRecorded(job: Job, s: State)
    requires Inv(job, s)
    ensures Recorded(job, s)
  {
  }

  /** What `executeStep` returns when the invoker gives the reply. */
  function ExecuteStep(job: Job, step: Step, outputs: map<string, string>, cancelled: bool): StepResult {
    StepOutcome(step, Replied(job, step, outputs, cancelled))
  }

  /** The reference: each layer at once, from the outputs of the layers before it. */
  ghost function LayerResults(job: Job, k: nat): map<string, StepResult>
    requires Known(job) && k < |job.order|
    decreases k, 1
  {
    map v | v in Members(job.order[k]) :: ExecuteStep(job, job.steps[v], OutputsOf(job.trigger, Results(job, k)), false)
  }

  ghost function Results(job: Job, k: nat): map<string, StepResult>
    requires Known(job) && k <= |job.order|
    decreases k, 0
  {
    if k == 0 then map[] else Results(job, k - 1) + LayerResults(job, k - 1)
  }

  lemma {:induction false} ResultsKeys(job: Job, k: nat)
    requires Known(job) && k <= |job.order|
    ensures Results(job, k).Keys == Ran(job.order, k)
  {
    if k > 0 {
      ResultsKeys(job, k - 1);
    }
  }

  lemma {:induction false} NoFailures(job: Job, k: nat)
    requires Known(job) && k <= |job.order| && Dependable(job)
    ensures forall v :: v in Results(job, k) ==> !Results(job, k)[v].failed
  {
    if k > 0 {
      NoFailures(job, k - 1);
    }
  }

  /** No step of layer k fails on the reference inputs. */
  ghost predicate Steady(job: Job, k: nat)
    requires Known(job) && k < |job.order|
  {
    forall v :: v in Members(job.order[k]) ==> !LayerResults(job, k)[v].failed
  }

  ghost predicate SteadyBefore(job: Job, k: nat)
    requires Known(job) && k <= |job.order|
  {
    forall j :: 0 <= j < k ==> Steady(job, j)
  }

  /** Layer k is the first with a step that fails on the reference inputs. */
  ghost predicate BreaksAt(job: Job, k: nat)
    requires Known(job)
  {
    k < |job.order| && SteadyBefore(job, k) && !Steady(job, k)
  }

  /** What is recorded of the first k layers is what the reference has. */
  ghost predicate Settled(job: Job, k: nat, results: map<string, StepResult>)
    requires Known(job) && k <= |job.order|
  {
    forall v :: v in results && v in Results(job, k) ==> results[v] == Results(job, k)[v]
  }

  /** The open layer has seen no failure: it reads the reference outputs and its results are those of the reference. */
  ghost predicate OnTrack(job: Job, k: nat, layer: Layer, results: map<string, StepResult>)
    requires Known(job)
  {
    && layer.Open? && k < |job.order|
    && layer.snapshot == OutputsOf(job.trigger, Results(job, k))
    && (forall v :: v in layer.invoked && v in Members(job.order[k]) ==> layer.invoked[v] == LayerResults(job, k)[v])
    && Settled(job, k + 1, results)
  }

  /** What holds along a run without outside cancellation. */
  ghost predicate Follows(job: Job, s: State)
    requires Known(job)
  {
    && s.next <= |job.order| && s.cancelled == s.failed && s.status != Cancelled
    && SteadyBefore(job, s.next) && Settled(job, s.next, s.results)
    && if s.failed then s.next < |job.order| && !Steady(job, s.next)
       else if s.layer.Idle? then s.results == Results(job, s.next)
       else OnTrack(job, s.next, s.layer, s.results)
  }

  lemma FireFollows(job: Job, s: State, ev: Event)
    requires WellOrdered(job) && Known(job) && ev != Cancel
    requires Recorded(job, s) && FailFast(s) && Tallied(job, s) && Follows(job, s)
    requires Enabled(job, s, ev) && Honest(job, s, ev)
    ensures Follows(job, Fire(job, s, ev))
  {
    hide Ran, WellOrdered, Known, Results, LayerResults, SumTokens, OutputsOf, ExecuteStep, Recorded, Tallied,
         AnyFailed, Steady, SteadyBefore, Settled, OnTrack;
    match ev {
      case Begin =>
        if s.next < |job.order| {
          BeginFollows(job, s);
        }
      case Invoke(n, reply) =>
        if !s.failed {
          InvokeFollows(job, s, n, reply);
        }
      case Commit(n) =>
        CommitFollows(job, s, n);
      case End =>
        if !s.failed {
          EndFollows(job, s);
        }
    }
  }

  lemma BeginFollows(job: Job, s: State)
    requires WellOrdered(job) && Known(job) && s.next < |job.order|
    requires Recorded(job, s) && FailFast(s) && Tallied(job, s) && Follows(job, s) && Enabled(job, s, Begin)
    ensures Follows(job, Fire(job, s, Begin))
  {
    hide SumTokens, OutputsOf, LayerResults, AnyFailed, Steady, SteadyBefore;
    RanFresh(job, s.next);
    ResultsKeys(job, s.next);
    LayerResultsKeys(job, s.next);
  }

  lemma InvokeFollows(job: Job, s: State, n: string, reply: Reply)
    requires Known(job) && Follows(job, s) && !s.failed
    requires Enabled(job, s, Invoke(n, reply)) && Honest(job, s, Invoke(n, reply))
    ensures Follows(job, Fire(job, s, Invoke(n, reply)))
  {
    hide Ran, WellOrdered, SumTokens, OutputsOf, Steady, SteadyBefore, Settled, Results;
  }

  /** Recording a step of layer k leaves the layers before it as they are. */
  lemma SettledCommit(job: Job, k: nat, results: map<string, StepResult>, n: string, r: StepResult)
    requires WellOrdered(job) && Known(job) && k < |job.order| && n in Members(job.order[k])
    ensures Settled(job, k, results) ==> Settled(job, k, results[n := r])
    ensures Settled(job, k + 1, results) && r == LayerResults(job, k)[n] ==> Settled(job, k + 1, results[n := r])
  {
    hide LayerResults, WellOrdered, Ran;
    RanFresh(job, k);
    ResultsKeys(job, k);
    LayerResultsKeys(job, k);
  }

  lemma CommitFollows(job: Job, s: State, n: string)
    requires WellOrdered(job) && Known(job)
    requires Recorded(job, s) && Follows(job, s) && Enabled(job, s, Commit(n))
    ensures Follows(job, Fire(job, s, Commit(n)))
  {
    hide Ran, WellOrdered, SumTokens, OutputsOf, Settled, SteadyBefore, Results, LayerResults;
    assert n in InFlight(s.layer) && n in Members(job.order[s.next]);
    SettledCommit(job, s.next, s.results, n, s.layer.invoked[n]);
  }

  lemma LayerKept(job: Job, k: nat, results: map<string, StepResult>)
    requires Known(job) && k < |job.order| && Settled(job, k + 1, results)
    requires results.Keys == Ran(job.order, k + 1) && !AnyFailed(results)
    ensures results == Results(job, k + 1) && Steady(job, k)
  {
    hide Ran, LayerResults;
    ResultsKeys(job, k + 1);
    LayerResultsKeys(job, k);
    forall v | v in Members(job.order[k]) ensures !LayerResults(job, k)[v].failed {
      assert Results(job, k + 1)[v] == LayerResults(job, k)[v];
    }
  }

  lemma EndFollows(job: Job, s: State)
    requires Known(job) && Recorded(job, s) && FailFast(s) && Follows(job, s) && Enabled(job, s, End) && !s.failed
    ensures Follows(job, Fire(job, s, End))
  {
    hide Ran, Results, LayerResults, SumTokens, OutputsOf, AnyFailed, Steady;
    assert InFlight(s.layer) == {};
    LayerKept(job, s.next, s.results);
  }

  lemma {:induction false} RunFollows(job: Job, events: seq<Event>, s: State)
    requires WellOrdered(job) && Known(job) && Cancel !in events
    requires RunsHonestly(job, events, s)
    ensures Follows(job, s)
  {
    if events != [] {
      var last := |events| - 1;
      var prev :|
        && RunsHonestly(job, events[..last], prev) && Enabled(job, prev, events[last])
        && Honest(job, prev, events[last]) && s == Fire(job, prev, events[last]);
      hide WellOrdered, Known, Enabled, Honest, Fire, Follows, RunsTo, Recorded, FailFast, Tallied;
      RunFollows(job, events[..last], prev);
      HonestRunsTo(job, events[..last], prev);
      EveryRun(job, events[..last], prev);
      FireFollows(job, prev, events[last]);
    }
  }

  /** With an invoker that may fail, every interleaving that runs to its end completes iff no layer has a step that
      fails on the reference inputs, and otherwise fails in the first such layer; up to there it has the results of
      the reference. */
  lemma FailingConfluence(job: Job, events: seq<Event>, s: State)
    requires WellOrdered(job) && Known(job) && Cancel !in events
    requires RunsHonestly(job, events, s) && s.status != Running
    ensures s.status == if SteadyBefore(job, |job.order|) then Completed else Failed
    ensures s.status == Completed ==> s.results == Results(job, |job.order|)
    ensures s.status == Failed ==>
              && BreaksAt(job, s.next) && s.results.Keys == Ran(job.order, s.next + 1)
              && Settled(job, s.next, s.results)
    ensures s.outputs == OutputsOf(job.trigger, s.results) && s.total == SumTokens(Flat(job.order), s.results)
  {
    hide SumTokens, OutputsOf, Results, WellOrdered, RunsTo, RunsHonestly, Steady, Settled, Ran, AnyFailed;
    HonestRunsTo(job, events, s);
    EveryRun(job, events, s);
    RunFollows(job, events, s);
  }

  lemma BreaksOnce(job: Job, k: nat, l: nat)
    requires Known(job) && BreaksAt(job, k) && BreaksAt(job, l)
    ensures k == l
  {
    hide Steady;
  }

  /** Hence no two finished interleavings differ in status, in where they stop, or in what the layers before hold. */
  lemma SameEnd(job: Job, es: seq<Event>, s: State, es': seq<Event>, s': State)
    requires WellOrdered(job) && Known(job) && Cancel !in es && Cancel !in es'
    requires RunsHonestly(job, es, s) && s.status != Running && RunsHonestly(job, es', s') && s'.status != Running
    ensures s.status == s'.status && s.results.Keys == s'.results.Keys
    ensures s.status == Failed ==>
              && s.next == s'.next < |job.order|
              && forall v :: v in Ran(job.order, s.next) ==>
                   v in s.results && v in s'.results && s.results[v] == s'.results[v]
    ensures s.status == Completed ==>
              s.results == s'.results && s.outputs == s'.outputs && s.total == s'.total
  {
    hide WellOrdered, RunsHonestly, SumTokens, OutputsOf, Results, Ran, Steady, SteadyBefore;
    FailingConfluence(job, es, s);
    FailingConfluence(job, es', s');
    if s.status == Failed {
      BreaksOnce(job, s.next, s'.next);
      RanSuccessor(job.order, s.next);
      ResultsKeys(job, s.next);
    }
  }

  lemma RanSuccessor(order: seq<seq<string>>, k: nat)
    requires k < |order|
    ensures Ran(order, k) <= Ran(order, k + 1)
  {
  }

  lemma DependableSteady(job: Job, k: nat)
    requires Known(job) && Dependable(job) && k <= |job.order|
    ensures SteadyBefore(job, k)
  {
    hide Results, OutputsOf;
  }

  /** Every interleaving that runs to its end with an invoker that does not fail completes with the same step
      results, outputs and tokens. */
  lemma Confluence(job: Job, events: seq<Event>, s: State)
    requires WellOrdered(job) && Known(job) && Dependable(job) && Cancel !in events
    requires RunsHonestly(job, events, s) && s.status != Running
    ensures s.status == Completed
    ensures s.results == Results(job, |job.order|)
    ensures s.outputs == OutputsOf(job.trigger, Results(job, |job.order|))
    ensures s.total == SumTokens(Flat(job.order), Results(job, |job.order|))
  {
    hide SumTokens, OutputsOf, Results, WellOrdered, RunsHonestly, SteadyBefore, Dependable;
    DependableSteady(job, |job.order|);
    FailingConfluence(job, events, s);
  }

  // ---- The sequential reference ----

  /** The entry of a step in the result's `steps`. */
  datatype Record = Done(agent: string, output: string) | Broke(agent: string, error: string)

  datatype Sequential = Sequential(outputs: map<string, string>, records: map<string, Record>, ok: bool)

  /** `executePipeline` after the steps `decl`, in declaration order, stopping at the first failure. */
  function RunSequential(job: Job, decl: seq<Step>): Sequential {
    if decl == [] then Sequential(map["trigger" := job.trigger], map[], true) else
      var before := RunSequential(job, decl[..|decl| - 1]);
      var step := decl[|decl| - 1];
      if !before.ok then before else
      match job.invoke(step.agentRef, StepInput(step, before.outputs, job.trigger), false)
      case Answer(output, _) =>
        before.(outputs := before.outputs[step.name := output],
                records := before.records[step.name := Done(step.agentRef, output)])
      case Failure(error) =>
        before.(records := before.records[step.name := Broke(step.agentRef, error)], ok := false)
  }

  method ExecutePipeline(job: Job, decl: seq<Step>)
    returns (status: Status, outputs: map<string, string>, records: map<string, Record>)
    ensures var run := RunSequential(job, decl);
            outputs == run.outputs && records == run.records && status == if run.ok then Completed else Failed
  {
    outputs, records, status := map["trigger" := job.trigger], map[], Completed;
    for i := 0 to |decl|
      invariant RunSequential(job, decl[..i]) == Sequential(outputs, records, true)
    {
      assert decl[..i + 1][..i] == decl[..i];
      var reply := job.invoke(decl[i].agentRef, StepInput(decl[i], outputs, job.trigger), false);
      if reply.Failure? {
        status := Failed;
        records := records[decl[i].name := Broke(decl[i].agentRef, reply.error)];
        StopsAt(job, decl, i + 1);
        return;
      }
      outputs := outputs[decl[i].name := reply.output];
      records := records[decl[i].name := Done(decl[i].agentRef, reply.output)];
    }
    assert decl[..|decl|] == decl;
  }

  ghost function StepNames(decl: seq<Step>): set<string> {
    set i | 0 <= i < |decl| :: decl[i].name
  }

  /** The first n steps are recorded with the output they stored. */
  ghost predicate RecordedDone(decl: seq<Step>, n: nat, run: Sequential) {
    forall i :: 0 <= i < |decl| && i < n ==>
      && decl[i].name in run.outputs && decl[i].name in run.records
      && run.records[decl[i].name] == Done(decl[i].agentRef, run.outputs[decl[i].name])
  }

  /** The k-th step failed, those before it did not, and those after it were not run. */
  ghost predicate BrokeAt(decl: seq<Step>, k: nat, run: Sequential) {
    && k < |decl| && run.records.Keys == StepNames(decl[..k + 1]) && RecordedDone(decl, k, run)
    && decl[k].name in run.records && run.records[decl[k].name].Broke?
    && run.records[decl[k].name].agent == decl[k].agentRef
  }

  lemma NamesGrow(decl: seq<Step>, n: nat)
    requires n < |decl|
    ensures StepNames(decl[..n + 1]) == StepNames(decl[..n]) + {decl[n].name}
  {
    assert decl[..n + 1] == decl[..n] + [decl[n]];
    assert (decl[..n + 1])[n] == decl[n];
    forall i | 0 <= i < n ensures decl[i].name in StepNames(decl[..n + 1]) {
      assert decl[..n + 1][i] == decl[i];
    }
  }

  lemma BrokeEarlier(decl: seq<Step>, n: nat, k: nat, run: Sequential)
    requires n <= |decl| && BrokeAt(decl[..n], k, run)
    ensures BrokeAt(decl, k, run)
  {
    hide StepNames;
    assert decl[..n][..k + 1] == decl[..k + 1] && decl[..n][k] == decl[k];
    forall i | 0 <= i < k ensures decl[..n][i] == decl[i] {
    }
  }

  /** Recording one more step leaves the records of the steps before it. */
  lemma DoneEarlier(decl: seq<Step>, before: Sequential, run: Sequential)
    requires decl != [] && DistinctNames(decl) && RecordedDone(decl[..|decl| - 1], |decl| - 1, before)
    requires forall v :: v in before.records && v != decl[|decl| - 1].name ==>
               v in run.records && run.records[v] == before.records[v]
    requires forall v :: v in before.outputs && v != decl[|decl| - 1].name ==>
               v in run.outputs && run.outputs[v] == before.outputs[v]
    ensures RecordedDone(decl, |decl| - 1, run)
  {
    var n := |decl| - 1;
    forall i | 0 <= i < n
      ensures && decl[i].name in run.outputs && decl[i].name in run.records
              && run.records[decl[i].name] == Done(decl[i].agentRef, run.outputs[decl[i].name])
    {
      assert decl[..n][i] == decl[i];
    }
  }

  /** The records tell which steps ran and which one failed. */
  ghost predicate Told(decl: seq<Step>, run: Sequential) {
    if run.ok then run.records.Keys == StepNames(decl) && RecordedDone(decl, |decl|, run)
    else exists k :: BrokeAt(decl, k, run)
  }

  lemma ToldStep(decl: seq<Step>, before: Sequential, run: Sequential, reply: Reply)
    requires decl != [] && DistinctNames(decl) && before.ok && Told(decl[..|decl| - 1], before)
    requires var step := decl[|decl| - 1];
             run == match reply
                    case Answer(output, _) =>
                      before.(outputs := before.outputs[step.name := output],
                              records := before.records[step.name := Done(step.agentRef, output)])
                    case Failure(error) =>
                      before.(records := before.records[step.name := Broke(step.agentRef, error)], ok := false)
    ensures Told(decl, run)
  {
    hide StepNames;
    var n := |decl| - 1;
    assert decl[..n + 1] == decl;
    NamesGrow(decl, n);
    DoneEarlier(decl, before, run);
    if !run.ok {
      assert BrokeAt(decl, n, run);
    }
  }

  lemma {:induction false} RecordsTell(job: Job, decl: seq<Step>)
    requires DistinctNames(decl)
    ensures Told(decl, RunSequential(job, decl))
    decreases |decl|
  {
    if decl != [] {
      var n := |decl| - 1;
      var before := RunSequential(job, decl[..n]);
      RecordsTell(job, decl[..n]);
      if before.ok {
        hide Told;
        ToldStep(decl, before, RunSequential(job, decl),
                 job.invoke(decl[n].agentRef, StepInput(decl[n], before.outputs, job.trigger), false));
      } else {
        var k :| BrokeAt(decl[..n], k, before);
        BrokeEarlier(decl, n, k, before);
      }
    }
  }

  lemma {:induction false} StopsAt(job: Job, decl: seq<Step>, i: nat)
    requires i <= |decl| && !RunSequential(job, decl[..i]).ok
    ensures RunSequential(job, decl) == RunSequential(job, decl[..i])
    decreases |decl| - i
  {
    if i == |decl| {
      assert decl[..i] == decl;
    } else {
      assert decl[..i + 1][..i] == decl[..i];
      StopsAt(job, decl, i + 1);
    }
  }

  /** The declaration lists the steps of the order, each once, dependencies first. */
  ghost predicate DeclaredFirst(job: Job, decl: seq<Step>) {
    && DistinctNames(decl)
    && (forall i :: 0 <= i < |decl| ==> decl[i].name in job.steps && job.steps[decl[i].name] == decl[i])
    && (forall v :: v in Ran(job.order, |job.order|) <==> exists i :: 0 <= i < |decl| && decl[i].name == v)
    && (forall i, d :: 0 <= i < |decl| && d in decl[i].dependsOn ==> exists j :: 0 <= j < i && decl[j].name == d)
  }

  lemma LayerResultsKeys(job: Job, k: nat)
    requires Known(job) && k < |job.order|
    ensures LayerResults(job, k).Keys == Members(job.order[k])
  {
  }

  lemma {:induction false} ResultsGrow(job: Job, j: nat, k: nat, v: string)
    requires WellOrdered(job) && Known(job) && j <= k <= |job.order| && v in Results(job, j)
    ensures v in Results(job, k) && Results(job, k)[v] == Results(job, j)[v]
    decreases k
  {
    hide WellOrdered, ExecuteStep, OutputsOf, Ran, LayerResults;
    if j < k {
      ResultsGrow(job, j, k - 1, v);
      ResultsKeys(job, k - 1);
      RanFresh(job, k - 1);
      LayerResultsKeys(job, k - 1);
    }
  }

  /** Without failures the outputs are the trigger input and one entry per recorded step. */
  lemma OutputsAt(job: Job, k: nat, v: string)
    requires Known(job) && Dependable(job) && k <= |job.order|
    ensures v in Results(job, k) ==> v in OutputsOf(job.trigger, Results(job, k)) &&
                                     OutputsOf(job.trigger, Results(job, k))[v] == Results(job, k)[v].output
    ensures v !in Results(job, k) ==>
              (v in OutputsOf(job.trigger, Results(job, k)) <==> v == "trigger")
    ensures "trigger" !in Results(job, k) ==> Lookup(OutputsOf(job.trigger, Results(job, k)), "trigger") == job.trigger
  {
    NoFailures(job, k);
  }

  /** A step's input is the same from the outputs before its layer as from all outputs. */
  lemma SameInput(job: Job, k: nat, v: string)
    requires WellOrdered(job) && Known(job) && Dependable(job) && k < |job.order| && v in job.order[k]
    ensures StepInput(job.steps[v], OutputsOf(job.trigger, Results(job, k)), job.trigger) ==
            StepInput(job.steps[v], OutputsOf(job.trigger, Results(job, |job.order|)), job.trigger)
  {
    hide Results, OutputsOf, Ran, Dependable, InLayers;
    var deps := job.steps[v].dependsOn;
    if |deps| > 0 {
      assert InLayers(job.order[..k], deps[0]);
      RanLayers(job.order, k);
      ResultsKeys(job, k);
      ResultsGrow(job, k, |job.order|, deps[0]);
      OutputsAt(job, k, deps[0]);
      OutputsAt(job, |job.order|, deps[0]);
    }
  }

  lemma ResultAt(job: Job, k: nat, v: string)
    requires WellOrdered(job) && Known(job) && k < |job.order| && v in job.order[k]
    ensures v in Results(job, |job.order|)
    ensures Results(job, |job.order|)[v] ==
            ExecuteStep(job, job.steps[v], OutputsOf(job.trigger, Results(job, k)), false)
  {
    hide ExecuteStep, OutputsOf, WellOrdered, Ran;
    assert v in LayerResults(job, k);
    ResultsGrow(job, k + 1, |job.order|, v);
  }

  /** v has no input of its own and runs in a layer after a step named "trigger". */
  ghost predicate ReadsOverwritten(job: Job, k: nat, l: nat, v: string) {
    && k < l < |job.order| && "trigger" in job.order[k] && v in job.order[l]
    && v in job.steps && job.steps[v].input == ""
  }

  /** No step can fall back on a trigger entry that a step overwrote. */
  ghost predicate Harmless(job: Job) {
    forall k, l, v :: !ReadsOverwritten(job, k, l, v)
  }

  lemma TriggerRan(job: Job, k: nat, v: string)
    requires Known(job) && Harmless(job) && k < |job.order| && v in job.order[k] && "trigger" in Results(job, k)
    ensures job.steps[v].input != ""
  {
    hide Results;
    ResultsKeys(job, k);
    RanLayers(job.order, k);
    var j :| 0 <= j < |job.order[..k]| && "trigger" in job.order[..k][j];
    assert !ReadsOverwritten(job, j, k, v);
  }

  /** The layered outputs solve the equations "each step's output is the answer to its input". */
  lemma LayeredFixpoint(job: Job, k: nat, v: string)
    requires WellOrdered(job) && Known(job) && Dependable(job) && Harmless(job)
    requires k < |job.order| && v in job.order[k]
    ensures v in OutputsOf(job.trigger, Results(job, |job.order|))
    ensures job.invoke(job.steps[v].agentRef,
                       StepInput(job.steps[v], OutputsOf(job.trigger, Results(job, |job.order|)), job.trigger), false)
            .Answer?
    ensures OutputsOf(job.trigger, Results(job, |job.order|))[v] ==
            job.invoke(job.steps[v].agentRef,
                       StepInput(job.steps[v], OutputsOf(job.trigger, Results(job, |job.order|)), job.trigger), false)
            .output
  {
    hide Results, OutputsOf, Ran, WellOrdered, Harmless;
    ResultAt(job, k, v);
    OutputsAt(job, |job.order|, v);
    OutputsAt(job, k, "trigger");
    if "trigger" in Results(job, k) {
      TriggerRan(job, k, v);
    } else {
      hide StepInput;
      SameInput(job, k, v);
    }
  }

  ghost predicate DeclaredBy(decl: seq<Step>, i: nat, v: string)
    requires i <= |decl|
  {
    exists j :: 0 <= j < i && decl[j].name == v
  }

  /** The sequential run after i steps agrees with the layered outputs on what it has produced. */
  ghost predicate Agrees(job: Job, decl: seq<Step>, i: nat, outs: map<string, string>)
    requires i <= |decl|
  {
    var run := RunSequential(job, decl[..i]);
    && run.ok
    && (forall v :: v in run.outputs <==> v == "trigger" || DeclaredBy(decl, i, v))
    && (forall v :: DeclaredBy(decl, i, v) ==> v in run.outputs && v in outs && run.outputs[v] == outs[v])
    && ("trigger" in run.outputs && (DeclaredBy(decl, i, "trigger") || run.outputs["trigger"] == job.trigger))
  }

  lemma DeclaredNext(decl: seq<Step>, i: nat)
    requires i < |decl|
    ensures forall v :: DeclaredBy(decl, i + 1, v) <==> DeclaredBy(decl, i, v) || v == decl[i].name
  {
    forall v ensures DeclaredBy(decl, i + 1, v) <==> DeclaredBy(decl, i, v) || v == decl[i].name {
      if DeclaredBy(decl, i, v) {
        var j :| 0 <= j < i && decl[j].name == v;
        assert decl[j].name == v;
      }
      if v == decl[i].name {
        assert decl[i].name == v;
      }
    }
  }

  lemma AgreesStep(job: Job, decl: seq<Step>, i: nat, outs: map<string, string>)
    requires i < |decl| && Agrees(job, decl, i, outs)
    requires forall d :: d in decl[i].dependsOn ==> DeclaredBy(decl, i, d)
    requires decl[i].name in outs
    requires job.invoke(decl[i].agentRef, StepInput(decl[i], outs, job.trigger), false).Answer?
    requires outs[decl[i].name] == job.invoke(decl[i].agentRef, StepInput(decl[i], outs, job.trigger), false).output
    ensures Agrees(job, decl, i + 1, outs)
  {
    hide DeclaredBy;
    var before := RunSequential(job, decl[..i]).outputs;
    assert decl[..i + 1][..i] == decl[..i];
    DeclaredNext(decl, i);
    if |decl[i].dependsOn| > 0 {
      assert decl[i].dependsOn[0] in decl[i].dependsOn;
    }
    assert StepInput(decl[i], before, job.trigger) == StepInput(decl[i], outs, job.trigger);
    assert RunSequential(job, decl[..i + 1]).outputs == before[decl[i].name := outs[decl[i].name]];
  }

  /** The layer of a declared step. */
  lemma DeclaredLayer(job: Job, decl: seq<Step>, i: nat) returns (k: nat)
    requires DeclaredFirst(job, decl) && i < |decl|
    ensures k < |job.order| && decl[i].name in job.order[k]
  {
    assert decl[i].name in Ran(job.order, |job.order|);
    RanLayers(job.order, |job.order|);
    assert job.order[..|job.order|] == job.order;
    k :| 0 <= k < |job.order| && decl[i].name in job.order[k];
  }

  /** The sequential run solves the same equations, and their solution is unique. */
  lemma {:induction false} PrefixAgrees(job: Job, decl: seq<Step>, i: nat)
    requires WellOrdered(job) && Known(job) && Dependable(job) && DeclaredFirst(job, decl) && i <= |decl|
    requires Harmless(job)
    ensures Agrees(job, decl, i, OutputsOf(job.trigger, Results(job, |job.order|)))
  {
    hide Results, OutputsOf, Ran, WellOrdered, StepInput, Agrees, Known, Dependable, Harmless;
    var outs := OutputsOf(job.trigger, Results(job, |job.order|));
    if i == 0 {
      AgreesStart(job, decl, outs);
    } else {
      PrefixAgrees(job, decl, i - 1);
      var k := DeclaredLayer(job, decl, i - 1);
      LayeredFixpoint(job, k, decl[i - 1].name);
      var n, step := i - 1, decl[i - 1];
      assert forall d :: d in step.dependsOn ==> DeclaredBy(decl, n, d);
      AgreesStep(job, decl, n, outs);
    }
  }

  lemma AgreesStart(job: Job, decl: seq<Step>, outs: map<string, string>)
    ensures Agrees(job, decl, 0, outs)
  {
  }

  /** The concurrent executor's outputs are those of the sequential one. */
  lemma ConcurrentEqualsSequential(job: Job, decl: seq<Step>, events: seq<Event>, s: State)
    requires WellOrdered(job) && Known(job) && Dependable(job) && DeclaredFirst(job, decl) && Harmless(job)
    requires Cancel !in events && RunsHonestly(job, events, s) && s.status != Running
    ensures RunSequential(job, decl).ok
    ensures s.outputs == RunSequential(job, decl).outputs
  {
    hide Results, OutputsOf, Ran, WellOrdered, RunSequential, Dependable, Harmless, Known, RunsHonestly;
    Confluence(job, events, s);
    PrefixAgrees(job, decl, |decl|);
    assert decl[..|decl|] == decl;
    ResultsKeys(job, |job.order|);
    var outs, run := OutputsOf(job.trigger, Results(job, |job.order|)), RunSequential(job, decl).outputs;
    forall v ensures (v in outs <==> v in run) && (v in outs && v in run ==> outs[v] == run[v]) {
      OutputsAt(job, |job.order|, v);
      assert v in Results(job, |job.order|) <==> DeclaredBy(decl, |decl|, v);
    }
    assert outs == run;
  }

  /** A DAG that `BuildDAG` accepts is a well-ordered job. */
  lemma DagWellOrdered(steps: seq<Step>, order: seq<seq<string>>, job: Job)
    requires job.steps == StepMap(steps) && job.order == order
    requires IsLayering(DepGraph(StepMap(steps)), order) && KnownDependencies(DepGraph(StepMap(steps)))
    ensures WellOrdered(job) && Known(job)
  {
    hide InLayers;
    var g := DepGraph(StepMap(steps));
    StepMapNames(steps);
    forall k, v | 0 <= k < |order| && v in order[k] ensures v in g && v in job.steps {
      assert LongestChain(g, v, k);
    }
    forall k, v {:trigger AtMostOnce(order[k], v)} | 0 <= k < |order| ensures AtMostOnce(order[k], v) {
      AscendingOnce(order[k], v);
    }
    forall k, l, v | 0 <= k < |order| && 0 <= l < |order| && v in order[k] && v in order[l] ensures k == l {
      LongestUnique(g, v, k, l);
    }
    forall k, v, d | 0 <= k < |order| && v in order[k] && d in job.steps[v].dependsOn ensures InLayers(order[..k], d) {
      EarlierLayer(g, order, k, v, d);
    }
  }

  lemma EarlierLayer(g: Graph, order: seq<seq<string>>, k: nat, v: string, d: string)
    requires IsLayering(g, order) && Closed(g, g.Keys) && k < |order| && v in order[k] && v in g && d in g[v]
    ensures InLayers(order[..k], d)
  {
    assert d in Succ(g, v) && InLayers(order, d);
    var j :| 0 <= j < |order| && d in order[j];
    if j >= k {
      ShorterChain(g, d, k, j);
    } else {
      assert d in order[..k][j];
    }
  }

  // ---- Exactly when the two executors agree ----

  ghost predicate SamePipeline(a: Job, b: Job) {
    a.steps == b.steps && a.order == b.order
  }

  /** For every trigger text and every dependable invoker, however the goroutines are interleaved. */
  ghost predicate AlwaysAgree(job: Job, decl: seq<Step>) {
    forall j, events, s {:trigger RunsHonestly(j, events, s), RunSequential(j, decl)} ::
      SamePipeline(j, job) && Dependable(j) && Cancel !in events && RunsHonestly(j, events, s)
        && s.status != Running ==>
        s.outputs == RunSequential(j, decl).outputs
  }

  /** Answers "x" to an empty input and nothing to any other. */
  function Contrary(job: Job): Job {
    job.(trigger := "T", invoke := (agent, input, cancelled) => Answer(if input == "" then "x" else "", ZERO))
  }

  lemma SameOrder(a: Job, b: Job)
    requires SamePipeline(a, b)
    ensures WellOrdered(a) ==> WellOrdered(b)
    ensures Known(a) ==> Known(b)
    ensures Harmless(a) ==> Harmless(b)
    ensures forall decl :: DeclaredFirst(a, decl) ==> DeclaredFirst(b, decl)
  {
    if Harmless(a) {
      forall k, l, v ensures !ReadsOverwritten(b, k, l, v) {
        assert !ReadsOverwritten(a, k, l, v);
      }
    }
  }

  /** One after the other, every step has a non-empty input and answers nothing. */
  lemma {:induction false} ContrarySequential(job: Job, decl: seq<Step>)
    ensures var run := RunSequential(Contrary(job), decl);
            run.ok && forall v :: v in run.outputs && v != "trigger" ==> run.outputs[v] == ""
  {
    if decl != [] {
      ContrarySequential(job, decl[..|decl| - 1]);
    }
  }

  /** Until layer l every step answers nothing. */
  ghost predicate QuietUntil(job: Job, l: nat)
    requires Known(job) && l <= |job.order|
  {
    forall v :: v in Results(job, l) ==> Results(job, l)[v].output == ""
  }

  lemma QuietStep(job: Job, m: nat, v: string, at: nat)
    requires WellOrdered(job) && Known(job) && job == Contrary(job) && Dependable(job)
    requires m < |job.order| && v in job.order[m] && at < |job.order| && "trigger" in job.order[at]
    requires m <= at || job.steps[v].input != ""
    ensures ExecuteStep(job, job.steps[v], OutputsOf(job.trigger, Results(job, m)), false).output == ""
  {
    hide Results, OutputsOf, Ran;
    OutputsAt(job, m, "trigger");
    if m <= at {
      NotYet(job, m, at);
    }
  }

  lemma NotYet(job: Job, m: nat, at: nat)
    requires WellOrdered(job) && Known(job) && m <= at < |job.order| && "trigger" in job.order[at]
    ensures "trigger" !in Results(job, m)
  {
    hide Results;
    ResultsKeys(job, m);
    RanLayers(job.order, m);
    assert forall j :: 0 <= j < m ==> job.order[..m][j] == job.order[j];
  }

  lemma {:induction false} QuietLayers(job: Job, l: nat, at: nat)
    requires WellOrdered(job) && Known(job) && job == Contrary(job) && Dependable(job)
    requires l <= |job.order| && at < |job.order| && "trigger" in job.order[at]
    requires forall m, v :: at < m < l && v in job.order[m] ==> job.steps[v].input != ""
    ensures QuietUntil(job, l)
  {
    hide OutputsOf, Ran, ExecuteStep, WellOrdered, Contrary;
    if l > 0 {
      var m: nat := l - 1;
      QuietLayers(job, m, at);
      LayerResultsKeys(job, m);
      var layer := LayerResults(job, m);
      forall v | v in layer ensures layer[v].output == "" {
        QuietStep(job, m, v, at);
      }
      assert Results(job, l) == Results(job, m) + layer;
    }
  }

  /** A step without input of its own in the first such layer after the overwritten trigger gets the empty input. */
  lemma ContraryDiffers(job: Job, l: nat, at: nat, v: string)
    requires WellOrdered(job) && Known(job) && job == Contrary(job) && Dependable(job)
    requires at < l < |job.order| && "trigger" in job.order[at] && v in job.order[l] && job.steps[v].input == ""
    requires QuietUntil(job, l)
    ensures v in OutputsOf(job.trigger, Results(job, |job.order|))
    ensures OutputsOf(job.trigger, Results(job, |job.order|))[v] == "x"
  {
    hide Results, OutputsOf, Ran;
    ResultAt(job, l, v);
    OutputsAt(job, |job.order|, v);
    ResultsKeys(job, l);
    RanLayers(job.order, l);
    assert "trigger" in job.order[..l][at];
    OutputsAt(job, l, "trigger");
    var deps := job.steps[v].dependsOn;
    if |deps| > 0 {
      assert deps[0] in deps;
      OutputsAt(job, l, deps[0]);
    }
  }

  /** The first layer after the trigger's in which some step has no input of its own. */
  lemma {:induction false} FirstReader(job: Job, at: nat, l: nat, v: string) returns (l': nat, v': string)
    requires Known(job) && ReadsOverwritten(job, at, l, v)
    ensures ReadsOverwritten(job, at, l', v')
    ensures forall m, w :: at < m < l' && w in job.order[m] ==> w in job.steps && job.steps[w].input != ""
    decreases l
  {
    if m, w :| at < m < l && w in job.order[m] && job.steps[w].input == "" {
      l', v' := FirstReader(job, at, m, w);
    } else {
      l', v' := l, v;
    }
  }

  lemma TriggerNameBreaks(job: Job, decl: seq<Step>) returns (j: Job, events: seq<Event>, s: State)
    requires WellOrdered(job) && Known(job) && !Harmless(job)
    ensures SamePipeline(j, job) && Dependable(j) && Cancel !in events
    ensures RunsHonestly(j, events, s) && s.status == Completed
    ensures s.outputs != RunSequential(j, decl).outputs
  {
    hide WellOrdered, Results, OutputsOf, RunSequential, RunsHonestly, Inv;
    j := Contrary(job);
    SameOrder(job, j);
    SameOrder(j, job);
    var at, l0, v0 :| ReadsOverwritten(j, at, l0, v0);
    var l, v := FirstReader(j, at, l0, v0);
    assert j == Contrary(j);
    QuietLayers(j, l, at);
    ContraryDiffers(j, l, at, v);
    NotTrigger(j, at, l, v);
    ContrarySequential(job, decl);
    StartsHonestly(j);
    events, s := Finish(j, [], Init(j));
    Confluence(j, events, s);
  }

  lemma NotTrigger(job: Job, at: nat, l: nat, v: string)
    requires WellOrdered(job) && ReadsOverwritten(job, at, l, v)
    ensures v != "trigger"
  {
  }

  lemma StartsHonestly(job: Job)
    ensures RunsHonestly(job, [], Init(job)) && InRangeOf(job, Init(job))
  {
  }

  /** The concurrent and the sequential executor agree for every trigger text and every dependable invoker, if and only
      if no step without an input of its own runs in a layer after a step named "trigger". */
  lemma AgreeExactly(job: Job, decl: seq<Step>)
    requires WellOrdered(job) && Known(job) && DeclaredFirst(job, decl)
    ensures AlwaysAgree(job, decl) <==> Harmless(job)
  {
    hide WellOrdered, Known, DeclaredFirst, Harmless, Dependable, RunsHonestly, RunSequential;
    if Harmless(job) {
      forall j, events, s {:trigger RunsHonestly(j, events, s), RunSequential(j, decl)} |
        SamePipeline(j, job) && Dependable(j) && Cancel !in events && RunsHonestly(j, events, s) && s.status != Running
        ensures s.outputs == RunSequential(j, decl).outputs
      {
        SameOrder(job, j);
        ConcurrentEqualsSequential(j, decl, events, s);
      }
    } else {
      var j, events, s := TriggerNameBreaks(job, decl);
      assert s.outputs != RunSequential(j, decl).outputs;
    }
  }
}
