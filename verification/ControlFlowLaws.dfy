/** What the executor does with lowered statements, said of its outcomes and of the fields of the context only. */
module ControlFlowLaws {
  import opened Wrappers
  import opened OnInput
  import opened ControlFlow
  import M = OnInputMeaning

  /** The environment that expressions are evaluated in, entry by entry; variables hide what has their name. */
  ghost predicate IsEnv(env: map<string, Val>, c: Context) {
    && env.Keys == {"input", "session", "steps", "config", "output"} + c.variables.Keys
    && (forall x :: x in c.variables ==> env[x] == c.variables[x])
    && ("input" !in c.variables ==> env["input"] == c.input)
    && ("session" !in c.variables ==> env["session"] == Fields(c.session))
    && ("steps" !in c.variables ==> env["steps"] == Fields(c.steps))
    && ("config" !in c.variables ==> env["config"] == Fields(c.config))
    && ("output" !in c.variables ==> env["output"] == c.output)
  }

  lemma EnvIs(env: map<string, Val>, c: Context)
    requires IsEnv(env, c)
    ensures ToEnv(c) == env
  {
  }

  lemma Lone(w: World, s: Stmt, c: Context)
    ensures ExecBlock(w, Lower([s]), c) == ExecStmt(w, LowerStmt(s), Outcome([], "", c, None))
  {
    hide LowerStmt, ExecStmt;
    assert [s][..0] == [];
    assert Lower([s]) == [LowerStmt(s)];
    assert [LowerStmt(s)][..0] == [];
  }

  /** No statements: nothing happens. */
  lemma NoStatements(w: World, c: Context)
    ensures ExecBlock(w, Lower([]), c) == Outcome([], "", c, None)
  {
  }

  // ---- One statement after others ----

  /** A statement runs in the context that those before it left, and only if none of them failed. Its actions follow
      theirs and its output replaces theirs, except that an empty output of an if or a loop does not; if it fails,
      actions and output stay as they were. */
  lemma Then(w: World, stmts: seq<Stmt>, s: Stmt, c: Context)
    ensures var before, after := ExecBlock(w, Lower(stmts), c), ExecBlock(w, Lower(stmts + [s]), c);
            if before.error.Some? then after == before else
            var one := ExecBlock(w, Lower([s]), before.ctx);
            && after.ctx == one.ctx && after.error == one.error
            && after.actions == (if one.error.Some? then before.actions else before.actions + one.actions)
            && after.output ==
               (if one.error.Some? || ((s.If? || s.ForEach?) && one.output == "") then before.output else one.output)
  {
    hide Lower, ExecBlock;
    LowerThen(stmts, s);
    BlockThen(w, Lower(stmts), LowerStmt(s), c);
    var before := ExecBlock(w, Lower(stmts), c);
    if before.error.None? {
      Lone(w, s, before.ctx);
      StmtThen(w, s, before);
    }
  }

  lemma LowerThen(stmts: seq<Stmt>, s: Stmt)
    ensures Lower(stmts + [s]) == Lower(stmts) + [LowerStmt(s)]
  {
    hide LowerStmt;
    assert (stmts + [s])[..|stmts|] == stmts;
  }

  lemma BlockThen(w: World, vs: seq<Value>, v: Value, c: Context)
    ensures var before := ExecBlock(w, vs, c);
            ExecBlock(w, vs + [v], c) == if before.error.Some? then before else ExecStmt(w, v, before)
  {
    hide ExecStmt;
    assert (vs + [v])[..|vs|] == vs;
  }

  lemma StmtThen(w: World, s: Stmt, before: Outcome)
    requires before.error.None?
    ensures var one, after := ExecStmt(w, LowerStmt(s), Outcome([], "", before.ctx, None)),
                              ExecStmt(w, LowerStmt(s), before);
            && after.ctx == one.ctx && after.error == one.error
            && after.actions == (if one.error.Some? then before.actions else before.actions + one.actions)
            && after.output ==
               (if one.error.Some? || ((s.If? || s.ForEach?) && one.output == "") then before.output else one.output)
  {
    hide UseSkillOnce, DelegateOnce, RespondOnce, ExecIf, ExecForEach, Params, Lower, LowerElseIfs, LowerParams;
    var v := LowerStmt(s);
    KindOf(s);
    match s
    case UseSkill(_, _) =>
    case Delegate(_) =>
    case Respond(_) =>
    case If(_, _, _, _) =>
      NestedThen(before, ExecIf(w, v, before.ctx));
    case ForEach(_, _, _) =>
      NestedThen(before, ExecForEach(w, v, before.ctx));
  }

  lemma KindOf(s: Stmt)
    ensures LowerStmt(s).Dict?
    ensures StrField(LowerStmt(s).fields, "type") ==
            match s
            case UseSkill(_, _) => "use_skill"
            case Delegate(_) => "delegate"
            case Respond(_) => "respond"
            case If(_, _, _, _) => "if"
            case ForEach(_, _, _) => "for_each"
  {
    hide Lower, LowerElseIfs, LowerParams;
  }

  lemma NestedThen(before: Outcome, inner: Outcome)
    requires before.error.None?
    ensures var one, after := TakeBlock(Outcome([], "", before.ctx, None), inner), TakeBlock(before, inner);
            && after.ctx == one.ctx == inner.ctx && after.error == one.error == inner.error
            && (inner.error.None? ==> one == inner)
            && (inner.error.Some? ==> one.actions == [] && one.output == "")
            && after.actions == (if one.error.Some? then before.actions else before.actions + one.actions)
            && after.output == (if one.error.Some? || one.output == "" then before.output else one.output)
  {
    assert [] + inner.actions == inner.actions;
  }

  /** What is no statement at all is passed over, and a statement of a kind unknown is an error that keeps the rest. */
  lemma Unknown(w: World, vs: seq<Value>, v: Value, c: Context)
    ensures var before, after := ExecBlock(w, vs, c), ExecBlock(w, vs + [v], c);
            && (!v.Dict? ==> after == before)
            && (v.Dict? && before.error.None? && "type" in v.fields && v.fields["type"].Str?
                && v.fields["type"].s !in {"use_skill", "delegate", "respond", "if", "for_each"} ==>
                  after == before.(error := Some(UnknownType(v.fields["type"].s))))
  {
    BlockThen(w, vs, v, c);
  }

  ghost predicate Lacks(m: map<string, Value>, k: string) {
    k in m && m[k].Str? ==> m[k].s == ""
  }

  ghost predicate IsKind(m: map<string, Value>, kind: string) {
    "type" in m && m["type"] == Str(kind)
  }

  /** A field that is absent, empty or no string is missing: the statement fails naming the first one it needs, before
      anything is called or evaluated, and what happened before it stays. */
  lemma MissingFields(w: World, vs: seq<Value>, m: map<string, Value>, c: Context, missing: Error)
    requires ExecBlock(w, vs, c).error.None?
    requires || (Lacks(m, "type") && missing == UnknownType(""))
             || (IsKind(m, "use_skill") && Lacks(m, "skill") && missing == Missing("skill"))
             || (IsKind(m, "delegate") && Lacks(m, "agent") && missing == Missing("agent"))
             || (IsKind(m, "respond") && Lacks(m, "expression") && missing == Missing("expression"))
             || (IsKind(m, "if") && Lacks(m, "condition") && missing == Missing("condition"))
             || (IsKind(m, "for_each") && Lacks(m, "variable") && missing == Missing("variable"))
             || (IsKind(m, "for_each") && !Lacks(m, "variable") && Lacks(m, "collection")
                 && missing == Missing("collection"))
    ensures ExecBlock(w, vs + [Dict(m)], c) == ExecBlock(w, vs, c).(error := Some(missing))
  {
    hide ExecBlock;
    BlockThen(w, vs, Dict(m), c);
  }

  // ---- Statements without nesting ----

  /** An answered use of a skill makes that one call, with the current input, and records the reply. One that is not
      answered has made the call and nothing else; without a name or an invoker no call is made. */
  lemma UseLaw(w: World, skill: string, params: map<string, string>, c: Context)
    ensures var o := ExecBlock(w, Lower([UseSkill(skill, params)]), c);
            var given := if params == map[] then None else Some(params);
            var call := SkillCall(skill, given, c.input);
            if skill == "" then o == Outcome([], "", c, Some(Missing("skill")))
            else if !w.hasSkills then o == Outcome([], "", c, Some(NotConfigured))
            else
              var reply := w.answer(c.calls, call);
              && o.ctx.calls == c.calls + [call]
              && o.ctx.input == c.input && o.ctx.session == c.session && o.ctx.config == c.config
              && o.ctx.variables == c.variables
              && if reply.Some? then
                   && o.error == None && o.output == reply.value && o.actions == [UsedSkill(skill, given, reply.value)]
                   && o.ctx.steps == c.steps[skill := Text(reply.value)] && o.ctx.output == Text(reply.value)
                 else
                   && o.error == Some(CallFailed(call)) && o.output == "" && o.actions == []
                   && o.ctx.steps == c.steps && o.ctx.output == c.output
  {
    hide Lower, ExecBlock, LowerStmt, LowerParams, Params;
    Lone(w, UseSkill(skill, params), c);
    M.SkillFields(skill, params);
  }

  /** The same for an agent, whose reply is no recorded step. */
  lemma DelegateLaw(w: World, agent: string, c: Context)
    ensures var o := ExecBlock(w, Lower([Delegate(agent)]), c);
            var call := AgentCall(agent, c.input);
            if agent == "" then o == Outcome([], "", c, Some(Missing("agent")))
            else if !w.hasAgents then o == Outcome([], "", c, Some(NotConfigured))
            else
              var reply := w.answer(c.calls, call);
              && o.ctx.calls == c.calls + [call] && o.ctx.steps == c.steps
              && o.ctx.input == c.input && o.ctx.session == c.session && o.ctx.config == c.config
              && o.ctx.variables == c.variables
              && if reply.Some? then
                   && o.error == None && o.output == reply.value && o.actions == [Delegated(agent, reply.value)]
                   && o.ctx.output == Text(reply.value)
                 else
                   && o.error == Some(CallFailed(call)) && o.output == "" && o.actions == []
                   && o.ctx.output == c.output
  {
    hide Lower, ExecBlock;
    Lone(w, Delegate(agent), c);
  }

  /** The output becomes the shown value of the expression, or the expression itself when it has none. */
  lemma RespondLaw(w: World, e: string, c: Context, env: map<string, Val>)
    requires IsEnv(env, c)
    ensures var o := ExecBlock(w, Lower([Respond(e)]), c);
            if e == "" then o == Outcome([], "", c, Some(Missing("expression")))
            else
              var value := w.eval(e, env);
              var text := if value.Some? then w.show(value.value) else e;
              && o.error == None && o.output == text
              && o.actions == [Responded(e, if value.Some? then value.value else Text(e))]
              && o.ctx == c.(output := Text(text))
  {
    hide ToEnv, Lower, ExecBlock;
    Lone(w, Respond(e), c);
    EnvIs(env, c);
  }

  // ---- If ----

  /** The outcome of a block as the outcome of the statement that holds it: on an error only the error and what
      happened to the context get out. */
  ghost predicate Passes(inner: Outcome, o: Outcome) {
    if inner.error.None? then o == inner
    else o.ctx == inner.ctx && o.error == inner.error && o.actions == [] && o.output == ""
  }

  /** A condition that holds. */
  ghost predicate Holds(w: World, env: map<string, Val>, condition: string) {
    condition != "" && w.eval(condition, env) == Some(Bool(true))
  }

  /** A condition that does not; a clause without a condition counts as one. */
  ghost predicate FailsToHold(w: World, env: map<string, Val>, condition: string) {
    condition == "" || w.eval(condition, env) == Some(Bool(false))
  }

  lemma LoneIf(w: World, s: Stmt, c: Context)
    requires s.If?
    ensures Passes(ExecIf(w, LowerStmt(s), c), ExecBlock(w, Lower([s]), c))
  {
    hide ExecIf, Lower, LowerElseIfs;
    Lone(w, s, c);
    KindOf(s);
    NestedThen(Outcome([], "", c, None), ExecIf(w, LowerStmt(s), c));
  }

  /** When the condition holds, the if is its body. */
  lemma IfTrue(w: World, s: Stmt, c: Context, env: map<string, Val>)
    requires s.If? && IsEnv(env, c) && Holds(w, env, s.condition)
    ensures Passes(ExecBlock(w, Lower(s.body), c), ExecBlock(w, Lower([s]), c))
  {
    hide Lower, LowerElseIfs, ToEnv, ExecBlock, Passes;
    EnvIs(env, c);
    M.IfFields(s);
    LoneIf(w, s, c);
  }

  /** Otherwise it is the first else-if whose condition holds. */
  lemma IfElseIf(w: World, s: Stmt, c: Context, env: map<string, Val>, j: nat)
    requires s.If? && IsEnv(env, c) && s.condition != "" && w.eval(s.condition, env) == Some(Bool(false))
    requires j < |s.elseIfs| && Holds(w, env, s.elseIfs[j].condition)
    requires forall i :: 0 <= i < j ==> FailsToHold(w, env, s.elseIfs[i].condition)
    ensures Passes(ExecBlock(w, Lower(s.elseIfs[j].body), c), ExecBlock(w, Lower([s]), c))
  {
    hide Lower, LowerElseIfs, ToEnv, ExecBlock, Passes, ExecElseIfs;
    EnvIs(env, c);
    M.IfFields(s);
    LoneIf(w, s, c);
    ElseIfAt(w, s.elseIfs, c, env, j);
  }

  lemma {:induction false} ElseIfAt(w: World, elseIfs: seq<ElseIf>, c: Context, env: map<string, Val>, j: nat)
    requires IsEnv(env, c) && j < |elseIfs| && Holds(w, env, elseIfs[j].condition)
    requires forall i :: 0 <= i < j ==> FailsToHold(w, env, elseIfs[i].condition)
    ensures ExecElseIfs(w, LowerElseIfs(elseIfs), c) == Some(ExecBlock(w, Lower(elseIfs[j].body), c))
    decreases j
  {
    hide Lower, ToEnv, ExecBlock, IsEnv;
    EnvIs(env, c);
    ElseIfCons(elseIfs);
    if j > 0 {
      ElseIfAt(w, elseIfs[1..], c, env, j - 1);
    }
  }

  lemma ElseIfCons(elseIfs: seq<ElseIf>)
    requires elseIfs != []
    ensures var vs := LowerElseIfs(elseIfs);
            && vs != [] && vs[1..] == LowerElseIfs(elseIfs[1..]) && vs[0].Dict?
            && StrField(vs[0].fields, "condition") == elseIfs[0].condition
            && HasList(vs[0].fields, "body") && vs[0].fields["body"].items == Lower(elseIfs[0].body)
  {
    hide Lower;
  }

  lemma {:induction false} NoElseIf(w: World, elseIfs: seq<ElseIf>, c: Context, env: map<string, Val>)
    requires IsEnv(env, c) && forall i :: 0 <= i < |elseIfs| ==> FailsToHold(w, env, elseIfs[i].condition)
    ensures ExecElseIfs(w, LowerElseIfs(elseIfs), c) == None
    decreases elseIfs
  {
    hide Lower, ToEnv, ExecBlock, IsEnv;
    EnvIs(env, c);
    if elseIfs != [] {
      ElseIfCons(elseIfs);
      NoElseIf(w, elseIfs[1..], c, env);
    }
  }

  /** When none holds it is the else body, and without one nothing happens. */
  lemma IfElse(w: World, s: Stmt, c: Context, env: map<string, Val>)
    requires s.If? && IsEnv(env, c) && s.condition != "" && w.eval(s.condition, env) == Some(Bool(false))
    requires forall i :: 0 <= i < |s.elseIfs| ==> FailsToHold(w, env, s.elseIfs[i].condition)
    ensures s.elseBody.Else? ==> Passes(ExecBlock(w, Lower(s.elseBody.body), c), ExecBlock(w, Lower([s]), c))
    ensures s.elseBody.NoElse? ==> ExecBlock(w, Lower([s]), c) == Outcome([], "", c, None)
  {
    hide Lower, LowerElseIfs, ToEnv, ExecBlock, ExecElseIfs;
    EnvIs(env, c);
    M.IfFields(s);
    LoneIf(w, s, c);
    NoElseIf(w, s.elseIfs, c, env);
  }

  /** A condition that is reached and is neither true nor false is an error, and nothing runs. */
  lemma IfBad(w: World, s: Stmt, c: Context, env: map<string, Val>, j: nat)
    requires s.If? && IsEnv(env, c) && s.condition != "" && j <= |s.elseIfs|
    requires j > 0 ==> w.eval(s.condition, env) == Some(Bool(false))
    requires forall i :: 0 <= i < j - 1 ==> FailsToHold(w, env, s.elseIfs[i].condition)
    requires var bad := if j == 0 then s.condition else s.elseIfs[j - 1].condition;
             bad != "" && w.eval(bad, env) != Some(Bool(true)) && w.eval(bad, env) != Some(Bool(false))
    ensures ExecBlock(w, Lower([s]), c) ==
            Outcome([], "", c, Some(BadCondition(if j == 0 then s.condition else s.elseIfs[j - 1].condition)))
  {
    hide Lower, LowerElseIfs, ToEnv, ExecBlock, ExecElseIfs;
    EnvIs(env, c);
    M.IfFields(s);
    LoneIf(w, s, c);
    if j > 0 {
      BadElseIf(w, s.elseIfs, c, env, j - 1);
    }
  }

  lemma {:induction false} BadElseIf(w: World, elseIfs: seq<ElseIf>, c: Context, env: map<string, Val>, j: nat)
    requires IsEnv(env, c) && j < |elseIfs|
    requires forall i :: 0 <= i < j ==> FailsToHold(w, env, elseIfs[i].condition)
    requires var bad := elseIfs[j].condition;
             bad != "" && w.eval(bad, env) != Some(Bool(true)) && w.eval(bad, env) != Some(Bool(false))
    ensures ExecElseIfs(w, LowerElseIfs(elseIfs), c) ==
            Some(Outcome([], "", c, Some(BadCondition(elseIfs[j].condition))))
    decreases j
  {
    hide Lower, ToEnv, ExecBlock, IsEnv;
    EnvIs(env, c);
    ElseIfCons(elseIfs);
    if j > 0 {
      BadElseIf(w, elseIfs[1..], c, env, j - 1);
    }
  }

  // ---- Loops ----

  ghost function RoundFrom(w: World, x: string, body: seq<Stmt>, item: Val, ctx: Context): Outcome {
    ExecBlock(w, Lower(body), ctx.(variables := ctx.variables[x := item]))
  }

  ghost predicate IsRound(w: World, x: string, body: seq<Stmt>, items: seq<Val>, c: Context, rounds: seq<Outcome>,
                          i: int)
    requires 0 <= i < |rounds| <= |items|
  {
    rounds[i] == RoundFrom(w, x, body, items[i], if i == 0 then c else rounds[i - 1].ctx)
  }

  /** The rounds of a loop: each runs the body with x bound to the next item, in the context the round before left, and
      only the last one may fail. */
  ghost predicate AreRounds(w: World, x: string, body: seq<Stmt>, items: seq<Val>, c: Context, rounds: seq<Outcome>) {
    && |rounds| <= |items|
    && (forall i :: 0 <= i < |rounds| ==> IsRound(w, x, body, items, c, rounds, i))
    && (forall i :: 0 <= i < |rounds| - 1 ==> rounds[i].error.None?)
    && (|rounds| < |items| ==> rounds != [] && rounds[|rounds| - 1].error.Some?)
  }

  /** The actions of the rounds that did not fail, in order. */
  ghost function ActionsOf(rounds: seq<Outcome>): seq<Action> {
    if rounds == [] then [] else
      var last := rounds[|rounds| - 1];
      ActionsOf(rounds[..|rounds| - 1]) + if last.error.None? then last.actions else []
  }

  /** The last output that is not empty. */
  ghost predicate LastOutput(rounds: seq<Outcome>, output: string) {
    || (output == "" && forall i :: 0 <= i < |rounds| && rounds[i].error.None? ==> rounds[i].output == "")
    || exists i ::
         && 0 <= i < |rounds| && rounds[i].error.None? && rounds[i].output == output != ""
         && forall j :: i < j < |rounds| && rounds[j].error.None? ==> rounds[j].output == ""
  }

  ghost predicate Summary(rounds: seq<Outcome>, c: Context, o: Outcome) {
    && o.ctx == (if rounds == [] then c else rounds[|rounds| - 1].ctx)
    && o.error == (if rounds == [] then None else rounds[|rounds| - 1].error)
    && o.actions == ActionsOf(rounds) && LastOutput(rounds, o.output)
  }

  lemma {:induction false} ItemsRounds(w: World, x: string, body: seq<Stmt>, items: seq<Val>, c: Context)
    returns (rounds: seq<Outcome>)
    ensures AreRounds(w, x, body, items, c, rounds)
    ensures Summary(rounds, c, ExecItems(w, x, Lower(body), items, c))
    decreases |items|
  {
    hide Lower, ExecBlock, AreRounds, Summary;
    if items == [] {
      rounds := [];
      NoRounds(w, x, body, c);
    } else {
      var n := |items| - 1;
      rounds := ItemsRounds(w, x, body, items[..n], c);
      var before := ExecItems(w, x, Lower(body), items[..n], c);
      if before.error.Some? {
        StoppedRounds(w, x, body, items, c, rounds, before);
      } else {
        var one := ExecBlock(w, Lower(body), before.ctx.(variables := before.ctx.variables[x := items[n]]));
        NextRound(w, x, body, items, c, rounds, before, one);
        rounds := rounds + [one];
      }
    }
  }

  lemma NoRounds(w: World, x: string, body: seq<Stmt>, c: Context)
    ensures AreRounds(w, x, body, [], c, []) && Summary([], c, Outcome([], "", c, None))
  {
  }

  lemma StoppedRounds(w: World, x: string, body: seq<Stmt>, items: seq<Val>, c: Context, rounds: seq<Outcome>,
                      before: Outcome)
    requires items != [] && AreRounds(w, x, body, items[..|items| - 1], c, rounds) && Summary(rounds, c, before)
    requires before.error.Some?
    ensures AreRounds(w, x, body, items, c, rounds)
  {
    hide RoundFrom;
    forall i | 0 <= i < |rounds| ensures IsRound(w, x, body, items, c, rounds, i) {
      assert IsRound(w, x, body, items[..|items| - 1], c, rounds, i);
    }
  }

  lemma NextRound(w: World, x: string, body: seq<Stmt>, items: seq<Val>, c: Context, rounds: seq<Outcome>,
                  before: Outcome, one: Outcome)
    requires items != [] && AreRounds(w, x, body, items[..|items| - 1], c, rounds) && Summary(rounds, c, before)
    requires before.error.None?
    requires one == RoundFrom(w, x, body, items[|items| - 1], before.ctx)
    ensures AreRounds(w, x, body, items, c, rounds + [one])
    ensures Summary(rounds + [one], c, TakeBlock(before, one))
  {
    hide RoundFrom;
    var all, n := rounds + [one], |items| - 1;
    assert |rounds| == n && all[..n] == rounds;
    forall i | 0 <= i < |all| ensures IsRound(w, x, body, items, c, all, i) {
      assert i > 0 ==> all[i - 1] == rounds[i - 1];
      if i < n {
        assert IsRound(w, x, body, items[..n], c, rounds, i);
      }
    }
    forall i | 0 <= i < |all| - 1 ensures all[i].error.None? {
      assert all[i] == rounds[i];
    }
    NextOutput(rounds, before.output, one);
  }

  lemma NextOutput(rounds: seq<Outcome>, output: string, one: Outcome)
    requires LastOutput(rounds, output)
    ensures LastOutput(rounds + [one], if one.error.Some? || one.output == "" then output else one.output)
  {
    var all, n := rounds + [one], |rounds|;
    assert forall i :: 0 <= i < n ==> all[i] == rounds[i];
    if one.error.None? && one.output != "" {
      assert all[n].output == one.output;
    } else if output != "" {
      var i :| 0 <= i < |rounds| && rounds[i].error.None? && rounds[i].output == output
               && forall j :: i < j < |rounds| && rounds[j].error.None? ==> rounds[j].output == "";
      assert all[i].error.None? && all[i].output == output;
    }
  }

  /** A loop runs its body once for every item, in order, until a round fails. Its actions are theirs, its output their
      last one that is not empty, and the loop variable is gone afterwards, also when the collection was nil. */
  lemma LoopLaw(w: World, x: string, coll: string, body: seq<Stmt>, c: Context, env: map<string, Val>)
    returns (rounds: seq<Outcome>)
    requires IsEnv(env, c) && x != "" && coll != ""
    ensures var value, o := w.eval(coll, env), ExecBlock(w, Lower([ForEach(x, coll, body)]), c);
            if value.None? then o == Outcome([], "", c, Some(BadCollection(coll)))
            else if !value.value.Items? && !value.value.Nil? then o == Outcome([], "", c, Some(NotIterable(coll)))
            else
              var items := if value.value.Items? then value.value.items else [];
              && AreRounds(w, x, body, items, c, rounds)
              && exists inner ::
                   && Summary(rounds, c, inner)
                   && Passes(inner.(ctx := inner.ctx.(variables := inner.ctx.variables - {x})), o)
  {
    hide Lower, ToEnv, ExecBlock, ExecItems, AreRounds, Summary;
    var s := ForEach(x, coll, body);
    EnvIs(env, c);
    LoneLoop(w, s, c);
    LoopFields(s);
    var value := w.eval(coll, env);
    rounds := [];
    if value.Some? && (value.value.Items? || value.value.Nil?) {
      var items := if value.value.Items? then value.value.items else [];
      rounds := ItemsRounds(w, x, body, items, c);
      var inner := ExecItems(w, x, Lower(body), items, c);
      assert Summary(rounds, c, inner);
    }
  }

  lemma LoopFields(s: Stmt)
    requires s.ForEach?
    ensures LowerStmt(s).Dict?
    ensures var m := LowerStmt(s).fields;
            && StrField(m, "variable") == s.variable && StrField(m, "collection") == s.collection
            && HasList(m, "body") && m["body"].items == Lower(s.body)
  {
    hide Lower;
  }

  lemma LoneLoop(w: World, s: Stmt, c: Context)
    requires s.ForEach?
    ensures Passes(ExecForEach(w, LowerStmt(s), c), ExecBlock(w, Lower([s]), c))
  {
    hide ExecForEach, Lower;
    Lone(w, s, c);
    KindOf(s);
    NestedThen(Outcome([], "", c, None), ExecForEach(w, LowerStmt(s), c));
  }
}
