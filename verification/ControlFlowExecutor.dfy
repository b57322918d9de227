/** The control flow executor as the source writes it: loops over statements that update the actions,
    the output and the shared runtime context (internal/controlflow). */
module ControlFlowExecutor {
  import opened Wrappers
  import opened OnInput
  import opened ControlFlow

  class RuntimeContext {
    var input: Val
    var session: map<string, Val>
    var steps: map<string, Val>
    var config: map<string, Val>
    var output: Val
    var variables: map<string, Val>
    /** The calls made so far, which is all that skills and agents can depend on besides their arguments. */
    var calls: seq<Call>

    function View(): Context
      reads this
    {
      Context(input, session, config, steps, output, variables, calls)
    }

    constructor (input: Val, session: map<string, Val>, config: map<string, Val>)
      ensures View() == Context(input, session, config, map[], Nil, map[], [])
    {
      this.input, this.session, this.config := input, session, config;
      steps, output, variables, calls := map[], Nil, map[], [];
    }

    method SetOutput(value: Val)
      modifies this`output
      ensures output == value
    {
      output := value;
    }

    method RecordStep(name: string, value: Val)
      modifies this`steps
      ensures steps == old(steps)[name := value]
    {
      steps := steps[name := value];
    }

    method SetVariable(name: string, value: Val)
      modifies this`variables
      ensures variables == old(variables)[name := value]
    {
      variables := variables[name := value];
    }

    method DeleteVariable(name: string)
      modifies this`variables
      ensures variables == old(variables) - {name}
    {
      variables := variables - {name};
    }

    /** A call goes out and is answered, or fails. */
    method Ask(w: World, call: Call) returns (reply: Option<string>)
      modifies this`calls
      ensures reply == w.answer(old(calls), call) && calls == old(calls) + [call]
    {
      reply := w.answer(calls, call);
      calls := calls + [call];
    }
  }

  /** A block that failed stays as it was. */
  lemma {:induction false} FailedBlock(w: World, stmts: seq<Value>, i: nat, c: Context)
    requires i <= |stmts| && ExecBlock(w, stmts[..i], c).error.Some?
    ensures ExecBlock(w, stmts, c) == ExecBlock(w, stmts[..i], c)
    decreases |stmts| - i
  {
    if i == |stmts| {
      assert stmts[..i] == stmts;
    } else {
      assert stmts[..i + 1][..i] == stmts[..i];
      FailedBlock(w, stmts, i + 1, c);
    }
  }

  lemma {:induction false} FailedItems(w: World, x: string, body: seq<Value>, items: seq<Val>, i: nat, c: Context)
    requires i <= |items| && ExecItems(w, x, body, items[..i], c).error.Some?
    ensures ExecItems(w, x, body, items, c) == ExecItems(w, x, body, items[..i], c)
    decreases |items| - i
  {
    if i == |items| {
      assert items[..i] == items;
    } else {
      assert items[..i + 1][..i] == items[..i];
      FailedItems(w, x, body, items, i + 1, c);
    }
  }

  method ExecuteBlock(w: World, stmts: seq<Value>, rc: RuntimeContext)
    returns (actions: seq<Action>, output: string, error: Option<Error>)
    modifies rc
    ensures Outcome(actions, output, rc.View(), error) == ExecBlock(w, stmts, old(rc.View()))
    decreases stmts, 0
  {
    hide ExecStmt;
    actions, output, error := [], "", None;
    ghost var c := rc.View();
    for i := 0 to |stmts|
      invariant error == None && ExecBlock(w, stmts[..i], c) == Outcome(actions, output, rc.View(), None)
    {
      assert stmts[..i + 1][..i] == stmts[..i];
      actions, output, error := ExecuteStmt(w, stmts[i], rc, actions, output);
      if error.Some? {
        FailedBlock(w, stmts, i + 1, c);
        return;
      }
    }
    assert stmts[..|stmts|] == stmts;
  }

  /** The body of the loop: the accumulated actions and output go in and come out. */
  method ExecuteStmt(w: World, stmt: Value, rc: RuntimeContext, before: seq<Action>, last: string)
    returns (actions: seq<Action>, output: string, error: Option<Error>)
    modifies rc
    ensures Outcome(actions, output, rc.View(), error) ==
            ExecStmt(w, stmt, Outcome(before, last, old(rc.View()), None))
    decreases stmt, 2
  {
    hide ExecIf, ExecForEach;
    actions, output, error := before, last, None;
    if !stmt.Dict? {
      return;
    }
    var m := stmt.fields;
    var kind := StrField(m, "type");
    if kind == "use_skill" || kind == "delegate" || kind == "respond" {
      var more, out, err;
      if kind == "use_skill" {
        more, out, err := ExecuteUseSkill(w, m, rc);
      } else if kind == "delegate" {
        more, out, err := ExecuteDelegate(w, m, rc);
      } else {
        more, out, err := ExecuteRespond(w, m, rc);
      }
      if err.Some? {
        error := err;
        return;
      }
      actions, output := actions + more, out;
    } else if kind == "if" || kind == "for_each" {
      var more, out, err;
      if kind == "if" {
        more, out, err := ExecuteIf(w, stmt, rc);
      } else {
        more, out, err := ExecuteForEach(w, stmt, rc);
      }
      if err.Some? {
        error := err;
        return;
      }
      actions := actions + more;
      if out != "" {
        output := out;
      }
    } else {
      error := Some(UnknownType(kind));
    }
  }

  method ExecuteUseSkill(w: World, m: map<string, Value>, rc: RuntimeContext)
    returns (actions: seq<Action>, output: string, error: Option<Error>)
    modifies rc
    ensures Outcome(actions, output, rc.View(), error) ==
            if StrField(m, "skill") == "" then Fail(old(rc.View()), Missing("skill"))
            else UseSkillOnce(w, StrField(m, "skill"), Params(m), old(rc.View()))
  {
    actions, output, error := [], "", None;
    var skill := StrField(m, "skill");
    if skill == "" {
      error := Some(Missing("skill"));
      return;
    }
    var params := Params(m);
    if !w.hasSkills {
      error := Some(NotConfigured);
      return;
    }
    var call := SkillCall(skill, params, rc.input);
    var reply := rc.Ask(w, call);
    if reply.None? {
      error := Some(CallFailed(call));
      return;
    }
    actions, output := [UsedSkill(skill, params, reply.value)], reply.value;
    rc.RecordStep(skill, Text(output));
    rc.SetOutput(Text(output));
  }

  method ExecuteDelegate(w: World, m: map<string, Value>, rc: RuntimeContext)
    returns (actions: seq<Action>, output: string, error: Option<Error>)
    modifies rc
    ensures Outcome(actions, output, rc.View(), error) ==
            if StrField(m, "agent") == "" then Fail(old(rc.View()), Missing("agent"))
            else DelegateOnce(w, StrField(m, "agent"), old(rc.View()))
  {
    actions, output, error := [], "", None;
    var agent := StrField(m, "agent");
    if agent == "" {
      error := Some(Missing("agent"));
      return;
    }
    if !w.hasAgents {
      error := Some(NotConfigured);
      return;
    }
    var call := AgentCall(agent, rc.input);
    var reply := rc.Ask(w, call);
    if reply.None? {
      error := Some(CallFailed(call));
      return;
    }
    actions, output := [Delegated(agent, reply.value)], reply.value;
    rc.SetOutput(Text(output));
  }

  method ExecuteRespond(w: World, m: map<string, Value>, rc: RuntimeContext)
    returns (actions: seq<Action>, output: string, error: Option<Error>)
    modifies rc
    ensures Outcome(actions, output, rc.View(), error) ==
            if StrField(m, "expression") == "" then Fail(old(rc.View()), Missing("expression"))
            else RespondOnce(w, StrField(m, "expression"), old(rc.View()))
  {
    actions, output, error := [], "", None;
    var e := StrField(m, "expression");
    if e == "" {
      error := Some(Missing("expression"));
      return;
    }
    match w.eval(e, ToEnv(rc.View())) {
      case None =>
        actions, output := [Responded(e, Text(e))], e;
      case Some(v) =>
        actions, output := [Responded(e, v)], w.show(v);
    }
    rc.SetOutput(Text(output));
  }

  method ExecuteIf(w: World, stmt: Value, rc: RuntimeContext)
    returns (actions: seq<Action>, output: string, error: Option<Error>)
    requires stmt.Dict?
    modifies rc
    ensures Outcome(actions, output, rc.View(), error) == ExecIf(w, stmt, old(rc.View()))
    decreases stmt, 1
  {
    hide ExecBlock, ExecElseIfs;
    actions, output, error := [], "", None;
    var m := stmt.fields;
    var cond := StrField(m, "condition");
    if cond == "" {
      error := Some(Missing("condition"));
      return;
    }
    var holds := EvalBool(w, rc.View(), cond);
    if holds.None? {
      error := Some(BadCondition(cond));
      return;
    }
    if holds.value {
      if HasList(m, "body") {
        actions, output, error := ExecuteBlock(w, m["body"].items, rc);
      }
      return;
    }
    if HasList(m, "else_ifs") {
      var taken;
      taken, actions, output, error := ExecuteElseIfs(w, m["else_ifs"].items, rc);
      if taken {
        return;
      }
    }
    if HasList(m, "else_body") && |m["else_body"].items| > 0 {
      actions, output, error := ExecuteBlock(w, m["else_body"].items, rc);
      return;
    }
    EmptyBlock(w, rc.View());
    return [], "", None;
  }

  lemma EmptyBlock(w: World, c: Context)
    ensures ExecBlock(w, [], c) == Empty(c)
  {
  }

  /** The loop over the else-if clauses; taken says whether one of them returned. */
  method ExecuteElseIfs(w: World, elseIfs: seq<Value>, rc: RuntimeContext)
    returns (taken: bool, actions: seq<Action>, output: string, error: Option<Error>)
    modifies rc
    ensures taken <==> ExecElseIfs(w, elseIfs, old(rc.View())).Some?
    ensures taken ==> Some(Outcome(actions, output, rc.View(), error)) == ExecElseIfs(w, elseIfs, old(rc.View()))
    ensures !taken ==> rc.View() == old(rc.View())
    decreases elseIfs, 0
  {
    hide ExecBlock;
    actions, output, error := [], "", None;
    for i := 0 to |elseIfs|
      invariant rc.View() == old(rc.View())
      invariant ExecElseIfs(w, elseIfs, rc.View()) == ExecElseIfs(w, elseIfs[i..], rc.View())
    {
      var e := elseIfs[i];
      assert elseIfs[i..][0] == e && elseIfs[i..][1..] == elseIfs[i + 1..];
      if !e.Dict? {
        continue;
      }
      var cond := StrField(e.fields, "condition");
      if cond == "" {
        continue;
      }
      var holds := EvalBool(w, rc.View(), cond);
      if holds.None? {
        return true, [], "", Some(BadCondition(cond));
      }
      if holds.value {
        if HasList(e.fields, "body") {
          assert e in elseIfs;
          actions, output, error := ExecuteBlock(w, e.fields["body"].items, rc);
        }
        return true, actions, output, error;
      }
    }
    assert elseIfs[|elseIfs|..] == [];
    taken := false;
  }

  method ExecuteForEach(w: World, stmt: Value, rc: RuntimeContext)
    returns (actions: seq<Action>, output: string, error: Option<Error>)
    requires stmt.Dict?
    modifies rc
    ensures Outcome(actions, output, rc.View(), error) == ExecForEach(w, stmt, old(rc.View()))
    decreases stmt, 1
  {
    hide ExecItems;
    actions, output, error := [], "", None;
    var m := stmt.fields;
    var x := StrField(m, "variable");
    if x == "" {
      error := Some(Missing("variable"));
      return;
    }
    var coll := StrField(m, "collection");
    if coll == "" {
      error := Some(Missing("collection"));
      return;
    }
    var result := w.eval(coll, ToEnv(rc.View()));
    if result.None? {
      error := Some(BadCollection(coll));
      return;
    }
    var items := ToSlice(result.value);
    if items.None? {
      error := Some(NotIterable(coll));
      return;
    }
    if HasList(m, "body") {
      actions, output, error := ExecuteItems(w, x, m["body"].items, items.value, rc);
    }
    rc.DeleteVariable(x);
  }

  /** The iterations of a for-each; the caller removes the loop variable on both exits. */
  method ExecuteItems(w: World, x: string, body: seq<Value>, items: seq<Val>, rc: RuntimeContext)
    returns (actions: seq<Action>, output: string, error: Option<Error>)
    modifies rc
    ensures Outcome(actions, output, rc.View(), error) == ExecItems(w, x, body, items, old(rc.View()))
    decreases body, 1
  {
    hide ExecBlock;
    actions, output, error := [], "", None;
    ghost var c := rc.View();
    for i := 0 to |items|
      invariant error == None && ExecItems(w, x, body, items[..i], c) == Outcome(actions, output, rc.View(), None)
    {
      assert items[..i + 1][..i] == items[..i];
      rc.SetVariable(x, items[i]);
      var more, out;
      more, out, error := ExecuteBlock(w, body, rc);
      if error.Some? {
        FailedItems(w, x, body, items, i + 1, c);
        return;
      }
      actions := actions + more;
      if out != "" {
        output := out;
      }
    }
    assert items[..|items|] == items;
  }
}
