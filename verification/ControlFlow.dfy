/** The executor of internal/controlflow/executor.go over lowered statements. */
module ControlFlow {
  import opened Wrappers
  import opened OnInput

  datatype Val = Nil | Bool(b: bool) | Text(t: string) | Items(items: seq<Val>) | Fields(fields: map<string, Val>)

  datatype Call = SkillCall(skill: string, params: Option<map<string, string>>, input: Val)
                | AgentCall(agent: string, input: Val)

  datatype Error = Missing(field: string) | UnknownType(name: string) | NotConfigured | CallFailed(call: Call)
                 | BadCondition(expression: string) | BadCollection(expression: string)
                 | NotIterable(expression: string)

  /** The world outside: skills and agents answer depending on all calls so far, expressions are
      evaluated in an environment, values are rendered as text. */
  datatype World = World(hasSkills: bool, hasAgents: bool, answer: (seq<Call>, Call) -> Option<string>,
                         eval: (string, map<string, Val>) -> Option<Val>, show: Val -> string)

  /** RuntimeContext, with the calls made so far. */
  datatype Context = Context(input: Val, session: map<string, Val>, config: map<string, Val>, steps: map<string, Val>,
                             output: Val, variables: map<string, Val>, calls: seq<Call>)

  datatype Action = UsedSkill(skill: string, params: Option<map<string, string>>, result: string)
                  | Delegated(agent: string, result: string)
                  | Responded(expression: string, value: Val)

  datatype Outcome = Outcome(actions: seq<Action>, output: string, ctx: Context, error: Option<Error>)

  function ToEnv(c: Context): map<string, Val> {
    map["input" := c.input, "session" := Fields(c.session), "steps" := Fields(c.steps), "config" := Fields(c.config),
        "output" := c.output] + c.variables
  }

  function EvalBool(w: World, c: Context, e: string): Option<bool> {
    match w.eval(e, ToEnv(c))
    case Some(Bool(b)) => Some(b)
    case _ => None
  }

  function StrField(m: map<string, Value>, k: string): string {
    if k in m && m[k].Str? then m[k].s else ""
  }

  predicate HasList(m: map<string, Value>, k: string) {
    k in m && m[k].List?
  }

  function Params(m: map<string, Value>): Option<map<string, string>> {
    if "params" in m && m["params"].Dict? then
      var p := m["params"].fields;
      Some(map k | k in p :: if p[k].Str? then p[k].s else "")
    else None
  }

  function Empty(c: Context): Outcome {
    Outcome([], "", c, None)
  }

  function Fail(c: Context, e: Error): Outcome {
    Outcome([], "", c, Some(e))
  }

  /** toSlice: only lists and nil can be iterated over. */
  function ToSlice(v: Val): Option<seq<Val>> {
    match v
    case Items(items) => Some(items)
    case Nil => Some([])
    case _ => None
  }

  // ---- Statements without nesting: one action, one output, or an error ----

  function UseSkillOnce(w: World, skill: string, params: Option<map<string, string>>, c: Context): Outcome {
    if !w.hasSkills then Fail(c, NotConfigured) else
    var call := SkillCall(skill, params, c.input);
    var after := c.(calls := c.calls + [call]);
    match w.answer(c.calls, call)
    case Some(r) =>
      Outcome([UsedSkill(skill, params, r)], r, after.(steps := c.steps[skill := Text(r)], output := Text(r)), None)
    case None => Fail(after, CallFailed(call))
  }

  function DelegateOnce(w: World, agent: string, c: Context): Outcome {
    if !w.hasAgents then Fail(c, NotConfigured) else
    var call := AgentCall(agent, c.input);
    var after := c.(calls := c.calls + [call]);
    match w.answer(c.calls, call)
    case Some(r) => Outcome([Delegated(agent, r)], r, after.(output := Text(r)), None)
    case None => Fail(after, CallFailed(call))
  }

  /** An expression that does not evaluate is taken as literal text. */
  function RespondOnce(w: World, e: string, c: Context): Outcome {
    match w.eval(e, ToEnv(c))
    case Some(v) => Outcome([Responded(e, v)], w.show(v), c.(output := Text(w.show(v))), None)
    case None => Outcome([Responded(e, Text(e))], e, c.(output := Text(e)), None)
  }

  /** How `ExecuteBlock` takes over the outcome of one statement: an error keeps what was there before. */
  function Take(before: Outcome, one: Outcome): Outcome {
    if one.error.Some? then before.(ctx := one.ctx, error := one.error)
    else Outcome(before.actions + one.actions, one.output, one.ctx, None)
  }

  /** The same for a nested block, whose empty output does not replace the current one. */
  function TakeBlock(before: Outcome, one: Outcome): Outcome {
    if one.error.Some? || one.output != "" then Take(before, one)
    else Take(before, one.(output := before.output))
  }

  // ---- ExecuteBlock as a function of the context ----

  function ExecBlock(w: World, stmts: seq<Value>, c: Context): Outcome
    decreases stmts, 0
  {
    if stmts == [] then Empty(c) else
      var before := ExecBlock(w, stmts[..|stmts| - 1], c);
      if before.error.Some? then before else ExecStmt(w, stmts[|stmts| - 1], before)
  }

  function ExecStmt(w: World, stmt: Value, before: Outcome): Outcome
    decreases stmt, 2
  {
    if !stmt.Dict? then before else
      var m, c := stmt.fields, before.ctx;
      var kind := StrField(m, "type");
      if kind == "use_skill" then
        var skill := StrField(m, "skill");
        Take(before, if skill == "" then Fail(c, Missing("skill")) else UseSkillOnce(w, skill, Params(m), c))
      else if kind == "delegate" then
        var agent := StrField(m, "agent");
        Take(before, if agent == "" then Fail(c, Missing("agent")) else DelegateOnce(w, agent, c))
      else if kind == "respond" then
        var e := StrField(m, "expression");
        Take(before, if e == "" then Fail(c, Missing("expression")) else RespondOnce(w, e, c))
      else if kind == "if" then TakeBlock(before, ExecIf(w, stmt, c))
      else if kind == "for_each" then TakeBlock(before, ExecForEach(w, stmt, c))
      else before.(error := Some(UnknownType(kind)))
  }

  function ExecIf(w: World, stmt: Value, c: Context): Outcome
    requires stmt.Dict?
    decreases stmt, 1
  {
    var m := stmt.fields;
    var cond := StrField(m, "condition");
    if cond == "" then Fail(c, Missing("condition")) else
    match EvalBool(w, c, cond)
    case None => Fail(c, BadCondition(cond))
    case Some(true) => if HasList(m, "body") then ExecBlock(w, m["body"].items, c) else Empty(c)
    case Some(false) =>
      match if HasList(m, "else_ifs") then ExecElseIfs(w, m["else_ifs"].items, c) else None
      case Some(o) => o
      case None => if HasList(m, "else_body") then ExecBlock(w, m["else_body"].items, c) else Empty(c)
  }

  /** The first else-if whose condition holds; clauses without a condition are passed over. */
  function ExecElseIfs(w: World, elseIfs: seq<Value>, c: Context): Option<Outcome>
    decreases elseIfs, 0
  {
    if elseIfs == [] then None else
      var e := elseIfs[0];
      var cond := if e.Dict? then StrField(e.fields, "condition") else "";
      if cond == "" then ExecElseIfs(w, elseIfs[1..], c) else
      match EvalBool(w, c, cond)
      case None => Some(Fail(c, BadCondition(cond)))
      case Some(true) => Some(if HasList(e.fields, "body") then ExecBlock(w, e.fields["body"].items, c) else Empty(c))
      case Some(false) => ExecElseIfs(w, elseIfs[1..], c)
  }

  function ExecForEach(w: World, stmt: Value, c: Context): Outcome
    requires stmt.Dict?
    decreases stmt, 1
  {
    var m := stmt.fields;
    var x, coll := StrField(m, "variable"), StrField(m, "collection");
    if x == "" then Fail(c, Missing("variable")) else
    if coll == "" then Fail(c, Missing("collection")) else
    match w.eval(coll, ToEnv(c))
    case None => Fail(c, BadCollection(coll))
    case Some(v) =>
      match ToSlice(v)
      case None => Fail(c, NotIterable(coll))
      case Some(items) =>
        Unbind(x, if HasList(m, "body") then ExecItems(w, x, m["body"].items, items, c) else Empty(c))
  }

  /** The loop variable is removed on normal and on error exit. */
  function Unbind(x: string, o: Outcome): Outcome {
    o.(ctx := o.ctx.(variables := o.ctx.variables - {x}))
  }

  /** The iterations of a loop; one that fails drops its own actions and output. */
  function ExecItems(w: World, x: string, body: seq<Value>, items: seq<Val>, c: Context): Outcome
    decreases body, 1, |items|
  {
    if items == [] then Empty(c) else
      var before := ExecItems(w, x, body, items[..|items| - 1], c);
      if before.error.Some? then before else
      var ctx := before.ctx.(variables := before.ctx.variables[x := items[|items| - 1]]);
      TakeBlock(before, ExecBlock(w, body, ctx))
  }
}
