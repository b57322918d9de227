/** A direct interpreter of `on input` blocks, the validators of internal/validate, and the theorem that
    executing the lowered form of a valid block is running the block. */
module OnInputMeaning {
  import opened Wrappers
  import opened OnInput
  import opened ControlFlow

  // ---- Structural validation (internal/validate/structural.go) ----

  function Complain(bad: bool, message: string): seq<string> {
    if bad then [message] else []
  }

  function ValidateStmt(s: Stmt): seq<string> {
    match s
    case UseSkill(skill, _) => Complain(skill == "", "use skill requires a skill name")
    case Delegate(agent) => Complain(agent == "", "delegate requires an agent name")
    case Respond(e) => Complain(e == "", "respond requires an expression")
    case If(c, body, elseIfs, elseBody) =>
      Complain(c == "", "if block requires a condition") + ValidateStmts(body) + ValidateElseIfs(elseIfs) +
      (match elseBody case NoElse => [] case Else(b) => ValidateStmts(b))
    case ForEach(x, c, body) =>
      Complain(x == "", "for each requires a variable name") +
      Complain(c == "", "for each requires a collection expression") + ValidateStmts(body)
  }

  function ValidateStmts(stmts: seq<Stmt>): seq<string> {
    if stmts == [] then [] else ValidateStmts(stmts[..|stmts| - 1]) + ValidateStmt(stmts[|stmts| - 1])
  }

  function ValidateElseIfs(elseIfs: seq<ElseIf>): seq<string> {
    if elseIfs == [] then [] else
      Complain(elseIfs[0].condition == "", "else if requires a condition") + ValidateStmts(elseIfs[0].body) +
      ValidateElseIfs(elseIfs[1..])
  }

  // ---- The meaning of a block ----

  function RunBlock(w: World, stmts: seq<Stmt>, c: Context): Outcome
    decreases stmts, 0
  {
    if stmts == [] then Empty(c) else
      var before := RunBlock(w, stmts[..|stmts| - 1], c);
      if before.error.Some? then before else RunStmt(w, stmts[|stmts| - 1], before)
  }

  function RunStmt(w: World, s: Stmt, before: Outcome): Outcome
    decreases s, 1
  {
    match s
    case UseSkill(skill, params) =>
      Take(before, UseSkillOnce(w, skill, if params == map[] then None else Some(params), before.ctx))
    case Delegate(agent) => Take(before, DelegateOnce(w, agent, before.ctx))
    case Respond(e) => Take(before, RespondOnce(w, e, before.ctx))
    case If(cond, body, elseIfs, elseBody) => TakeBlock(before, RunIf(w, s, before.ctx))
    case ForEach(x, coll, body) => TakeBlock(before, RunForEach(w, s, before.ctx))
  }

  function RunIf(w: World, s: Stmt, c: Context): Outcome
    requires s.If?
    decreases s, 0
  {
    match EvalBool(w, c, s.condition)
    case None => Fail(c, BadCondition(s.condition))
    case Some(true) => RunBlock(w, s.body, c)
    case Some(false) =>
      match RunElseIfs(w, s.elseIfs, c)
      case Some(o) => o
      case None => match s.elseBody case NoElse => Empty(c) case Else(b) => RunBlock(w, b, c)
  }

  function RunElseIfs(w: World, elseIfs: seq<ElseIf>, c: Context): Option<Outcome>
    decreases elseIfs, 0
  {
    if elseIfs == [] then None else
      match EvalBool(w, c, elseIfs[0].condition)
      case None => Some(Fail(c, BadCondition(elseIfs[0].condition)))
      case Some(true) => Some(RunBlock(w, elseIfs[0].body, c))
      case Some(false) => RunElseIfs(w, elseIfs[1..], c)
  }

  function RunForEach(w: World, s: Stmt, c: Context): Outcome
    requires s.ForEach?
    decreases s, 0
  {
    match w.eval(s.collection, ToEnv(c))
    case None => Fail(c, BadCollection(s.collection))
    case Some(v) =>
      match ToSlice(v)
      case None => Fail(c, NotIterable(s.collection))
      case Some(items) => Unbind(s.variable, RunItems(w, s.variable, s.body, items, c))
  }

  function RunItems(w: World, x: string, body: seq<Stmt>, items: seq<Val>, c: Context): Outcome
    decreases body, 1, |items|
  {
    if items == [] then Empty(c) else
      var before := RunItems(w, x, body, items[..|items| - 1], c);
      if before.error.Some? then before else
      TakeBlock(before, RunBlock(w, body, before.ctx.(variables := before.ctx.variables[x := items[|items| - 1]])))
  }

  // ---- Lowering preserves meaning ----

  lemma {:induction false} LowerSnoc(stmts: seq<Stmt>)
    requires stmts != []
    ensures Lower(stmts) == Lower(stmts[..|stmts| - 1]) + [LowerStmt(stmts[|stmts| - 1])]
    ensures Lower(stmts)[..|Lower(stmts)| - 1] == Lower(stmts[..|stmts| - 1])
  {
  }

  /** Same calls in the same order, same actions, output, context and error, for every world. */
  lemma {:induction false} LoweringPreserves(w: World, stmts: seq<Stmt>, c: Context)
    requires ValidateStmts(stmts) == []
    ensures ExecBlock(w, Lower(stmts), c) == RunBlock(w, stmts, c)
    decreases stmts, 0
  {
    if stmts != [] {
      LowerSnoc(stmts);
      LoweringPreserves(w, stmts[..|stmts| - 1], c);
      var before := RunBlock(w, stmts[..|stmts| - 1], c);
      LowerStmtPreserves(w, stmts[|stmts| - 1], before);
    }
  }

  lemma {:induction false} LowerStmtPreserves(w: World, s: Stmt, before: Outcome)
    requires ValidateStmt(s) == []
    ensures ExecStmt(w, LowerStmt(s), before) == RunStmt(w, s, before)
    decreases s, 1
  {
    hide Lower, LowerElseIfs, ExecBlock, RunBlock, UseSkillOnce, DelegateOnce, RespondOnce, ValidateStmts, ExecIf,
         ExecForEach, RunIf, RunForEach, Params;
    match s
    case UseSkill(skill, params) =>
      LowerCallPreserves(w, s, before);
    case Delegate(agent) =>
      LowerCallPreserves(w, s, before);
    case Respond(e) =>
      LowerCallPreserves(w, s, before);
    case If(cond, body, elseIfs, elseBody) =>
      LowerIfPreserves(w, s, before.ctx);
    case ForEach(x, coll, body) =>
      LowerForEachPreserves(w, s, before.ctx);
  }

  lemma LowerCallPreserves(w: World, s: Stmt, before: Outcome)
    requires ValidateStmt(s) == [] && (s.UseSkill? || s.Delegate? || s.Respond?)
    ensures ExecStmt(w, LowerStmt(s), before) == RunStmt(w, s, before)
  {
    hide Lower, LowerElseIfs, ExecBlock, RunBlock, UseSkillOnce, DelegateOnce, RespondOnce, ValidateStmts, ExecIf,
         ExecForEach, RunIf, RunForEach, Params;
    if s.UseSkill? {
      SkillFields(s.skill, s.params);
    }
  }

  lemma SkillFields(skill: string, params: map<string, string>)
    ensures var v := LowerStmt(UseSkill(skill, params));
            && v.Dict? && StrField(v.fields, "type") == "use_skill" && StrField(v.fields, "skill") == skill
            && Params(v.fields) == if params == map[] then None else Some(params)
  {
    ParamsRoundTrip(params);
  }

  lemma ParamsRoundTrip(params: map<string, string>)
    ensures var p := LowerParams(params).fields;
            (map k | k in p :: if p[k].Str? then p[k].s else "") == params
  {
  }

  /** What the executor finds in a lowered if block. */
  lemma IfFields(s: Stmt)
    requires s.If?
    ensures LowerStmt(s).Dict?
    ensures var m := LowerStmt(s).fields;
            && StrField(m, "condition") == s.condition
            && HasList(m, "body") && m["body"].items == Lower(s.body)
            && (HasList(m, "else_ifs") <==> s.elseIfs != [])
            && (HasList(m, "else_ifs") ==> m["else_ifs"].items == LowerElseIfs(s.elseIfs))
            && (HasList(m, "else_body") <==> s.elseBody.Else?)
            && (HasList(m, "else_body") ==> m["else_body"].items == Lower(s.elseBody.body))
  {
    hide Lower, LowerElseIfs;
  }

  lemma ValidIf(s: Stmt)
    requires s.If? && ValidateStmt(s) == []
    ensures s.condition != "" && ValidateStmts(s.body) == [] && ValidateElseIfs(s.elseIfs) == []
    ensures s.elseBody.Else? ==> ValidateStmts(s.elseBody.body) == []
  {
    hide ValidateStmts, ValidateElseIfs;
  }

  lemma {:induction false} LowerIfPreserves(w: World, s: Stmt, c: Context)
    requires s.If? && ValidateStmt(s) == []
    ensures LowerStmt(s).Dict? && ExecIf(w, LowerStmt(s), c) == RunIf(w, s, c)
    decreases s, 0
  {
    hide LowerStmt, Lower, LowerElseIfs, ValidateStmt, ValidateStmts, ValidateElseIfs, ExecBlock, RunBlock, RunElseIfs,
         ExecElseIfs, EvalBool;
    ValidIf(s);
    IfFields(s);
    LoweringPreserves(w, s.body, c);
    LowerElseIfsPreserves(w, s.elseIfs, c);
    if s.elseBody.Else? {
      LoweringPreserves(w, s.elseBody.body, c);
    }
    if s.elseIfs == [] {
      NoElseIfs(w, c);
    }
  }

  lemma NoElseIfs(w: World, c: Context)
    ensures RunElseIfs(w, [], c) == None
  {
  }

  lemma {:induction false} LowerElseIfsPreserves(w: World, elseIfs: seq<ElseIf>, c: Context)
    requires ValidateElseIfs(elseIfs) == []
    ensures ExecElseIfs(w, LowerElseIfs(elseIfs), c) == RunElseIfs(w, elseIfs, c)
    decreases elseIfs, 0
  {
    hide ExecBlock, RunBlock, EvalBool, Lower, ValidateStmts;
    if elseIfs != [] {
      assert ValidateStmts(elseIfs[0].body) == [] && ValidateElseIfs(elseIfs[1..]) == [] && elseIfs[0].condition != "";
      LoweringPreserves(w, elseIfs[0].body, c);
      LowerElseIfsPreserves(w, elseIfs[1..], c);
      var low := LowerElseIfs(elseIfs);
      assert low[1..] == LowerElseIfs(elseIfs[1..]);
      assert low[0] == LowerElseIf(elseIfs[0]);
      var m := low[0].fields;
      assert StrField(m, "condition") == elseIfs[0].condition;
      assert HasList(m, "body") && m["body"].items == Lower(elseIfs[0].body);
    }
  }

  lemma {:induction false} LowerForEachPreserves(w: World, s: Stmt, c: Context)
    requires s.ForEach? && ValidateStmt(s) == []
    ensures ExecForEach(w, LowerStmt(s), c) == RunForEach(w, s, c)
    decreases s, 0
  {
    match w.eval(s.collection, ToEnv(c))
    case Some(Items(items)) => LowerItemsPreserves(w, s.variable, s.body, items, c);
    case _ =>
  }

  lemma {:induction false} LowerItemsPreserves(w: World, x: string, body: seq<Stmt>, items: seq<Val>, c: Context)
    requires ValidateStmts(body) == []
    ensures ExecItems(w, x, Lower(body), items, c) == RunItems(w, x, body, items, c)
    decreases body, 1, |items|
  {
    if items != [] {
      LowerItemsPreserves(w, x, body, items[..|items| - 1], c);
      var before := RunItems(w, x, body, items[..|items| - 1], c);
      LoweringPreserves(w, body, before.ctx.(variables := before.ctx.variables[x := items[|items| - 1]]));
    }
  }

  // ---- Reference validation (internal/validate/semantic.go) ----

  function RefsStmt(s: Stmt, skills: set<string>, agents: set<string>): seq<string> {
    match s
    case UseSkill(skill, _) => Complain(skill !in skills, "skill not found")
    case Delegate(agent) => Complain(agent !in agents, "delegate agent not found")
    case Respond(_) => []
    case If(_, body, elseIfs, elseBody) =>
      Refs(body, skills, agents) + RefsElseIfs(elseIfs, skills, agents) +
      (match elseBody case NoElse => [] case Else(b) => Refs(b, skills, agents))
    case ForEach(_, _, body) => Refs(body, skills, agents)
  }

  function Refs(stmts: seq<Stmt>, skills: set<string>, agents: set<string>): seq<string> {
    if stmts == [] then [] else
      Refs(stmts[..|stmts| - 1], skills, agents) + RefsStmt(stmts[|stmts| - 1], skills, agents)
  }

  function RefsElseIfs(elseIfs: seq<ElseIf>, skills: set<string>, agents: set<string>): seq<string> {
    if elseIfs == [] then [] else Refs(elseIfs[0].body, skills, agents) + RefsElseIfs(elseIfs[1..], skills, agents)
  }

  // ---- What validation guarantees about every run ----

  predicate Declared(call: Call, skills: set<string>, agents: set<string>) {
    match call
    case SkillCall(skill, _, _) => skill in skills
    case AgentCall(agent, _) => agent in agents
  }

  /** From c to o: only declared skills and agents were called, and the error, if any, is not about the
      shape of the statements. */
  ghost predicate Proper(c: Context, o: Outcome, skills: set<string>, agents: set<string>) {
    && c.calls <= o.ctx.calls
    && (forall i :: |c.calls| <= i < |o.ctx.calls| ==> Declared(o.ctx.calls[i], skills, agents))
    && (o.error.Some? ==> !o.error.value.Missing? && !o.error.value.UnknownType?)
  }

  lemma ProperTrans(c: Context, mid: Outcome, o: Outcome, skills: set<string>, agents: set<string>)
    requires Proper(c, mid, skills, agents) && Proper(mid.ctx, o, skills, agents)
    ensures Proper(c, o, skills, agents)
  {
  }

  lemma {:induction false} RunProper(w: World, stmts: seq<Stmt>, c: Context, skills: set<string>, agents: set<string>)
    requires Refs(stmts, skills, agents) == []
    ensures Proper(c, RunBlock(w, stmts, c), skills, agents)
    decreases stmts, 0
  {
    if stmts != [] {
      var before := RunBlock(w, stmts[..|stmts| - 1], c);
      RunProper(w, stmts[..|stmts| - 1], c, skills, agents);
      if before.error.None? {
        RunStmtProper(w, stmts[|stmts| - 1], before, skills, agents);
        ProperTrans(c, before, RunStmt(w, stmts[|stmts| - 1], before), skills, agents);
      }
    }
  }

  lemma {:induction false} RunStmtProper(w: World, s: Stmt, before: Outcome, skills: set<string>, agents: set<string>)
    requires RefsStmt(s, skills, agents) == []
    ensures Proper(before.ctx, RunStmt(w, s, before), skills, agents)
    decreases s, 1
  {
    hide RunIf, RunForEach, RunBlock, Refs, RefsElseIfs;
    match s
    case UseSkill(_, _) =>
    case Delegate(_) =>
    case Respond(_) =>
    case If(_, _, _, _) => RunIfProper(w, s, before.ctx, skills, agents);
    case ForEach(_, _, _) => RunForEachProper(w, s, before.ctx, skills, agents);
  }

  lemma {:induction false} RunIfProper(w: World, s: Stmt, c: Context, skills: set<string>, agents: set<string>)
    requires s.If? && RefsStmt(s, skills, agents) == []
    ensures Proper(c, RunIf(w, s, c), skills, agents)
    decreases s, 0
  {
    hide RunBlock, Refs, RefsElseIfs, RunElseIfs;
    RunProper(w, s.body, c, skills, agents);
    RunElseIfsProper(w, s.elseIfs, c, skills, agents);
    if s.elseBody.Else? {
      RunProper(w, s.elseBody.body, c, skills, agents);
    }
  }

  lemma {:induction false} RunElseIfsProper(w: World, elseIfs: seq<ElseIf>, c: Context, skills: set<string>,
                                            agents: set<string>)
    requires RefsElseIfs(elseIfs, skills, agents) == []
    ensures RunElseIfs(w, elseIfs, c).Some? ==> Proper(c, RunElseIfs(w, elseIfs, c).value, skills, agents)
    decreases elseIfs, 0
  {
    hide RunBlock, Refs;
    if elseIfs != [] {
      RunProper(w, elseIfs[0].body, c, skills, agents);
      RunElseIfsProper(w, elseIfs[1..], c, skills, agents);
    }
  }

  lemma {:induction false} RunForEachProper(w: World, s: Stmt, c: Context, skills: set<string>, agents: set<string>)
    requires s.ForEach? && RefsStmt(s, skills, agents) == []
    ensures Proper(c, RunForEach(w, s, c), skills, agents)
    decreases s, 0
  {
    hide RunBlock, Refs;
    match w.eval(s.collection, ToEnv(c))
    case Some(Items(items)) => RunItemsProper(w, s.variable, s.body, items, c, skills, agents);
    case _ =>
  }

  lemma {:induction false} RunItemsProper(w: World, x: string, body: seq<Stmt>, items: seq<Val>, c: Context,
                                          skills: set<string>, agents: set<string>)
    requires Refs(body, skills, agents) == []
    ensures Proper(c, RunItems(w, x, body, items, c), skills, agents)
    decreases body, 1, |items|
  {
    hide RunBlock, Refs;
    if items != [] {
      var before := RunItems(w, x, body, items[..|items| - 1], c);
      RunItemsProper(w, x, body, items[..|items| - 1], c, skills, agents);
      var ctx := before.ctx.(variables := before.ctx.variables[x := items[|items| - 1]]);
      RunProper(w, body, ctx, skills, agents);
      assert Proper(before.ctx, RunBlock(w, body, ctx), skills, agents);
      ProperTrans(c, before, RunBlock(w, body, ctx), skills, agents);
    }
  }

  /** A block both validators accept never fails for its shape and calls declared names only. */
  lemma ValidatedRun(w: World, stmts: seq<Stmt>, c: Context, skills: set<string>, agents: set<string>)
    requires ValidateStmts(stmts) == [] && Refs(stmts, skills, agents) == []
    ensures Proper(c, ExecBlock(w, Lower(stmts), c), skills, agents)
  {
    LoweringPreserves(w, stmts, c);
    RunProper(w, stmts, c, skills, agents);
  }

  // ---- Loop variables ----

  function LoopVarsStmt(s: Stmt): set<string> {
    match s
    case If(_, body, elseIfs, elseBody) =>
      LoopVars(body) + LoopVarsElseIfs(elseIfs) + (match elseBody case NoElse => {} case Else(b) => LoopVars(b))
    case ForEach(x, _, body) => {x} + LoopVars(body)
    case _ => {}
  }

  function LoopVars(stmts: seq<Stmt>): set<string> {
    if stmts == [] then {} else LoopVars(stmts[..|stmts| - 1]) + LoopVarsStmt(stmts[|stmts| - 1])
  }

  function LoopVarsElseIfs(elseIfs: seq<ElseIf>): set<string> {
    if elseIfs == [] then {} else LoopVars(elseIfs[0].body) + LoopVarsElseIfs(elseIfs[1..])
  }

  /** No variable is added or changed, and only loop variables may be gone. */
  ghost predicate Tidy(before: map<string, Val>, after: map<string, Val>, loops: set<string>) {
    && (forall x :: x in after ==> x in before && after[x] == before[x])
    && (forall x :: x in before && x !in loops ==> x in after)
  }

  lemma {:induction false} RunTidy(w: World, stmts: seq<Stmt>, c: Context)
    ensures Tidy(c.variables, RunBlock(w, stmts, c).ctx.variables, LoopVars(stmts))
    decreases stmts, 0
  {
    if stmts != [] {
      RunTidy(w, stmts[..|stmts| - 1], c);
      var before := RunBlock(w, stmts[..|stmts| - 1], c);
      if before.error.None? {
        RunStmtTidy(w, stmts[|stmts| - 1], before);
      }
    }
  }

  lemma {:induction false} RunStmtTidy(w: World, s: Stmt, before: Outcome)
    ensures Tidy(before.ctx.variables, RunStmt(w, s, before).ctx.variables, LoopVarsStmt(s))
    decreases s, 1
  {
    hide RunIf, RunForEach, RunBlock, LoopVars, LoopVarsElseIfs;
    match s
    case If(_, _, _, _) => RunIfTidy(w, s, before.ctx);
    case ForEach(_, _, _) => RunForEachTidy(w, s, before.ctx);
    case _ =>
  }

  lemma {:induction false} RunIfTidy(w: World, s: Stmt, c: Context)
    requires s.If?
    ensures Tidy(c.variables, RunIf(w, s, c).ctx.variables, LoopVarsStmt(s))
    decreases s, 0
  {
    hide RunBlock, LoopVars, LoopVarsElseIfs, RunElseIfs;
    RunTidy(w, s.body, c);
    RunElseIfsTidy(w, s.elseIfs, c);
    if s.elseBody.Else? {
      RunTidy(w, s.elseBody.body, c);
    }
  }

  lemma {:induction false} RunElseIfsTidy(w: World, elseIfs: seq<ElseIf>, c: Context)
    ensures RunElseIfs(w, elseIfs, c).Some? ==>
              Tidy(c.variables, RunElseIfs(w, elseIfs, c).value.ctx.variables, LoopVarsElseIfs(elseIfs))
    decreases elseIfs, 0
  {
    hide RunBlock, LoopVars;
    if elseIfs != [] {
      RunTidy(w, elseIfs[0].body, c);
      RunElseIfsTidy(w, elseIfs[1..], c);
    }
  }

  lemma {:induction false} RunForEachTidy(w: World, s: Stmt, c: Context)
    requires s.ForEach?
    ensures Tidy(c.variables, RunForEach(w, s, c).ctx.variables, LoopVarsStmt(s))
    ensures RunForEach(w, s, c).ctx.variables == c.variables || s.variable !in RunForEach(w, s, c).ctx.variables
    decreases s, 0
  {
    hide RunBlock, LoopVars;
    match w.eval(s.collection, ToEnv(c))
    case Some(Items(items)) => RunItemsTidy(w, s.variable, s.body, items, c);
    case _ =>
  }

  lemma {:induction false} RunItemsTidy(w: World, x: string, body: seq<Stmt>, items: seq<Val>, c: Context)
    ensures Tidy(c.variables - {x}, RunItems(w, x, body, items, c).ctx.variables - {x}, LoopVars(body))
    decreases body, 1, |items|
  {
    hide RunBlock, LoopVars;
    if items != [] {
      RunItemsTidy(w, x, body, items[..|items| - 1], c);
      var before := RunItems(w, x, body, items[..|items| - 1], c);
      RunTidy(w, body, before.ctx.(variables := before.ctx.variables[x := items[|items| - 1]]));
    }
  }

  /** On normal and on error exit the variables are what they were, unless a loop used a name that was
      already bound. */
  lemma LoopVariablesRemoved(w: World, stmts: seq<Stmt>, c: Context)
    requires ValidateStmts(stmts) == []
    requires forall x :: x in LoopVars(stmts) ==> x !in c.variables
    ensures ExecBlock(w, Lower(stmts), c).ctx.variables == c.variables
  {
    LoweringPreserves(w, stmts, c);
    RunTidy(w, stmts, c);
  }

  /** Inside a loop, the variable keeps its value through every nested block that does not reuse its name. */
  lemma LoopVariableKept(w: World, body: seq<Stmt>, c: Context, x: string)
    requires ValidateStmts(body) == [] && x in c.variables && x !in LoopVars(body)
    ensures var after := ExecBlock(w, Lower(body), c).ctx.variables;
            x in after && after[x] == c.variables[x]
  {
    LoweringPreserves(w, body, c);
    RunTidy(w, body, c);
  }

  /** What the collection of a loop evaluates to can be iterated; nil can, as no items. */
  ghost predicate Iterable(w: World, coll: string, c: Context) {
    var v := w.eval(coll, ToEnv(c));
    v.Some? && ToSlice(v.value).Some?
  }

  /** Reusing it does not: a loop over a bound name removes the variable, also over no items, unless the collection
      cannot be iterated. That is the only way in which one loop changes the variables. */
  lemma ShadowingRemoves(w: World, x: string, coll: string, body: seq<Stmt>, c: Context)
    requires x != "" && coll != "" && ValidateStmts(body) == []
    ensures var after := ExecBlock(w, Lower([ForEach(x, coll, body)]), c).ctx.variables;
            && (x in after <==> x in c.variables && !Iterable(w, coll, c))
            && ((forall y :: y in LoopVars(body) && y in c.variables ==> y == x) ==>
                  (after == c.variables <==> x !in c.variables || !Iterable(w, coll, c)))
  {
    hide RunItems, Lower, LoopVars, RunBlock, RunStmt, ExecBlock, Iterable, Tidy, ValidateStmts;
    var s := ForEach(x, coll, body);
    ValidLoop(s);
    LoweringPreserves(w, [s], c);
    RunOne(w, s, c);
    LoopVariables(w, s, c);
    if Iterable(w, coll, c) {
      var items := ToSlice(w.eval(coll, ToEnv(c)).value).value;
      RunItemsTidy(w, x, body, items, c);
      TidyWithout(c.variables, RunItems(w, x, body, items, c).ctx.variables, LoopVars(body), x);
    }
  }

  lemma ValidLoop(s: Stmt)
    requires s.ForEach? && s.variable != "" && s.collection != "" && ValidateStmts(s.body) == []
    ensures ValidateStmts([s]) == []
  {
    assert [s][..0] == [] && ValidateStmts([]) == [];
  }

  lemma LoopVariables(w: World, s: Stmt, c: Context)
    requires s.ForEach?
    ensures Iterable(w, s.collection, c) ==>
              && w.eval(s.collection, ToEnv(c)).Some? && ToSlice(w.eval(s.collection, ToEnv(c)).value).Some?
              && RunStmt(w, s, Empty(c)).ctx.variables ==
                 RunItems(w, s.variable, s.body, ToSlice(w.eval(s.collection, ToEnv(c)).value).value, c).ctx.variables
                 - {s.variable}
    ensures !Iterable(w, s.collection, c) ==> RunStmt(w, s, Empty(c)).ctx.variables == c.variables
  {
    hide RunItems;
  }

  lemma TidyWithout(before: map<string, Val>, inner: map<string, Val>, loops: set<string>, x: string)
    requires Tidy(before - {x}, inner - {x}, loops)
    ensures (forall y :: y in loops && y in before ==> y == x) ==> (inner - {x} == before <==> x !in before)
  {
    if x !in before {
      assert before - {x} == before;
    }
  }

  lemma RunOne(w: World, s: Stmt, c: Context)
    ensures RunBlock(w, [s], c).ctx.variables == RunStmt(w, s, Empty(c)).ctx.variables
  {
    hide RunStmt;
    assert [s][..0] == [];
    assert RunBlock(w, [], c) == Empty(c);
  }
}
