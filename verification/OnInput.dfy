/** The `on input` language: its syntax tree (internal/ast/ast.go) and the untyped representation it is
    lowered to (internal/ir/lower.go). */
module OnInput {
  datatype Stmt =
    | UseSkill(skill: string, params: map<string, string>)
    | Delegate(agent: string)
    | Respond(expression: string)
    | If(condition: string, body: seq<Stmt>, elseIfs: seq<ElseIf>, elseBody: Else)
    | ForEach(variable: string, collection: string, body: seq<Stmt>)

  datatype ElseIf = ElseIf(condition: string, body: seq<Stmt>)

  /** An absent else is a nil slice in the source, distinct from an empty one. */
  datatype Else = NoElse | Else(body: seq<Stmt>)

  /** What `interface{}` holds in lowered statements. */
  datatype Value = Str(s: string) | List(items: seq<Value>) | Dict(fields: map<string, Value>)

  function LowerParams(params: map<string, string>): Value {
    Dict(map k | k in params :: Str(params[k]))
  }

  function LowerStmt(s: Stmt): Value {
    match s
    case UseSkill(skill, params) =>
      var base := map["type" := Str("use_skill"), "skill" := Str(skill)];
      Dict(if params != map[] then base["params" := LowerParams(params)] else base)
    case Delegate(agent) => Dict(map["type" := Str("delegate"), "agent" := Str(agent)])
    case Respond(e) => Dict(map["type" := Str("respond"), "expression" := Str(e)])
    case If(c, body, elseIfs, elseBody) =>
      var base := map["type" := Str("if"), "condition" := Str(c), "body" := List(Lower(body))];
      var more := if elseIfs != [] then base["else_ifs" := List(LowerElseIfs(elseIfs))] else base;
      Dict(match elseBody case NoElse => more case Else(b) => more["else_body" := List(Lower(b))])
    case ForEach(x, c, body) =>
      Dict(map["type" := Str("for_each"), "variable" := Str(x), "collection" := Str(c), "body" := List(Lower(body))])
  }

  function Lower(stmts: seq<Stmt>): seq<Value> {
    if stmts == [] then [] else Lower(stmts[..|stmts| - 1]) + [LowerStmt(stmts[|stmts| - 1])]
  }

  function LowerElseIf(e: ElseIf): Value {
    Dict(map["condition" := Str(e.condition), "body" := List(Lower(e.body))])
  }

  function LowerElseIfs(elseIfs: seq<ElseIf>): seq<Value> {
    if elseIfs == [] then [] else [LowerElseIf(elseIfs[0])] + LowerElseIfs(elseIfs[1..])
  }
}
