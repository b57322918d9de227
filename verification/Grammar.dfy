/** The grammar of `on input` blocks, as concrete syntax trees over tokens: which trees belong to it, what their tokens
    are, and which statements they mean. */
module Grammar {
  import opened OnInput
  import opened Lexer
  import opened Parser

  /** A parameter: a name, a colon after any newlines, a value, then a comma and newlines or either of them. */
  datatype Param = Param(name: Token, gap: seq<Token>, colon: Token, value: seq<Token>, comma: seq<Token>,
                         after: seq<Token>)

  datatype Form =
    | UseForm(word: Token, skill: seq<Token>, name: Token)
    | UseWithForm(word: Token, skill: seq<Token>, name: Token, with: Token, gap: seq<Token>, open: Token,
                  first: seq<Token>, params: seq<Param>, close: Token)
    | DelegateForm(word: Token, to: seq<Token>, name: Token)
    | RespondText(word: Token, text: Token)
    | RespondExpr(word: Token, value: seq<Token>)
    | IfForm(word: Token, cond: seq<Token>, body: Body, elses: Elses)
    | ForForm(word: Token, each: seq<Token>, name: Token, in': Token, coll: seq<Token>, body: Body)

  datatype Elses =
    | EndIf
    | ElseIfForm(gap: seq<Token>, else': Token, if': Token, cond: seq<Token>, body: Body, more: Elses)
    | ElseForm(gap: seq<Token>, else': Token, body: Body)

  /** A statement and the newlines after it. */
  datatype Line = Line(form: Form, gap: seq<Token>)

  datatype Body = Body(gap: seq<Token>, open: Token, first: seq<Token>, lines: seq<Line>, close: Token)

  datatype Block = Block(input: Token, body: Body)

  // ---- What belongs to the grammar ----

  ghost predicate Newlines(gap: seq<Token>) {
    forall i :: 0 <= i < |gap| ==> gap[i].kind == Newline
  }

  ghost predicate Without(ts: seq<Token>, kinds: set<Kind>) {
    forall i :: 0 <= i < |ts| ==> ts[i].kind !in kinds
  }

  /** Strings, identifiers, keywords, the colon and the comparison operators can be names. */
  ghost predicate IsNameKind(k: Kind) {
    k in {String, Ident, Colon, Equal, NotEqual, Greater, GreaterEq, Less, LessEq, KwInput, KwSkill, KwTo, KwDelegate,
          KwIf, KwElse, KwFor, KwEach, KwIn, KwOn, KwUse, KwWith, KwRespond}
  }

  /** A word that can be left out before a name; it is never taken for the name itself. */
  ghost predicate OptionalWord(optional: seq<Token>, k: Kind, name: Token) {
    && (optional == [] || (|optional| == 1 && optional[0].kind == k))
    && (optional == [] ==> name.kind != k)
    && IsNameKind(name.kind)
  }

  ghost predicate IsParam(p: Param, last: bool) {
    && IsNameKind(p.name.kind) && Newlines(p.gap) && p.colon.kind == Colon && Without(p.value, {Comma, RBrace, Newline})
    && (p.comma == [] || (|p.comma| == 1 && p.comma[0].kind == Comma)) && Newlines(p.after)
    && (p.comma == [] && p.after == [] ==> last)
  }

  ghost predicate AreParams(ps: seq<Param>) {
    forall i :: 0 <= i < |ps| ==> IsParam(ps[i], i == |ps| - 1)
  }

  ghost predicate IsForm(f: Form) {
    match f
    case UseForm(word, skill, name) => word.kind == KwUse && OptionalWord(skill, KwSkill, name)
    case UseWithForm(word, skill, name, with, gap, open, first, params, close) =>
      && word.kind == KwUse && OptionalWord(skill, KwSkill, name) && with.kind == KwWith && Newlines(gap)
      && open.kind == LBrace && Newlines(first) && AreParams(params) && close.kind == RBrace
    case DelegateForm(word, to, name) => word.kind == KwDelegate && OptionalWord(to, KwTo, name)
    case RespondText(word, text) => word.kind == KwRespond && text.kind == String
    case RespondExpr(word, value) =>
      word.kind == KwRespond && !At(value, String) && Without(value, {Newline, RBrace})
    case IfForm(word, cond, body, elses) =>
      word.kind == KwIf && Without(cond, {LBrace}) && body.gap == [] && IsBody(body) && AreElses(elses)
    case ForForm(word, each, name, in', coll, body) =>
      && word.kind == KwFor && OptionalWord(each, KwEach, name) && in'.kind == KwIn && Without(coll, {LBrace})
      && body.gap == [] && IsBody(body)
  }

  ghost predicate AreElses(e: Elses) {
    match e
    case EndIf => true
    case ElseIfForm(gap, else', if', cond, body, more) =>
      && Newlines(gap) && else'.kind == KwElse && if'.kind == KwIf && Without(cond, {LBrace}) && body.gap == []
      && IsBody(body) && AreElses(more)
    case ElseForm(gap, else', body) => Newlines(gap) && else'.kind == KwElse && IsBody(body)
  }

  /** Newlines between statements are optional, except after a response that is not a string. */
  ghost predicate AreLines(ls: seq<Line>) {
    ls != [] ==>
      && IsForm(ls[0].form) && Newlines(ls[0].gap) && (ls[0].form.RespondExpr? && ls[0].gap == [] ==> |ls| == 1)
      && AreLines(ls[1..])
  }

  ghost predicate IsBody(b: Body) {
    Newlines(b.gap) && b.open.kind == LBrace && Newlines(b.first) && AreLines(b.lines) && b.close.kind == RBrace
  }

  ghost predicate IsBlock(b: Block) {
    b.input.kind == KwInput && IsBody(b.body)
  }

  // ---- The tokens of a tree, followed by others ----

  ghost function ParamsThen(ps: seq<Param>, r: seq<Token>): seq<Token> {
    if ps == [] then r else
      var p := ps[0];
      [p.name] + (p.gap + ([p.colon] + (p.value + (p.comma + (p.after + ParamsThen(ps[1..], r))))))
  }

  ghost function FormThen(f: Form, r: seq<Token>): seq<Token> {
    match f
    case UseForm(word, skill, name) => [word] + (skill + ([name] + r))
    case UseWithForm(word, skill, name, with, gap, open, first, params, close) =>
      [word] + (skill + ([name] + ([with] + (gap + ([open] + (first + ParamsThen(params, [close] + r)))))))
    case DelegateForm(word, to, name) => [word] + (to + ([name] + r))
    case RespondText(word, text) => [word] + ([text] + r)
    case RespondExpr(word, value) => [word] + (value + r)
    case IfForm(word, cond, body, elses) => [word] + (cond + BodyThen(body, ElsesThen(elses, r)))
    case ForForm(word, each, name, in', coll, body) => [word] + (each + ([name] + ([in'] + (coll + BodyThen(body, r)))))
  }

  ghost function ElsesThen(e: Elses, r: seq<Token>): seq<Token> {
    match e
    case EndIf => r
    case ElseIfForm(gap, else', if', cond, body, more) =>
      gap + ([else'] + ([if'] + (cond + BodyThen(body, ElsesThen(more, r)))))
    case ElseForm(gap, else', body) => gap + ([else'] + BodyThen(body, r))
  }

  ghost function LinesThen(ls: seq<Line>, r: seq<Token>): seq<Token> {
    if ls == [] then r else FormThen(ls[0].form, ls[0].gap + LinesThen(ls[1..], r))
  }

  ghost function BodyThen(b: Body, r: seq<Token>): seq<Token> {
    b.gap + ([b.open] + (b.first + LinesThen(b.lines, [b.close] + r)))
  }

  ghost function BlockThen(b: Block, r: seq<Token>): seq<Token> {
    [b.input] + BodyThen(b.body, r)
  }

  // ---- What a tree means ----

  /** A later parameter replaces an earlier one of the same name. */
  ghost function ParamsOf(ps: seq<Param>, acc: map<string, string>): map<string, string> {
    if ps == [] then acc else ParamsOf(ps[1..], acc[ps[0].name.literal := Collect(ps[0].value)])
  }

  ghost function StmtOf(f: Form): Stmt {
    match f
    case UseForm(_, _, name) => UseSkill(name.literal, map[])
    case UseWithForm(_, _, name, _, _, _, _, params, _) => UseSkill(name.literal, ParamsOf(params, map[]))
    case DelegateForm(_, _, name) => Delegate(name.literal)
    case RespondText(_, text) => Respond(text.literal)
    case RespondExpr(_, value) => Respond(Collect(value))
    case IfForm(_, cond, body, elses) => If(Collect(cond), StmtsOf(body.lines), ElseIfsOf(elses), ElseOf(elses))
    case ForForm(_, _, name, _, coll, body) => ForEach(name.literal, Collect(coll), StmtsOf(body.lines))
  }

  ghost function ElseIfsOf(e: Elses): seq<ElseIf> {
    match e
    case ElseIfForm(_, _, _, cond, body, more) => [ElseIf(Collect(cond), StmtsOf(body.lines))] + ElseIfsOf(more)
    case _ => []
  }

  /** An else without statements is no else. */
  ghost function ElseOf(e: Elses): Else {
    match e
    case EndIf => NoElse
    case ElseIfForm(_, _, _, _, _, more) => ElseOf(more)
    case ElseForm(_, _, body) => if body.lines == [] then NoElse else Else(StmtsOf(body.lines))
  }

  ghost function StmtsOf(ls: seq<Line>): seq<Stmt> {
    if ls == [] then [] else [StmtOf(ls[0].form)] + StmtsOf(ls[1..])
  }
}
