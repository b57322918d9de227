/** The parser reads exactly the blocks of the grammar. */
module Recognition {
  import opened Wrappers
  import opened OnInput
  import opened Lexer
  import opened Parser
  import opened Grammar
  import R = RoundTrip
  import U = UnprintedForms

  // ---- Every block of the grammar is read ----

  ghost predicate Starts(ts: seq<Token>) {
    ts != [] && ts[0].kind in {KwUse, KwDelegate, KwRespond, KwIf, KwFor, RBrace}
  }

  lemma Front(t: Token, r: seq<Token>)
    ensures ([t] + r)[0] == t && ([t] + r)[1..] == r && (r != [] ==> ([t] + r)[2..] == r[1..])
  {
  }

  lemma NameKinds(k: Kind)
    ensures NameKind(k) <==> IsNameKind(k)
  {
    match k
    case Newline =>
    case Number =>
    case LBrace =>
    case RBrace =>
    case LBracket =>
    case RBracket =>
    case LParen =>
    case RParen =>
    case Comma =>
    case Dot =>
    case _ =>
  }

  lemma NameRead(optional: seq<Token>, k: Kind, name: Token, r: seq<Token>)
    requires OptionalWord(optional, k, name)
    ensures var ts := optional + ([name] + r);
            ts != [] && ExpectName(if At(ts, k) then ts[1..] else ts) == Parsed(name.literal, r, [])
  {
    Front(name, r);
    if optional == [] {
      assert optional + ([name] + r) == [name] + r;
    } else {
      assert optional == [optional[0]];
      Front(optional[0], [name] + r);
    }
  }

  lemma TokenRead(gap: seq<Token>, t: Token, r: seq<Token>)
    requires Newlines(gap) && t.kind != Newline
    ensures ExpectToken(gap + ([t] + r), t.kind) == Parsed((), r, [])
  {
    hide SkipNewlines;
    Front(t, r);
    U.NewlinesSkipped(gap, [t] + r);
  }

  lemma {:induction false} ParamsRead(ps: seq<Param>, r: seq<Token>, acc: map<string, string>)
    requires AreParams(ps) && At(r, RBrace)
    ensures ParseParams(ParamsThen(ps, r), acc) == Parsed(ParamsOf(ps, acc), r, [])
    decreases ps
  {
    hide ExpectName, ExpectToken, CollectUntil, Collect, SkipNewlines, ParseParams;
    if ps == [] {
      NoParams(r, acc);
    } else {
      assert IsParam(ps[0], |ps| == 1);
      TailParams(ps);
      ParamRead(ps, r, acc);
      ParamsRead(ps[1..], r, acc[ps[0].name.literal := Collect(ps[0].value)]);
    }
  }

  lemma NoParams(r: seq<Token>, acc: map<string, string>)
    requires At(r, RBrace)
    ensures ParseParams(r, acc) == Parsed(acc, r, [])
  {
  }

  lemma TailParams(ps: seq<Param>)
    requires ps != [] && AreParams(ps)
    ensures AreParams(ps[1..])
  {
    hide IsParam;
    var tail := ps[1..];
    forall i | 0 <= i < |tail| ensures IsParam(tail[i], i == |tail| - 1) {
      assert IsParam(ps[i + 1], i + 1 == |ps| - 1);
    }
  }

  lemma ParamsStart(ps: seq<Param>, r: seq<Token>)
    requires AreParams(ps) && At(r, RBrace)
    ensures var ts := ParamsThen(ps, r);
            ts != [] && ts[0].kind != Newline && (ps == [] ==> ts == r) && (ps != [] ==> ts[0].kind != RBrace)
  {
    if ps != [] {
      assert IsParam(ps[0], |ps| == 1);
      assert ParamsThen(ps, r)[0] == ps[0].name;
    }
  }

  lemma ParamRead(ps: seq<Param>, r: seq<Token>, acc: map<string, string>)
    requires ps != [] && AreParams(ps) && At(r, RBrace)
    ensures ParseParams(ParamsThen(ps, r), acc) ==
            ParseParams(ParamsThen(ps[1..], r), acc[ps[0].name.literal := Collect(ps[0].value)])
  {
    hide ExpectName, ExpectToken, CollectUntil, Collect, SkipNewlines, ParseParams;
    var p := ps[0];
    assert IsParam(p, |ps| == 1);
    TailParams(ps);
    ParamsStart(ps, r);
    ParamsStart(ps[1..], r);
    var more := ParamsThen(ps[1..], r);
    var after := p.comma + (p.after + more);
    var value := p.value + after;
    var colon := p.gap + ([p.colon] + value);
    assert ParamsThen(ps, r) == [p.name] + colon;
    KeyRead(p.name, colon);
    TokenRead(p.gap, p.colon, value);
    SeparatorRead(p, more);
    R.StopsAt(p.value, after, {Comma, RBrace, Newline});
    R.ParamStep([p.name] + colon, acc, p.name.literal, colon, Collect(p.value), value, after);
  }

  lemma KeyRead(name: Token, r: seq<Token>)
    requires IsNameKind(name.kind)
    ensures ExpectName([name] + r) == Parsed(name.literal, r, [])
  {
    Front(name, r);
  }

  lemma SeparatorRead(p: Param, more: seq<Token>)
    requires more != [] && more[0].kind != Newline && IsParam(p, more[0].kind == RBrace)
    ensures var after := p.comma + (p.after + more);
            && after != [] && after[0].kind in {Comma, RBrace, Newline}
            && SkipNewlines(if At(after, Comma) then after[1..] else after) == more
  {
    hide SkipNewlines;
    var after := p.comma + (p.after + more);
    U.NewlinesSkipped(p.after, more);
    if p.comma == [] {
      assert after == p.after + more;
      assert p.after == [] ==> after == more;
      assert p.after != [] ==> after[0] == p.after[0];
    } else {
      assert p.comma == [p.comma[0]];
      Front(p.comma[0], p.after + more);
    }
  }

  // ---- Statements without a body ----

  lemma UseRead(f: Form, r: seq<Token>)
    requires f.UseForm? && IsForm(f) && !At(r, KwWith)
    ensures ParseStmt(FormThen(f, r)) == Parsed(Some(StmtOf(f)), r, [])
  {
    hide ExpectName, ExpectToken, ParseParams, SkipNewlines;
    NameRead(f.skill, KwSkill, f.name, r);
    Front(f.word, f.skill + ([f.name] + r));
  }

  lemma UseWithRead(f: Form, r: seq<Token>)
    requires f.UseWithForm? && IsForm(f)
    ensures ParseStmt(FormThen(f, r)) == Parsed(Some(StmtOf(f)), r, [])
  {
    hide ExpectName, ExpectToken, ParseParams, SkipNewlines, ParamsThen, ParamsOf;
    var inner := ParamsThen(f.params, [f.close] + r);
    var open := f.gap + ([f.open] + (f.first + inner));
    NameRead(f.skill, KwSkill, f.name, [f.with] + open);
    Front(f.word, f.skill + ([f.name] + ([f.with] + open)));
    Front(f.with, open);
    Front(f.close, r);
    TokenRead(f.gap, f.open, f.first + inner);
    ParamsStart(f.params, [f.close] + r);
    U.NewlinesSkipped(f.first, inner);
    ParamsRead(f.params, [f.close] + r, map[]);
    CloseRead(f.close, r);
    UseWithStep(FormThen(f, r), f.name.literal, open, f.first + inner, inner, ParamsOf(f.params, map[]),
                [f.close] + r, r);
  }

  lemma CloseRead(close: Token, r: seq<Token>)
    requires close.kind == RBrace
    ensures ExpectToken([close] + r, RBrace) == Parsed((), r, [])
  {
    assert [] + ([close] + r) == [close] + r;
    TokenRead([], close, r);
  }

  lemma UseWithStep(ts: seq<Token>, name: string, open: seq<Token>, r1: seq<Token>, r2: seq<Token>,
                    params: map<string, string>, r3: seq<Token>, r4: seq<Token>)
    requires At(ts, KwUse)
    requires var p := ExpectName(if At(ts[1..], KwSkill) then ts[2..] else ts[1..]);
             p.value == name && p.errors == [] && At(p.rest, KwWith) && p.rest[1..] == open
    requires ExpectToken(open, LBrace) == Parsed((), r1, []) && SkipNewlines(r1) == r2
    requires ParseParams(r2, map[]) == Parsed(params, r3, []) && ExpectToken(r3, RBrace) == Parsed((), r4, [])
    ensures ParseStmt(ts) == Parsed(Some(UseSkill(name, params)), r4, [])
  {
    hide ExpectName, ExpectToken, ParseParams, SkipNewlines;
  }

  lemma DelegateRead(f: Form, r: seq<Token>)
    requires f.DelegateForm? && IsForm(f)
    ensures ParseStmt(FormThen(f, r)) == Parsed(Some(StmtOf(f)), r, [])
  {
    hide ExpectName;
    NameRead(f.to, KwTo, f.name, r);
    Front(f.word, f.to + ([f.name] + r));
  }

  lemma RespondTextRead(f: Form, r: seq<Token>)
    requires f.RespondText? && IsForm(f)
    ensures ParseStmt(FormThen(f, r)) == Parsed(Some(StmtOf(f)), r, [])
  {
    hide CollectUntil;
    Front(f.word, [f.text] + r);
    Front(f.text, r);
  }

  lemma RespondExprRead(f: Form, r: seq<Token>)
    requires f.RespondExpr? && IsForm(f) && r != [] && r[0].kind in {Newline, RBrace}
    ensures ParseStmt(FormThen(f, r)) == Parsed(Some(StmtOf(f)), r, [])
  {
    hide CollectUntil, Collect, ParseStmt;
    Front(f.word, f.value + r);
    assert f.value == [] ==> f.value + r == r;
    assert f.value != [] ==> (f.value + r)[0] == f.value[0];
    R.StopsAt(f.value, r, {Newline, RBrace});
    U.RespondStep([f.word] + (f.value + r), Collect(f.value), r);
  }

  // ---- Statements with bodies ----

  lemma {:induction false} BodyRead(b: Body, r: seq<Token>)
    requires IsBody(b)
    ensures ParseBody(BodyThen(b, r)) == Parsed(StmtsOf(b.lines), r, [])
    decreases b, 0
  {
    hide ExpectToken, SkipNewlines, ParseStmts, LinesThen, StmtsOf, AreLines;
    var inner := LinesThen(b.lines, [b.close] + r);
    TokenRead(b.gap, b.open, b.first + inner);
    Front(b.close, r);
    LinesStart(b.lines, [b.close] + r);
    U.NewlinesSkipped(b.first, inner);
    LinesRead(b.lines, [b.close] + r);
    CloseRead(b.close, r);
  }

  lemma LinesStart(ls: seq<Line>, r: seq<Token>)
    requires AreLines(ls) && Starts(r)
    ensures Starts(LinesThen(ls, r)) && (ls == [] ==> LinesThen(ls, r) == r)
    ensures ls != [] ==> LinesThen(ls, r)[0].kind != RBrace
  {
    hide BodyThen, ElsesThen, ParamsThen;
    if ls != [] {
      var more := ls[0].gap + LinesThen(ls[1..], r);
      assert FormThen(ls[0].form, more)[0] == ls[0].form.word;
    }
  }

  lemma {:induction false} LinesRead(ls: seq<Line>, r: seq<Token>)
    requires AreLines(ls) && At(r, RBrace)
    ensures ParseStmts(LinesThen(ls, r)) == Parsed(StmtsOf(ls), r, [])
    decreases ls, 2
  {
    hide ParseStmt, SkipNewlines, FormThen, StmtOf;
    if ls == [] {
    } else {
      var more := LinesThen(ls[1..], r);
      LinesStart(ls, r);
      LinesStart(ls[1..], r);
      FormRead(ls[0].form, ls[0].gap, more);
      LinesRead(ls[1..], r);
      hide ParseStmts, LinesThen;
      R.StmtsStep(LinesThen(ls, r), StmtOf(ls[0].form), more, StmtsOf(ls[1..]), r);
    }
  }

  lemma {:induction false} FormRead(f: Form, gap: seq<Token>, more: seq<Token>)
    requires IsForm(f) && Newlines(gap) && Starts(more) && (f.RespondExpr? && gap == [] ==> more[0].kind == RBrace)
    ensures var p := ParseStmt(FormThen(f, gap + more));
            p.value == Some(StmtOf(f)) && p.errors == [] && SkipNewlines(p.rest) == more
    decreases f, 1
  {
    hide ParseStmt, FormThen, StmtOf, SkipNewlines;
    U.NewlinesSkipped(gap, more);
    U.NewlinesSkipped([], more);
    assert [] + more == more;
    Follows(gap, more);
    match f
    case UseForm(_, _, _) => UseRead(f, gap + more);
    case UseWithForm(_, _, _, _, _, _, _, _, _) => UseWithRead(f, gap + more);
    case DelegateForm(_, _, _) => DelegateRead(f, gap + more);
    case RespondText(_, _) => RespondTextRead(f, gap + more);
    case RespondExpr(_, _) => RespondExprRead(f, gap + more);
    case IfForm(_, _, _, _) => IfRead(f, gap, more);
    case ForForm(_, _, _, _, _, _) => ForRead(f, gap + more);
  }

  lemma Follows(gap: seq<Token>, more: seq<Token>)
    requires Newlines(gap) && Starts(more)
    ensures var r := gap + more;
            r != [] && !At(r, KwWith) && (gap != [] ==> At(r, Newline)) && (gap == [] ==> r == more)
  {
  }

  lemma {:induction false} ForRead(f: Form, r: seq<Token>)
    requires f.ForForm? && IsForm(f)
    ensures ParseStmt(FormThen(f, r)) == Parsed(Some(StmtOf(f)), r, [])
    decreases f, 0
  {
    hide ExpectName, CollectUntil, Collect, ParseStmt, ParseBody, BodyThen, StmtsOf, IsBody;
    var body := BodyThen(f.body, r);
    NameRead(f.each, KwEach, f.name, [f.in'] + (f.coll + body));
    Front(f.word, f.each + ([f.name] + ([f.in'] + (f.coll + body))));
    Front(f.in', f.coll + body);
    BodyStart(f.body, r);
    R.StopsAt(f.coll, body, {LBrace});
    BodyRead(f.body, r);
    ForStep(FormThen(f, r), f.name.literal, f.coll + body, Collect(f.coll), body, StmtsOf(f.body.lines), r);
  }

  lemma ForStep(ts: seq<Token>, x: string, r1: seq<Token>, coll: string, r2: seq<Token>, stmts: seq<Stmt>,
                r3: seq<Token>)
    requires At(ts, KwFor)
    requires var p := ExpectName(if At(ts[1..], KwEach) then ts[2..] else ts[1..]);
             p.value == x && p.errors == [] && At(p.rest, KwIn) && p.rest[1..] == r1
    requires CollectUntil(r1, {LBrace}) == Parsed(coll, r2, []) && ParseBody(r2) == Parsed(stmts, r3, [])
    ensures ParseStmt(ts) == Parsed(Some(ForEach(x, coll, stmts)), r3, [])
  {
    hide ExpectName, CollectUntil, ParseBody;
    hide ParseStmt;
    U.ForIs(ts);
  }

  lemma BodyStart(b: Body, r: seq<Token>)
    requires IsBody(b)
    ensures var ts := BodyThen(b, r);
            ts != [] && ts[0].kind in {Newline, LBrace} && (b.gap == [] ==> ts[0].kind == LBrace)
  {
    hide LinesThen, AreLines;
    var more := [b.open] + (b.first + LinesThen(b.lines, [b.close] + r));
    assert b.gap == [] ==> b.gap + more == more;
    assert b.gap != [] ==> (b.gap + more)[0] == b.gap[0];
  }

  lemma {:induction false} IfRead(f: Form, gap: seq<Token>, more: seq<Token>)
    requires f.IfForm? && IsForm(f) && Newlines(gap) && Starts(more)
    ensures var p := ParseStmt(FormThen(f, gap + more));
            p.value == Some(StmtOf(f)) && p.errors == [] && SkipNewlines(p.rest) == more
    decreases f, 0
  {
    hide CollectUntil, Collect, ParseBody, ParseElses, SkipNewlines, BodyThen, ElsesThen, StmtsOf, ElseIfsOf, ElseOf,
         IsBody, AreElses;
    var elses := ElsesThen(f.elses, gap + more);
    var body := BodyThen(f.body, elses);
    Front(f.word, f.cond + body);
    BodyStart(f.body, elses);
    R.StopsAt(f.cond, body, {LBrace});
    BodyRead(f.body, elses);
    ElsesRead(f.elses, gap, more);
  }

  lemma {:induction false} ElsesRead(e: Elses, gap: seq<Token>, more: seq<Token>)
    requires AreElses(e) && Newlines(gap) && Starts(more)
    ensures var p := ParseElses(SkipNewlines(ElsesThen(e, gap + more)));
            p.value == (ElseIfsOf(e), ElseOf(e)) && p.errors == [] && SkipNewlines(p.rest) == more
    decreases e, 1
  {
    hide CollectUntil, Collect, ParseBody, SkipNewlines, BodyThen, StmtsOf, IsBody;
    U.NewlinesSkipped(gap, more);
    U.NewlinesSkipped([], more);
    assert [] + more == more;
    match e
    case EndIf =>
    case ElseIfForm(before, else', if', cond, body, rest) =>
      ElseIfRead(e, gap, more);
    case ElseForm(before, else', body) =>
      var ts := BodyThen(body, gap + more);
      Front(else', ts);
      U.NewlinesSkipped(before, [else'] + ts);
      BodyStart(body, gap + more);
      BodyRead(body, gap + more);
      NoStmts(body.lines);
  }

  lemma NoStmts(ls: seq<Line>)
    ensures StmtsOf(ls) == [] <==> ls == []
  {
    hide StmtOf;
  }

  lemma {:induction false} ElseIfRead(e: Elses, gap: seq<Token>, more: seq<Token>)
    requires e.ElseIfForm? && AreElses(e) && Newlines(gap) && Starts(more)
    ensures var p := ParseElses(SkipNewlines(ElsesThen(e, gap + more)));
            p.value == (ElseIfsOf(e), ElseOf(e)) && p.errors == [] && SkipNewlines(p.rest) == more
    decreases e, 0
  {
    hide CollectUntil, Collect, ParseBody, ParseElses, SkipNewlines, BodyThen, StmtsOf, IsBody;
    var elses := ElsesThen(e.more, gap + more);
    var body := BodyThen(e.body, elses);
    var cond := e.cond + body;
    Front(e.else', [e.if'] + cond);
    Front(e.if', cond);
    U.NewlinesSkipped(e.gap, [e.else'] + ([e.if'] + cond));
    BodyStart(e.body, elses);
    R.StopsAt(e.cond, body, {LBrace});
    BodyRead(e.body, elses);
    ElsesRead(e.more, gap, more);
    ElseIfStep([e.else'] + ([e.if'] + cond), cond, Collect(e.cond), body, StmtsOf(e.body.lines), elses);
  }

  lemma ElseIfStep(ts: seq<Token>, r1: seq<Token>, cond: string, r2: seq<Token>, stmts: seq<Stmt>, r3: seq<Token>)
    requires |ts| >= 2 && ts[0].kind == KwElse && ts[1].kind == KwIf && ts[2..] == r1
    requires CollectUntil(r1, {LBrace}) == Parsed(cond, r2, []) && ParseBody(r2) == Parsed(stmts, r3, [])
    ensures var more := ParseElses(SkipNewlines(r3));
            ParseElses(ts) == Parsed(([ElseIf(cond, stmts)] + more.value.0, more.value.1), more.rest, more.errors)
  {
    hide CollectUntil, ParseBody, SkipNewlines;
    assert ts[1..][0] == ts[1];
    var more := ParseElses(SkipNewlines(r3));
    assert [] + more.errors == more.errors;
  }

  /** A block of the grammar parses without an error to what it means, and nothing after it is touched. */
  lemma BlockRead(b: Block, rest: seq<Token>)
    requires IsBlock(b)
    ensures ParseOnInputBlock(BlockThen(b, rest)) == Parsed(StmtsOf(b.body.lines), rest, [])
  {
    hide ParseBody, BodyThen, IsBody;
    Front(b.input, BodyThen(b.body, rest));
    BodyRead(b.body, rest);
  }

  // ---- What is read without an error is of the grammar ----

  lemma {:induction false} SkipSplit(ts: seq<Token>) returns (gap: seq<Token>)
    ensures Newlines(gap) && ts == gap + SkipNewlines(ts) && !At(SkipNewlines(ts), Newline)
  {
    if At(ts, Newline) {
      var tail := SkipSplit(ts[1..]);
      gap := [ts[0]] + tail;
      assert ts == [ts[0]] + ts[1..];
    } else {
      gap := [];
    }
  }

  lemma NameSplit(ts: seq<Token>, k: Kind) returns (optional: seq<Token>, name: Token)
    requires ExpectName(if At(ts, k) then ts[1..] else ts).errors == []
    ensures var p := ExpectName(if At(ts, k) then ts[1..] else ts);
            OptionalWord(optional, k, name) && name.literal == p.value && ts == optional + ([name] + p.rest)
  {
    var at := if At(ts, k) then ts[1..] else ts;
    optional, name := if At(ts, k) then [ts[0]] else [], at[0];
    NameKinds(name.kind);
  }

  lemma TokenSplit(ts: seq<Token>, k: Kind) returns (gap: seq<Token>, t: Token)
    requires ExpectToken(ts, k).errors == []
    ensures var p := ExpectToken(ts, k); p == Parsed((), p.rest, []) && ts == gap + ([t] + p.rest)
    ensures Newlines(gap) && t.kind == k
  {
    hide SkipNewlines;
    gap := SkipSplit(ts);
    var at := SkipNewlines(ts);
    t := at[0];
    assert at == [t] + at[1..];
  }

  lemma ExprSplit(ts: seq<Token>, stops: set<Kind>) returns (e: seq<Token>)
    ensures var p := CollectUntil(ts, stops);
            && Without(e, stops) && p == Parsed(Collect(e), p.rest, []) && ts == e + p.rest
            && (p.rest != [] ==> p.rest[0].kind in stops)
  {
    hide Collect;
    var i := StopIndex(ts, stops);
    e := ts[..i];
  }

  lemma {:induction false} ParamsSplit(ts: seq<Token>, acc: map<string, string>) returns (ps: seq<Param>)
    requires ParseParams(ts, acc).errors == [] && !At(ts, Newline)
    ensures var p := ParseParams(ts, acc); ts == ParamsThen(ps, p.rest) && p.value == ParamsOf(ps, acc)
    ensures At(ParseParams(ts, acc).rest, RBrace) ==> AreParams(ps)
    decreases |ts|
  {
    hide ExpectName, ExpectToken, CollectUntil, Collect, SkipNewlines, ParamsThen, ParamsOf, AreParams;
    if ts == [] || At(ts, RBrace) {
      ps := [];
      ParamsEnd(ts, acc);
    } else {
      var p, next := ParamSplit(ts, acc);
      var more := ParamsSplit(next, acc[p.name.literal := Collect(p.value)]);
      ps := [p] + more;
      ParamsCons(p, more, ParseParams(ts, acc).rest, acc);
      if At(ParseParams(ts, acc).rest, RBrace) {
        ParamsJoin(p, more, ParseParams(ts, acc).rest);
      }
    }
  }

  lemma ParamsEnd(ts: seq<Token>, acc: map<string, string>)
    requires ts == [] || At(ts, RBrace)
    ensures ParseParams(ts, acc) == Parsed(acc, ts, []) && ParamsThen([], ts) == ts && ParamsOf([], acc) == acc
    ensures AreParams([])
  {
  }

  lemma ParamsCons(p: Param, more: seq<Param>, r: seq<Token>, acc: map<string, string>)
    ensures ParamsThen([p] + more, r) ==
            [p.name] + (p.gap + ([p.colon] + (p.value + (p.comma + (p.after + ParamsThen(more, r))))))
    ensures ParamsOf([p] + more, acc) == ParamsOf(more, acc[p.name.literal := Collect(p.value)])
  {
    hide Collect;
    assert ([p] + more)[0] == p && ([p] + more)[1..] == more;
  }

  lemma ParamsJoin(p: Param, more: seq<Param>, r: seq<Token>)
    requires AreParams(more) && At(r, RBrace) && IsParam(p, At(ParamsThen(more, r), RBrace))
    ensures AreParams([p] + more)
  {
    hide IsParam;
    var ps := [p] + more;
    ParamsStart(more, r);
    forall i | 0 <= i < |ps| ensures IsParam(ps[i], i == |ps| - 1) {
      if i > 0 {
        assert IsParam(more[i - 1], i - 1 == |more| - 1);
      }
    }
  }

  /** The first parameter, and the tokens where the loop goes on. */
  lemma ParamSplit(ts: seq<Token>, acc: map<string, string>) returns (p: Param, next: seq<Token>)
    requires ts != [] && ts[0].kind !in {RBrace, Newline} && ParseParams(ts, acc).errors == []
    ensures |next| < |ts| && !At(next, Newline)
    ensures next != [] ==> IsParam(p, At(next, RBrace))
    ensures ts == [p.name] + (p.gap + ([p.colon] + (p.value + (p.comma + (p.after + next)))))
    ensures ParseParams(ts, acc) == ParseParams(next, acc[p.name.literal := Collect(p.value)])
  {
    hide ExpectName, ExpectToken, CollectUntil, Collect, SkipNewlines, ParseParams;
    ParamErrors(ts, acc);
    var key := ExpectName(ts);
    var name := KeySplit(ts);
    var gap, colon := TokenSplit(key.rest, Colon);
    var at := ExpectToken(key.rest, Colon).rest;
    var value := ExprSplit(at, {Comma, RBrace, Newline});
    var after := CollectUntil(at, {Comma, RBrace, Newline}).rest;
    var comma, newlines := SeparatorSplit(after);
    next := SkipNewlines(if At(after, Comma) then after[1..] else after);
    p := Param(name, gap, colon, value, comma, newlines);
    R.ParamStep(ts, acc, key.value, key.rest, Collect(value), at, after);
  }

  lemma SeparatorSplit(after: seq<Token>) returns (comma: seq<Token>, newlines: seq<Token>)
    requires after == [] || after[0].kind in {Comma, RBrace, Newline}
    ensures var next := SkipNewlines(if At(after, Comma) then after[1..] else after);
            && after == comma + (newlines + next) && Newlines(newlines) && !At(next, Newline)
            && (comma == [] || (|comma| == 1 && comma[0].kind == Comma))
            && (comma == [] && newlines == [] && next != [] ==> At(next, RBrace))
  {
    hide SkipNewlines;
    comma := if At(after, Comma) then [after[0]] else [];
    var tail := if At(after, Comma) then after[1..] else after;
    assert after == comma + tail;
    newlines := SkipSplit(tail);
  }

  lemma KeySplit(ts: seq<Token>) returns (name: Token)
    requires ts != [] && ExpectName(ts).errors == []
    ensures IsNameKind(name.kind) && name.literal == ExpectName(ts).value && ts == [name] + ExpectName(ts).rest
  {
    name := ts[0];
    NameKinds(name.kind);
  }

  lemma ParamErrors(ts: seq<Token>, acc: map<string, string>)
    requires ts != [] && ts[0].kind !in {RBrace, Newline} && ParseParams(ts, acc).errors == []
    ensures ExpectName(ts).errors == [] && ExpectToken(ExpectName(ts).rest, Colon).errors == []
  {
    hide ExpectName, ExpectToken, CollectUntil;
    assert SkipNewlines(ts) == ts;
  }

  // ---- Statements without a body ----

  lemma UseSplit(ts: seq<Token>) returns (f: Form)
    requires At(ts, KwUse) && ParseUseSkill(ts).errors == []
    ensures var p := ParseUseSkill(ts); IsForm(f) && StmtOf(f) == p.value && ts == FormThen(f, p.rest)
    ensures !f.RespondExpr?
  {
    hide ExpectName, ExpectToken, ParseParams, SkipNewlines, ParamsThen, ParamsOf, AreParams;
    assert ts == [ts[0]] + ts[1..];
    assert At(ts[1..], KwSkill) ==> ts[2..] == ts[1..][1..];
    var skill, name := NameSplit(ts[1..], KwSkill);
    var r := ExpectName(if At(ts[1..], KwSkill) then ts[2..] else ts[1..]).rest;
    if At(r, KwWith) {
      f := WithSplit(ts, skill, name, r);
    } else {
      f := UseForm(ts[0], skill, name);
    }
  }

  lemma WithSplit(ts: seq<Token>, skill: seq<Token>, name: Token, r: seq<Token>) returns (f: Form)
    requires At(ts, KwUse) && OptionalWord(skill, KwSkill, name) && ts == [ts[0]] + (skill + ([name] + r))
    requires var p := ExpectName(if At(ts[1..], KwSkill) then ts[2..] else ts[1..]);
             p == Parsed(name.literal, r, []) && At(r, KwWith)
    requires ParseUseSkill(ts).errors == []
    ensures f.UseWithForm?
    ensures var p := ParseUseSkill(ts); IsForm(f) && StmtOf(f) == p.value && ts == FormThen(f, p.rest)
  {
    hide ExpectName, ExpectToken, ParseParams, SkipNewlines, ParamsThen, ParamsOf, AreParams, OptionalWord;
    assert r == [r[0]] + r[1..];
    var gap, open := TokenSplit(r[1..], LBrace);
    var inside := ExpectToken(r[1..], LBrace).rest;
    var first := SkipSplit(inside);
    var params := ParamsSplit(SkipNewlines(inside), map[]);
    var close := ClosedBy(SkipNewlines(inside));
    f := UseWithForm(ts[0], skill, name, r[0], gap, open, first, params, close);
  }

  /** Where the parameters end, and the brace there. */
  lemma ClosedBy(ts: seq<Token>) returns (close: Token)
    requires !At(ts, Newline) && ParseParams(ts, map[]).errors == []
    requires ExpectToken(ParseParams(ts, map[]).rest, RBrace).errors == []
    ensures var end := ParseParams(ts, map[]).rest;
            close.kind == RBrace && end == [close] + ExpectToken(end, RBrace).rest
  {
    hide ParseParams, ExpectToken;
    ParamsStop(ts, map[]);
    close := EndBrace(ParseParams(ts, map[]).rest);
  }

  lemma {:induction false} ParamsStop(ts: seq<Token>, acc: map<string, string>)
    requires !At(ts, Newline) && ParseParams(ts, acc).errors == []
    ensures var end := ParseParams(ts, acc).rest; end == [] || At(end, RBrace)
    decreases |ts|
  {
    hide ExpectName, ExpectToken, CollectUntil, Collect, SkipNewlines;
    if ts != [] && !At(ts, RBrace) {
      hide ParseParams;
      var p, next := ParamSplit(ts, acc);
      ParamsStop(next, acc[p.name.literal := Collect(p.value)]);
    }
  }

  lemma DelegateSplit(ts: seq<Token>) returns (f: Form)
    requires At(ts, KwDelegate) && ParseDelegateTo(ts).errors == []
    ensures var p := ParseDelegateTo(ts); IsForm(f) && StmtOf(f) == p.value && ts == FormThen(f, p.rest)
    ensures !f.RespondExpr?
  {
    hide ExpectName;
    assert ts == [ts[0]] + ts[1..];
    assert At(ts[1..], KwTo) ==> ts[2..] == ts[1..][1..];
    var to, name := NameSplit(ts[1..], KwTo);
    f := DelegateForm(ts[0], to, name);
  }

  lemma RespondSplit(ts: seq<Token>) returns (f: Form)
    requires At(ts, KwRespond)
    ensures var p := ParseRespond(ts); IsForm(f) && StmtOf(f) == p.value && ts == FormThen(f, p.rest)
    ensures var end := ParseRespond(ts).rest;
            f.RespondExpr? ==> end == [] || end[0].kind in {Newline, RBrace}
  {
    hide CollectUntil, Collect;
    assert ts == [ts[0]] + ts[1..];
    if At(ts[1..], String) {
      f := RespondText(ts[0], ts[1]);
      assert ts[1..] == [ts[1]] + ts[2..];
    } else {
      var value := ExprSplit(ts[1..], {Newline, RBrace});
      f := RespondExpr(ts[0], value);
    }
  }

  // ---- Statements with bodies ----

  lemma {:induction false} BodySplit(ts: seq<Token>) returns (b: Body)
    requires ParseBody(ts).errors == []
    ensures var p := ParseBody(ts); IsBody(b) && StmtsOf(b.lines) == p.value && ts == BodyThen(b, p.rest)
    ensures At(ts, LBrace) ==> b.gap == []
    decreases |ts|, 3
  {
    hide ExpectToken, SkipNewlines, ParseStmts, LinesThen, StmtsOf, AreLines;
    var gap, open := TokenSplit(ts, LBrace);
    var inside := ExpectToken(ts, LBrace).rest;
    var first := SkipSplit(inside);
    var lines := LinesSplit(SkipNewlines(inside));
    var end := ParseStmts(SkipNewlines(inside)).rest;
    var close := EndBrace(end);
    b := Body(gap, open, first, lines, close);
  }

  lemma EndBrace(end: seq<Token>) returns (close: Token)
    requires (end == [] || At(end, RBrace)) && ExpectToken(end, RBrace).errors == []
    ensures close.kind == RBrace && end == [close] + ExpectToken(end, RBrace).rest
  {
    close := end[0];
  }

  lemma {:induction false} LinesSplit(ts: seq<Token>) returns (ls: seq<Line>)
    requires ParseStmts(ts).errors == [] && !At(ts, Newline)
    ensures var p := ParseStmts(ts);
            && AreLines(ls) && StmtsOf(ls) == p.value && ts == LinesThen(ls, p.rest)
            && (p.rest == [] || At(p.rest, RBrace))
    decreases |ts|, 2
  {
    hide ParseStmt, SkipNewlines, IsForm, FormThen, StmtOf;
    if ts == [] || At(ts, RBrace) {
      ls := [];
    } else {
      hide ParseStmts, LinesThen, AreLines, StmtsOf;
      U.StmtsStep(ts);
      var one := ParseStmt(ts);
      var f, gap := FormSplit(ts);
      var newlines := SkipSplit(one.rest);
      var next := SkipNewlines(one.rest);
      var more := LinesSplit(next);
      var line := Line(f, gap + newlines);
      ls := [line] + more;
      assert gap + one.rest == line.gap + next;
      LinesCons(line, more, ParseStmts(ts).rest);
    }
  }

  lemma LinesCons(line: Line, more: seq<Line>, r: seq<Token>)
    requires AreLines(more) && IsForm(line.form) && Newlines(line.gap)
    requires r == [] || At(r, RBrace)
    requires var next := LinesThen(more, r); line.form.RespondExpr? && line.gap == [] ==> next == [] || At(next, RBrace)
    ensures AreLines([line] + more) && StmtsOf([line] + more) == [StmtOf(line.form)] + StmtsOf(more)
    ensures LinesThen([line] + more, r) == FormThen(line.form, line.gap + LinesThen(more, r))
  {
    hide IsForm, FormThen, StmtOf;
    var ls := [line] + more;
    assert ls[0] == line && ls[1..] == more;
    if more != [] {
      FirstWord(more[0].form, more[0].gap + LinesThen(more[1..], r));
    }
  }

  lemma FirstWord(f: Form, r: seq<Token>)
    requires IsForm(f)
    ensures var ts := FormThen(f, r); ts != [] && ts[0].kind in {KwUse, KwDelegate, KwRespond, KwIf, KwFor}
  {
    hide BodyThen, ElsesThen, ParamsThen;
    assert FormThen(f, r)[0] == f.word;
  }

  /** The statement that ts starts with, and the newlines after an if without else that the parser passes. */
  lemma {:induction false} FormSplit(ts: seq<Token>) returns (f: Form, gap: seq<Token>)
    requires ts != [] && ParseStmt(ts).errors == []
    ensures var p := ParseStmt(ts);
            && IsForm(f) && Newlines(gap) && p.value == Some(StmtOf(f)) && ts == FormThen(f, gap + p.rest)
            && (f.RespondExpr? ==> gap == [] && (p.rest == [] || p.rest[0].kind in {Newline, RBrace}))
    decreases |ts|, 1
  {
    hide ParseUseSkill, ParseDelegateTo, ParseRespond, ParseIf, ParseForEach, IsForm, FormThen, StmtOf;
    gap := [];
    var rest := ParseStmt(ts).rest;
    assert [] + rest == rest;
    if At(ts, KwUse) {
      f := UseSplit(ts);
    } else if At(ts, KwDelegate) {
      f := DelegateSplit(ts);
    } else if At(ts, KwRespond) {
      f := RespondSplit(ts);
    } else if At(ts, KwIf) {
      f, gap := IfSplit(ts);
    } else {
      f := ForSplit(ts);
    }
  }

  lemma {:induction false} ForSplit(ts: seq<Token>) returns (f: Form)
    requires At(ts, KwFor) && ParseForEach(ts).errors == []
    ensures var p := ParseForEach(ts); IsForm(f) && StmtOf(f) == p.value && ts == FormThen(f, p.rest)
    ensures !f.RespondExpr?
    decreases |ts|, 0
  {
    hide ExpectName, CollectUntil, Collect, ParseForEach, ParseBody, BodyThen, StmtsOf, IsBody;
    var r := ForErrors(ts);
    var each, name := NameSplit(ts[1..], KwEach);
    assert ts == [ts[0]] + ts[1..] && r == [r[0]] + r[1..];
    var coll := ExprSplit(r[1..], {LBrace});
    var at := CollectUntil(r[1..], {LBrace}).rest;
    var body := BodySplit(at);
    NonEmptyBody(at);
    f := ForForm(ts[0], each, name, r[0], coll, body);
  }

  /** A loop read without errors has all its parts; r is what follows its variable. */
  lemma ForErrors(ts: seq<Token>) returns (r: seq<Token>)
    requires At(ts, KwFor) && ParseForEach(ts).errors == []
    ensures var name := ExpectName(if At(ts[1..], KwEach) then ts[1..][1..] else ts[1..]);
            && name.errors == [] && name.rest == r && At(r, KwIn) && |r| < |ts|
            && var coll := CollectUntil(r[1..], {LBrace});
               var body := ParseBody(coll.rest);
               && body.errors == [] && |coll.rest| < |ts|
               && ParseForEach(ts) == Parsed(ForEach(name.value, coll.value, body.value), body.rest, [])
  {
    hide ExpectName, CollectUntil, ParseBody;
    assert At(ts[1..], KwEach) ==> ts[2..] == ts[1..][1..];
    r := ExpectName(if At(ts[1..], KwEach) then ts[2..] else ts[1..]).rest;
  }

  lemma NonEmptyBody(ts: seq<Token>)
    requires ParseBody(ts).errors == []
    ensures ts != []
  {
    hide ParseStmts;
  }

  lemma {:induction false} IfSplit(ts: seq<Token>) returns (f: Form, gap: seq<Token>)
    requires At(ts, KwIf) && ParseIf(ts).errors == []
    ensures var p := ParseIf(ts);
            IsForm(f) && Newlines(gap) && StmtOf(f) == p.value && ts == FormThen(f, gap + p.rest)
    ensures !f.RespondExpr?
    decreases |ts|, 0
  {
    hide CollectUntil, Collect, ParseBody, ParseElses, SkipNewlines, BodyThen, ElsesThen, StmtsOf, ElseIfsOf, ElseOf,
         IsBody, AreElses;
    assert ts == [ts[0]] + ts[1..];
    var cond := ExprSplit(ts[1..], {LBrace});
    var at := CollectUntil(ts[1..], {LBrace}).rest;
    var body := BodySplit(at);
    NonEmptyBody(at);
    var elses;
    elses, gap := ElsesSplit(ParseBody(at).rest);
    f := IfForm(ts[0], cond, body, elses);
  }

  lemma {:induction false} ElsesSplit(before: seq<Token>) returns (e: Elses, gap: seq<Token>)
    requires ParseElses(SkipNewlines(before)).errors == []
    ensures var p := ParseElses(SkipNewlines(before));
            && AreElses(e) && Newlines(gap) && p.value == (ElseIfsOf(e), ElseOf(e))
            && before == ElsesThen(e, gap + p.rest)
    decreases |before|, 4
  {
    hide CollectUntil, Collect, ParseBody, SkipNewlines, BodyThen, StmtsOf, IsBody;
    var g := SkipSplit(before);
    var ts := SkipNewlines(before);
    if !At(ts, KwElse) {
      e, gap := EndIf, g;
    } else if At(ts[1..], KwIf) {
      e, gap := ElseIfSplit(before, g);
    } else {
      assert ts == [ts[0]] + ts[1..];
      var body := BodySplit(ts[1..]);
      e, gap := ElseForm(g, ts[0], body), [];
      NoStmts(body.lines);
      var rest := ParseBody(ts[1..]).rest;
      assert [] + rest == rest;
    }
  }

  lemma {:induction false} ElseIfSplit(before: seq<Token>, g: seq<Token>) returns (e: Elses, gap: seq<Token>)
    requires ParseElses(SkipNewlines(before)).errors == [] && Newlines(g) && before == g + SkipNewlines(before)
    requires var ts := SkipNewlines(before); At(ts, KwElse) && At(ts[1..], KwIf)
    ensures var p := ParseElses(SkipNewlines(before));
            && AreElses(e) && Newlines(gap) && p.value == (ElseIfsOf(e), ElseOf(e))
            && before == ElsesThen(e, gap + p.rest)
    decreases |before|, 3
  {
    hide CollectUntil, Collect, ParseBody, SkipNewlines, BodyThen, StmtsOf, IsBody;
    var ts := SkipNewlines(before);
    assert ts == [ts[0]] + ([ts[1]] + ts[2..]);
    var cond := ExprSplit(ts[2..], {LBrace});
    var at := CollectUntil(ts[2..], {LBrace}).rest;
    var body := BodySplit(at);
    NonEmptyBody(at);
    var more;
    more, gap := ElsesSplit(ParseBody(at).rest);
    e := ElseIfForm(g, ts[0], ts[1], cond, body, more);
  }

  /** A parse without errors has read a block of the grammar, and returns what it means and what follows it. */
  lemma BlockSplit(ts: seq<Token>) returns (b: Block)
    requires ParseOnInputBlock(ts).errors == []
    ensures var p := ParseOnInputBlock(ts); IsBlock(b) && ts == BlockThen(b, p.rest) && p.value == StmtsOf(b.body.lines)
  {
    hide ParseBody, BodyThen, IsBody, StmtsOf;
    var body := BodySplit(ts[1..]);
    b := Block(ts[0], body);
    assert ts == [ts[0]] + ts[1..];
  }

  /** No error is reported if and only if the tokens start with a block of the grammar. */
  lemma ErrorsExactly(ts: seq<Token>)
    ensures ParseOnInputBlock(ts).errors == [] <==> exists b, rest :: IsBlock(b) && ts == BlockThen(b, rest)
  {
    hide ParseOnInputBlock, IsBlock, BlockThen;
    if ParseOnInputBlock(ts).errors == [] {
      var b := BlockSplit(ts);
    }
    if exists b, rest :: IsBlock(b) && ts == BlockThen(b, rest) {
      var b, rest :| IsBlock(b) && ts == BlockThen(b, rest);
      BlockRead(b, rest);
    }
  }

  /** The grammar is not ambiguous about what is read: neither the statements nor where the block ends. */
  lemma OneReading(b: Block, rest: seq<Token>, other: Block, otherRest: seq<Token>)
    requires IsBlock(b) && IsBlock(other) && BlockThen(b, rest) == BlockThen(other, otherRest)
    ensures StmtsOf(b.body.lines) == StmtsOf(other.body.lines) && rest == otherRest
  {
    hide ParseOnInputBlock, IsBlock, BlockThen;
    BlockRead(b, rest);
    BlockRead(other, otherRest);
  }
}
