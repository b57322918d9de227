/** The parser of internal/parser/parser.go as it runs: a position moved over the tokens, errors appended as
    they are found. Every method leaves what the parsing function of module Parser gives. */
module OnInputParser {
  import opened Wrappers
  import opened OnInput
  import opened Lexer
  import P = Parser
  import Strings

  lemma Three(a: seq<string>, b: seq<string>, c: seq<string>, d: seq<string>)
    ensures a + b + c + d == a + (b + c + d) && a + b + c == a + (b + c)
  {
  }

  lemma {:induction false} SkipsOne(ts: seq<Token>)
    requires P.At(ts, Newline)
    ensures P.SkipNewlines(ts) == P.SkipNewlines(ts[1..])
  {
  }

  lemma StopsHere(ts: seq<Token>, n: nat, stops: set<Kind>)
    requires n <= |ts| && (n < |ts| ==> ts[n].kind in stops)
    requires forall j :: 0 <= j < n ==> ts[j].kind !in stops
    ensures P.CollectUntil(ts, stops) == P.Parsed(P.Collect(ts[..n]), ts[n..], [])
  {
    hide P.Collect;
    var i := P.StopIndex(ts, stops);
    assert !(i < n) && !(n < i);
  }

  function After(ts: seq<Token>, optional: Kind): seq<Token>
    requires ts != []
  {
    if P.At(ts[1..], optional) then ts[2..] else ts[1..]
  }

  /** A use statement, with its errors in the groups they are found in. */
  lemma UseIs(ts: seq<Token>)
    requires P.At(ts, KwUse)
    ensures var named := P.ExpectName(After(ts, KwSkill));
            P.ParseUseSkill(ts) ==
            if P.At(named.rest, KwWith) then
              var open := P.ExpectToken(named.rest[1..], LBrace);
              var inner := P.ParseParams(P.SkipNewlines(open.rest), map[]);
              var close := P.ExpectToken(inner.rest, RBrace);
              P.Parsed(UseSkill(named.value, inner.value), close.rest,
                       named.errors + (open.errors + inner.errors) + close.errors)
            else P.Parsed(UseSkill(named.value, map[]), named.rest, named.errors)
  {
    hide P.ParseParams, P.SkipNewlines, P.ExpectName, P.ExpectToken;
    var named := P.ExpectName(After(ts, KwSkill));
    if P.At(named.rest, KwWith) {
      var open := P.ExpectToken(named.rest[1..], LBrace);
      var inner := P.ParseParams(P.SkipNewlines(open.rest), map[]);
      Three(named.errors, open.errors, inner.errors, []);
    }
  }

  /** What is left of a loop's specification after some rounds: results so far, then those of the rest. */
  ghost predicate Continues(whole: P.Parsed<seq<Stmt>>, stmts: seq<Stmt>, found: seq<string>, ts: seq<Token>) {
    var more := P.ParseStmts(ts);
    whole == P.Parsed(stmts + more.value, more.rest, found + more.errors)
  }

  lemma ContinuesStep(whole: P.Parsed<seq<Stmt>>, stmts: seq<Stmt>, found: seq<string>, ts: seq<Token>)
    requires Continues(whole, stmts, found, ts)
    requires ts != [] && !P.At(ts, RBrace) && !P.At(P.SkipNewlines(ts), RBrace)
    ensures var one := P.ParseStmt(P.SkipNewlines(ts));
            Continues(whole, stmts + (if one.value.Some? then [one.value.value] else []), found + one.errors,
                      P.SkipNewlines(one.rest))
  {
    hide P.ParseStmt, P.SkipNewlines;
    var one := P.ParseStmt(P.SkipNewlines(ts));
    var more := P.ParseStmts(P.SkipNewlines(one.rest));
    var got := if one.value.Some? then [one.value.value] else [];
    assert stmts + (got + more.value) == (stmts + got) + more.value;
    assert found + (one.errors + more.errors) == (found + one.errors) + more.errors;
  }

  lemma ContinuesStart(ts: seq<Token>)
    ensures Continues(P.ParseStmts(ts), [], [], ts)
  {
    hide P.ParseStmts;
    var p := P.ParseStmts(ts);
    assert [] + p.value == p.value && [] + p.errors == p.errors;
  }

  lemma ContinuesBreak(whole: P.Parsed<seq<Stmt>>, stmts: seq<Stmt>, found: seq<string>, ts: seq<Token>)
    requires Continues(whole, stmts, found, ts) && P.At(P.SkipNewlines(ts), RBrace)
    ensures Continues(whole, stmts, found, P.SkipNewlines(ts))
  {
  }

  lemma ContinuesEnd(whole: P.Parsed<seq<Stmt>>, stmts: seq<Stmt>, found: seq<string>, ts: seq<Token>)
    requires Continues(whole, stmts, found, ts) && (ts == [] || P.At(ts, RBrace))
    ensures whole == P.Parsed(stmts, ts, found)
  {
    assert stmts + [] == stmts && found + [] == found;
  }

  ghost predicate ParamsContinue(whole: P.Parsed<map<string, string>>, params: map<string, string>,
                                 found: seq<string>, ts: seq<Token>) {
    var more := P.ParseParams(ts, params);
    whole == P.Parsed(more.value, more.rest, found + more.errors)
  }

  lemma ParamsStep(whole: P.Parsed<map<string, string>>, params: map<string, string>, found: seq<string>,
                   ts: seq<Token>)
    requires ParamsContinue(whole, params, found, ts)
    requires ts != [] && !P.At(ts, RBrace) && !P.At(P.SkipNewlines(ts), RBrace)
    ensures var key := P.ExpectName(P.SkipNewlines(ts));
            var colon := P.ExpectToken(key.rest, Colon);
            var value := P.CollectUntil(colon.rest, {Comma, RBrace, Newline});
            var after := P.SkipNewlines(if P.At(value.rest, Comma) then value.rest[1..] else value.rest);
            ParamsContinue(whole, params[key.value := value.value], found + key.errors + colon.errors, after)
  {
    hide P.SkipNewlines, P.ExpectName, P.ExpectToken, P.CollectUntil;
    var key := P.ExpectName(P.SkipNewlines(ts));
    var colon := P.ExpectToken(key.rest, Colon);
    var value := P.CollectUntil(colon.rest, {Comma, RBrace, Newline});
    var after := P.SkipNewlines(if P.At(value.rest, Comma) then value.rest[1..] else value.rest);
    var more := P.ParseParams(after, params[key.value := value.value]);
    Three(found, key.errors, colon.errors, more.errors);
  }

  lemma ParamsStart(ts: seq<Token>)
    ensures ParamsContinue(P.ParseParams(ts, map[]), map[], [], ts)
  {
    hide P.ParseParams;
    var p := P.ParseParams(ts, map[]);
    assert [] + p.errors == p.errors;
  }

  lemma ParamsBreak(whole: P.Parsed<map<string, string>>, params: map<string, string>, found: seq<string>,
                    ts: seq<Token>)
    requires ParamsContinue(whole, params, found, ts) && P.At(P.SkipNewlines(ts), RBrace)
    ensures ParamsContinue(whole, params, found, P.SkipNewlines(ts))
  {
  }

  lemma ParamsEnd(whole: P.Parsed<map<string, string>>, params: map<string, string>, found: seq<string>, ts: seq<Token>)
    requires ParamsContinue(whole, params, found, ts) && (ts == [] || P.At(ts, RBrace))
    ensures whole == P.Parsed(params, ts, found)
  {
    assert found + [] == found;
  }

  ghost predicate ElsesContinue(whole: P.Parsed<(seq<ElseIf>, Else)>, elseIfs: seq<ElseIf>, found: seq<string>,
                                ts: seq<Token>) {
    var more := P.ParseElses(ts);
    whole == P.Parsed((elseIfs + more.value.0, more.value.1), more.rest, found + more.errors)
  }

  lemma ElsesStep(whole: P.Parsed<(seq<ElseIf>, Else)>, elseIfs: seq<ElseIf>, found: seq<string>, ts: seq<Token>)
    requires ElsesContinue(whole, elseIfs, found, ts) && P.At(ts, KwElse) && P.At(ts[1..], KwIf)
    ensures var cond := P.CollectUntil(ts[2..], {LBrace});
            var body := P.ParseBody(cond.rest);
            ElsesContinue(whole, elseIfs + [ElseIf(cond.value, body.value)], found + body.errors,
                          P.SkipNewlines(body.rest))
  {
    hide P.SkipNewlines, P.CollectUntil, P.ParseBody;
    var cond := P.CollectUntil(ts[2..], {LBrace});
    var body := P.ParseBody(cond.rest);
    var more := P.ParseElses(P.SkipNewlines(body.rest));
    assert elseIfs + ([ElseIf(cond.value, body.value)] + more.value.0) ==
           elseIfs + [ElseIf(cond.value, body.value)] + more.value.0;
    assert found + (body.errors + more.errors) == found + body.errors + more.errors;
  }

  lemma ElsesStart(ts: seq<Token>)
    ensures ElsesContinue(P.ParseElses(ts), [], [], ts)
  {
    hide P.ParseElses;
    var p := P.ParseElses(ts);
    assert [] + p.value.0 == p.value.0 && [] + p.errors == p.errors;
  }

  lemma ElsesLast(whole: P.Parsed<(seq<ElseIf>, Else)>, elseIfs: seq<ElseIf>, found: seq<string>, ts: seq<Token>)
    requires ElsesContinue(whole, elseIfs, found, ts) && P.At(ts, KwElse) && !P.At(ts[1..], KwIf)
    ensures var body := P.ParseBody(ts[1..]);
            whole == P.Parsed((elseIfs, if body.value == [] then NoElse else Else(body.value)), body.rest,
                              found + body.errors)
  {
    hide P.ParseBody;
    assert elseIfs + [] == elseIfs;
  }

  lemma ElsesEnd(whole: P.Parsed<(seq<ElseIf>, Else)>, elseIfs: seq<ElseIf>, found: seq<string>, ts: seq<Token>)
    requires ElsesContinue(whole, elseIfs, found, ts) && !P.At(ts, KwElse)
    ensures whole == P.Parsed((elseIfs, NoElse), ts, found)
  {
    assert elseIfs + [] == elseIfs && found + [] == found;
  }

  lemma NoParts(ts: seq<Token>)
    ensures P.Parts(ts[..0]) == []
  {
  }

  lemma PartsGrow(ts: seq<Token>, n: nat)
    requires n < |ts|
    ensures P.Parts(ts[..n + 1]) == P.AddPart(P.Parts(ts[..n]), ts[n])
  {
    hide P.AddPart;
    assert ts[..n + 1][..n] == ts[..n];
  }

  /** One round of the collecting loop: strings are quoted again, dots and what follows them are attached. */
  method Attach(parts: seq<string>, tok: Token) returns (r: seq<string>)
    ensures r == P.AddPart(parts, tok)
  {
    r := parts;
    var last := |parts| - 1;
    match tok.kind
    case Newline =>
    case String => r := parts + ["\"" + tok.literal + "\""];
    case Dot =>
      if |parts| > 0 {
        r := parts[last := parts[last] + "."];
      }
    case _ =>
      if |parts| > 0 && parts[last] != "" && parts[last][|parts[last]| - 1] == '.' {
        r := parts[last := parts[last] + tok.literal];
      } else {
        r := parts + [tok.literal];
      }
  }

  class Parser {
    const tokens: seq<Token>
    var pos: nat
    var errors: seq<string>

    constructor (tokens: seq<Token>)
      ensures Valid() && Rest() == tokens && errors == []
    {
      this.tokens := tokens;
      pos := 0;
      errors := [];
    }

    ghost predicate Valid()
      reads this
    {
      pos <= |tokens|
    }

    /** The tokens not consumed. */
    ghost function Rest(): (r: seq<Token>)
      requires Valid()
      reads this
      ensures |r| == |tokens| - pos
    {
      tokens[pos..]
    }

    /** The parser stands where p leaves it, with p's errors after those reported before. */
    ghost predicate Left<T>(p: P.Parsed<T>, before: seq<string>)
      reads this
    {
      Valid() && Rest() == p.rest && errors == before + p.errors
    }

    predicate Check(k: Kind)
      requires Valid()
      reads this
      ensures Check(k) <==> P.At(Rest(), k)
    {
      pos < |tokens| && tokens[pos].kind == k
    }

    method Advance()
      requires Valid() && pos < |tokens|
      modifies this`pos
      ensures Valid() && pos == old(pos) + 1 && Rest() == old(Rest())[1..]
    {
      pos := pos + 1;
    }

    method AddError(e: string)
      modifies this`errors
      ensures errors == old(errors) + [e]
    {
      errors := errors + [e];
    }

    method SkipNewlines()
      requires Valid()
      modifies this`pos
      ensures Valid() && pos >= old(pos) && Rest() == P.SkipNewlines(old(Rest()))
    {
      while Check(Newline)
        invariant Valid() && pos >= old(pos)
        invariant P.SkipNewlines(Rest()) == P.SkipNewlines(old(Rest()))
        decreases |tokens| - pos
      {
        SkipsOne(Rest());
        Advance();
      }
    }

    method ExpectToken(k: Kind)
      requires Valid()
      modifies this
      ensures pos >= old(pos) && Left(P.ExpectToken(old(Rest()), k), old(errors))
    {
      SkipNewlines();
      if Check(k) {
        Advance();
      } else {
        AddError("unexpected token");
      }
    }

    method ExpectName() returns (name: string)
      requires Valid()
      modifies this
      ensures pos >= old(pos) && Left(P.ExpectName(old(Rest())), old(errors))
      ensures name == P.ExpectName(old(Rest())).value
    {
      if pos == |tokens| {
        name := "";
        AddError("expected string or identifier");
      } else {
        name := tokens[pos].literal;
        if !P.NameKind(tokens[pos].kind) {
          AddError("expected string or identifier");
        }
        Advance();
      }
    }

    method CollectExpressionUntil(stops: set<Kind>) returns (e: string)
      requires Valid()
      modifies this`pos
      ensures pos >= old(pos) && Left(P.CollectUntil(old(Rest()), stops), old(errors))
      ensures e == P.CollectUntil(old(Rest()), stops).value
    {
      hide P.Collect, P.CollectUntil, P.Join, P.Parts, P.AddPart;
      ghost var start := pos;
      ghost var ts := Rest();
      var parts: seq<string> := [];
      NoParts(ts);
      while pos < |tokens| && tokens[pos].kind !in stops
        invariant start <= pos <= |tokens|
        invariant forall j :: 0 <= j < pos - start ==> ts[j].kind !in stops
        invariant parts == P.Parts(ts[..pos - start])
        decreases |tokens| - pos
      {
        var tok := tokens[pos];
        PartsGrow(ts, pos - start);
        parts := Attach(parts, tok);
        pos := pos + 1;
      }
      StopsHere(ts, pos - start, stops);
      assert Rest() == ts[pos - start..];
      CollectIs(ts[..pos - start]);
      e := Strings.TrimSpace(P.Join(parts));
    }

    method ParseParams() returns (params: map<string, string>)
      requires Valid()
      modifies this
      ensures pos >= old(pos) && Left(P.ParseParams(old(Rest()), map[]), old(errors))
      ensures params == P.ParseParams(old(Rest()), map[]).value
    {
      hide P.ParseParams, P.SkipNewlines, P.ExpectName, P.ExpectToken, P.CollectUntil, ParamsContinue;
      ghost var whole := P.ParseParams(Rest(), map[]);
      ghost var found: seq<string> := [];
      params := map[];
      ParamsStart(Rest());
      while pos < |tokens| && !Check(RBrace)
        invariant Valid() && pos >= old(pos)
        invariant errors == old(errors) + found
        invariant ParamsContinue(whole, params, found, Rest())
        decreases |tokens| - pos
      {
        ghost var ts := Rest();
        SkipNewlines();
        if Check(RBrace) {
          ParamsBreak(whole, params, found, ts);
          break;
        }
        ParamsStep(whole, params, found, ts);
        ghost var name := P.ExpectName(Rest());
        ghost var colon := P.ExpectToken(name.rest, Colon);
        Three(old(errors), found, name.errors, colon.errors);
        var key := ExpectName();
        ExpectToken(Colon);
        var value := CollectExpressionUntil({Comma, RBrace, Newline});
        params := params[key := value];
        if Check(Comma) {
          Advance();
        }
        SkipNewlines();
        found := found + name.errors + colon.errors;
      }
      ParamsEnd(whole, params, found, Rest());
    }

    /** A keyword, the optional word after it, and a name. */
    method ParseName(optional: Kind) returns (name: string)
      requires Valid() && pos < |tokens|
      modifies this
      ensures pos > old(pos) && Left(P.ExpectName(After(old(Rest()), optional)), old(errors))
      ensures name == P.ExpectName(After(old(Rest()), optional)).value
    {
      hide P.ExpectName;
      Advance();
      if Check(optional) {
        Advance();
      }
      name := ExpectName();
    }

    /** `{` parameters `}`. */
    method ParseWith() returns (params: map<string, string>)
      requires Valid()
      modifies this
      ensures var open := P.ExpectToken(old(Rest()), LBrace);
              var inner := P.ParseParams(P.SkipNewlines(open.rest), map[]);
              var close := P.ExpectToken(inner.rest, RBrace);
              && pos >= old(pos) && Valid() && Rest() == close.rest && params == inner.value
              && errors == old(errors) + (open.errors + inner.errors) + close.errors
    {
      hide P.ParseParams, P.SkipNewlines, P.ExpectToken;
      ghost var open := P.ExpectToken(Rest(), LBrace);
      ExpectToken(LBrace);
      SkipNewlines();
      Three(old(errors), open.errors, P.ParseParams(Rest(), map[]).errors, []);
      params := ParseParams();
      ExpectToken(RBrace);
    }

    method ParseUseSkill() returns (s: Stmt)
      requires Valid() && Check(KwUse)
      modifies this
      ensures pos > old(pos) && Left(P.ParseUseSkill(old(Rest())), old(errors))
      ensures s == P.ParseUseSkill(old(Rest())).value
    {
      hide P.ParseParams, P.SkipNewlines, P.ExpectName, P.ExpectToken, P.ParseUseSkill;
      UseIs(Rest());
      ghost var named := P.ExpectName(After(Rest(), KwSkill));
      var name := ParseName(KwSkill);
      if Check(KwWith) {
        Advance();
        ghost var open := P.ExpectToken(Rest(), LBrace);
        ghost var inner := P.ParseParams(P.SkipNewlines(open.rest), map[]);
        ghost var close := P.ExpectToken(inner.rest, RBrace);
        var params := ParseWith();
        s := UseSkill(name, params);
        Three(old(errors), named.errors, open.errors + inner.errors, close.errors);
      } else {
        s := UseSkill(name, map[]);
      }
    }

    method ParseDelegateTo() returns (s: Stmt)
      requires Valid() && Check(KwDelegate)
      modifies this
      ensures pos > old(pos) && Left(P.ParseDelegateTo(old(Rest())), old(errors))
      ensures s == P.ParseDelegateTo(old(Rest())).value
    {
      hide P.ExpectName;
      var name := ParseName(KwTo);
      s := Delegate(name);
    }

    method ParseRespond() returns (s: Stmt)
      requires Valid() && Check(KwRespond)
      modifies this
      ensures pos > old(pos) && Left(P.ParseRespond(old(Rest())), old(errors))
      ensures s == P.ParseRespond(old(Rest())).value
    {
      hide P.CollectUntil;
      Advance();
      if Check(String) {
        s := Respond(tokens[pos].literal);
        Advance();
      } else {
        var e := CollectExpressionUntil({Newline, RBrace});
        s := Respond(e);
      }
    }

    method ParseBody() returns (stmts: seq<Stmt>)
      requires Valid()
      modifies this
      ensures pos >= old(pos) && Left(P.ParseBody(old(Rest())), old(errors))
      ensures stmts == P.ParseBody(old(Rest())).value
      decreases |tokens| - pos, 3
    {
      hide P.ParseStmts, P.SkipNewlines, P.ExpectToken;
      ExpectToken(LBrace);
      SkipNewlines();
      stmts := ParseStatements();
      ExpectToken(RBrace);
    }

    method ParseStatements() returns (stmts: seq<Stmt>)
      requires Valid()
      modifies this
      ensures pos >= old(pos) && Left(P.ParseStmts(old(Rest())), old(errors))
      ensures stmts == P.ParseStmts(old(Rest())).value
      decreases |tokens| - pos, 2
    {
      hide P.ParseStmts, P.ParseStmt, P.SkipNewlines, Continues;
      ghost var whole := P.ParseStmts(Rest());
      ghost var found: seq<string> := [];
      stmts := [];
      ContinuesStart(Rest());
      while pos < |tokens| && !Check(RBrace)
        invariant Valid() && pos >= old(pos)
        invariant errors == old(errors) + found
        invariant Continues(whole, stmts, found, Rest())
        decreases |tokens| - pos
      {
        ghost var ts := Rest();
        SkipNewlines();
        if Check(RBrace) {
          ContinuesBreak(whole, stmts, found, ts);
          break;
        }
        ContinuesStep(whole, stmts, found, ts);
        ghost var one := P.ParseStmt(Rest());
        Three(old(errors), found, one.errors, []);
        var s := ParseStatement();
        assert stmts + [] == stmts;
        if s.Some? {
          stmts := stmts + [s.value];
        }
        SkipNewlines();
        found := found + one.errors;
      }
      ContinuesEnd(whole, stmts, found, Rest());
    }

    /** The switch in the statement loop. */
    method ParseStatement() returns (s: Option<Stmt>)
      requires Valid()
      modifies this
      ensures pos >= old(pos) && (old(pos) < |tokens| ==> pos > old(pos))
      ensures Left(P.ParseStmt(old(Rest())), old(errors)) && s == P.ParseStmt(old(Rest())).value
      decreases |tokens| - pos, 1
    {
      hide P.ParseUseSkill, P.ParseDelegateTo, P.ParseRespond, P.ParseIf, P.ParseForEach;
      if Check(KwUse) {
        var one := ParseUseSkill();
        s := Some(one);
      } else if Check(KwDelegate) {
        var one := ParseDelegateTo();
        s := Some(one);
      } else if Check(KwRespond) {
        var one := ParseRespond();
        s := Some(one);
      } else if Check(KwIf) {
        var one := ParseIf();
        s := Some(one);
      } else if Check(KwFor) {
        var one := ParseForEach();
        s := Some(one);
      } else {
        s := None;
        AddError("unexpected token in on input block");
        if pos < |tokens| {
          Advance();
        }
      }
    }

    method ParseIf() returns (s: Stmt)
      requires Valid() && Check(KwIf)
      modifies this
      ensures pos > old(pos) && Left(P.ParseIf(old(Rest())), old(errors))
      ensures s == P.ParseIf(old(Rest())).value
      decreases |tokens| - pos, 0
    {
      hide P.CollectUntil, P.ParseBody, P.ParseElses, P.SkipNewlines;
      Advance();
      var cond := CollectExpressionUntil({LBrace});
      var body := ParseBody();
      SkipNewlines();
      var elseIfs, elseBody := ParseElses();
      s := If(cond, body, elseIfs, elseBody);
    }

    method ParseElseIf() returns (clause: ElseIf)
      requires Valid() && Check(KwIf)
      modifies this
      ensures var cond := P.CollectUntil(old(Rest())[1..], {LBrace});
              var body := P.ParseBody(cond.rest);
              pos > old(pos) && Left(body, old(errors)) && clause == ElseIf(cond.value, body.value)
      decreases |tokens| - pos, 4
    {
      hide P.CollectUntil, P.ParseBody;
      Advance();
      var cond := CollectExpressionUntil({LBrace});
      var body := ParseBody();
      clause := ElseIf(cond, body);
    }

    /** The body of a plain else; no statements leave a nil slice. */
    method ParseElse() returns (e: Else)
      requires Valid()
      modifies this
      ensures var body := P.ParseBody(old(Rest()));
              pos >= old(pos) && Left(body, old(errors)) && e == if body.value == [] then NoElse else Else(body.value)
      decreases |tokens| - pos, 4
    {
      hide P.ParseBody;
      var body := ParseBody();
      e := if body == [] then NoElse else Else(body);
    }

    /** The loop over else-if clauses, left by the break of a plain else. */
    method ParseElses() returns (elseIfs: seq<ElseIf>, elseBody: Else)
      requires Valid()
      modifies this
      ensures pos >= old(pos) && Left(P.ParseElses(old(Rest())), old(errors))
      ensures (elseIfs, elseBody) == P.ParseElses(old(Rest())).value
      decreases |tokens| - pos, 5
    {
      hide P.CollectUntil, P.ParseBody, P.ParseElses, P.SkipNewlines, ElsesContinue;
      ghost var whole := P.ParseElses(Rest());
      ghost var found: seq<string> := [];
      elseIfs, elseBody := [], NoElse;
      ElsesStart(Rest());
      while Check(KwElse)
        invariant Valid() && pos >= old(pos)
        invariant errors == old(errors) + found
        invariant ElsesContinue(whole, elseIfs, found, Rest())
        decreases |tokens| - pos
      {
        ghost var ts := Rest();
        Advance();
        if Check(KwIf) {
          ElsesStep(whole, elseIfs, found, ts);
          assert ts[1..][1..] == ts[2..];
          ghost var inner := P.ParseBody(P.CollectUntil(ts[2..], {LBrace}).rest);
          Three(old(errors), found, inner.errors, []);
          var clause := ParseElseIf();
          elseIfs := elseIfs + [clause];
          SkipNewlines();
          found := found + inner.errors;
        } else {
          ElsesLast(whole, elseIfs, found, ts);
          Three(old(errors), found, P.ParseBody(Rest()).errors, []);
          elseBody := ParseElse();
          return;
        }
      }
      ElsesEnd(whole, elseIfs, found, Rest());
    }

    method ParseForEach() returns (s: Stmt)
      requires Valid() && Check(KwFor)
      modifies this
      ensures pos > old(pos) && Left(P.ParseForEach(old(Rest())), old(errors))
      ensures s == P.ParseForEach(old(Rest())).value
      decreases |tokens| - pos, 0
    {
      hide P.CollectUntil, P.ParseBody, P.ExpectName;
      ghost var named := P.ExpectName(After(Rest(), KwEach));
      var name := ParseName(KwEach);
      ghost var missing := if Check(KwIn) then [] else ["expected 'in' in for each loop"];
      if Check(KwIn) {
        Advance();
      } else {
        AddError("expected 'in' in for each loop");
      }
      assert errors == old(errors) + named.errors + missing;
      ghost var inner := P.ParseBody(P.CollectUntil(Rest(), {LBrace}).rest);
      Three(old(errors), named.errors, missing, inner.errors);
      var coll := CollectExpressionUntil({LBrace});
      var body := ParseBody();
      s := ForEach(name, coll, body);
    }

    method ParseOnInputBlock() returns (stmts: seq<Stmt>)
      requires Valid()
      modifies this
      ensures Left(P.ParseOnInputBlock(old(Rest())), old(errors))
      ensures stmts == P.ParseOnInputBlock(old(Rest())).value
    {
      hide P.ParseBody;
      if Check(KwInput) {
        Advance();
      } else {
        AddError("expected 'input' after 'on'");
      }
      stmts := ParseBody();
    }
  }

  lemma CollectIs(ts: seq<Token>)
    ensures P.Collect(ts) == Strings.TrimSpace(P.Join(P.Parts(ts)))
  {
  }
}
