/** Parsing a formatted `on input` block gives the block back. */
module RoundTrip {
  import opened Wrappers
  import opened OnInput
  import opened Lexer
  import opened Parser
  import opened Formatter
  import opened PrintedTokens
  import Strings

  // ---- The block the parser rebuilds ----

  /** An empty else comes back as no else: the parser's nil slice. */
  function Norm(s: Stmt): Stmt
    decreases s, 0
  {
    match s
    case If(c, body, elseIfs, elseBody) => If(c, NormAll(body), NormElseIfs(elseIfs), NormElse(elseBody))
    case ForEach(x, c, body) => ForEach(x, c, NormAll(body))
    case _ => s
  }

  function NormAll(stmts: seq<Stmt>): (r: seq<Stmt>)
    ensures |r| == |stmts|
    decreases stmts, 1
  {
    if stmts == [] then [] else [Norm(stmts[0])] + NormAll(stmts[1..])
  }

  function NormElseIfs(elseIfs: seq<ElseIf>): seq<ElseIf>
    decreases elseIfs, 1
  {
    if elseIfs == [] then [] else
      [ElseIf(elseIfs[0].condition, NormAll(elseIfs[0].body))] + NormElseIfs(elseIfs[1..])
  }

  function NormElse(e: Else): Else
    decreases e, 1
  {
    match e
    case NoElse => NoElse
    case Else(b) => if b == [] then NoElse else Else(NormAll(b))
  }

  /** No else anywhere in the block has an empty body. */
  predicate NoEmptyElse(s: Stmt)
    decreases s, 0
  {
    match s
    case If(_, body, elseIfs, elseBody) =>
      && NoEmptyElses(body)
      && (forall i :: 0 <= i < |elseIfs| ==> NoEmptyElses(elseIfs[i].body))
      && (match elseBody case NoElse => true case Else(b) => b != [] && NoEmptyElses(b))
    case ForEach(_, _, body) => NoEmptyElses(body)
    case _ => true
  }

  predicate NoEmptyElses(stmts: seq<Stmt>)
    decreases stmts, 1
  {
    forall i :: 0 <= i < |stmts| ==> NoEmptyElse(stmts[i])
  }

  lemma {:induction false} NormFixed(s: Stmt)
    ensures Norm(s) == s <==> NoEmptyElse(s)
    decreases s, 0
  {
    match s
    case If(_, body, elseIfs, elseBody) =>
      NormAllFixed(body);
      NormElseIfsFixed(elseIfs);
      if elseBody.Else? {
        NormAllFixed(elseBody.body);
      }
    case ForEach(_, _, body) => NormAllFixed(body);
    case _ =>
  }

  lemma {:induction false} NormAllFixed(stmts: seq<Stmt>)
    ensures NormAll(stmts) == stmts <==> NoEmptyElses(stmts)
    decreases stmts, 1
  {
    if stmts != [] {
      NormFixed(stmts[0]);
      NormAllFixed(stmts[1..]);
      assert stmts == [stmts[0]] + stmts[1..];
      assert NormAll(stmts)[0] == Norm(stmts[0]) && NormAll(stmts)[1..] == NormAll(stmts[1..]);
    }
  }

  lemma {:induction false} NormElseIfsFixed(elseIfs: seq<ElseIf>)
    ensures NormElseIfs(elseIfs) == elseIfs <==> forall i :: 0 <= i < |elseIfs| ==> NoEmptyElses(elseIfs[i].body)
    decreases elseIfs, 1
  {
    if elseIfs != [] {
      NormAllFixed(elseIfs[0].body);
      NormElseIfsFixed(elseIfs[1..]);
      assert elseIfs == [elseIfs[0]] + elseIfs[1..];
      var n := NormElseIfs(elseIfs);
      assert n[0] == ElseIf(elseIfs[0].condition, NormAll(elseIfs[0].body)) && n[1..] == NormElseIfs(elseIfs[1..]);
    }
  }

  // ---- Parsing the tokens of each part ----

  lemma {:induction false} StopsAt(a: seq<Token>, b: seq<Token>, stops: set<Kind>)
    requires forall i :: 0 <= i < |a| ==> a[i].kind !in stops
    requires b != [] && b[0].kind in stops
    ensures CollectUntil(a + b, stops) == Parsed(Collect(a), b, [])
  {
    var i := StopIndex(a + b, stops);
    assert (a + b)[|a|] == b[0];
    assert forall j :: 0 <= j < |a| ==> (a + b)[j] == a[j];
    assert i == |a|;
    assert (a + b)[..i] == a && (a + b)[i..] == b;
  }

  lemma ReadsExpr(u: Unicode, e: string, b: seq<Token>, stops: set<Kind>)
    requires IsExpr(u, e, stops) && b != [] && b[0].kind in stops
    ensures CollectUntil(TokensOf(u, e) + b, stops) == Parsed(e, b, [])
  {
    hide Collect, LexExact, CollectUntil;
    StopsAt(TokensOf(u, e), b, stops);
  }

  lemma ReadsName(u: Unicode, n: string, b: seq<Token>)
    requires IsName(u, n)
    ensures ExpectName(TokensOf(u, n) + b) == Parsed(n, b, [])
    ensures TokensOf(u, n) != [] && NameKind(TokensOf(u, n)[0].kind) && TokensOf(u, n)[0].kind != Newline
  {
    hide LexExact;
    var t := TokensOf(u, n);
    assert (t + b)[0] == t[0] && (t + b)[1..] == b;
  }

  lemma Past(t: Token, b: seq<Token>)
    ensures ([t] + b)[0] == t && ([t] + b)[1..] == b
    ensures t.kind != Newline ==> SkipNewlines([t] + b) == [t] + b && ExpectToken([t] + b, t.kind) == Parsed((), b, [])
    ensures t.kind == Newline ==> SkipNewlines([t] + b) == SkipNewlines(b)
  {
  }

  lemma UseKeywords()
    ensures Key("use").kind == KwUse && Key("skill").kind == KwSkill && Key("with").kind == KwWith
  {
  }

  lemma CallKeywords()
    ensures Key("delegate").kind == KwDelegate && Key("to").kind == KwTo && Key("respond").kind == KwRespond
  {
  }

  lemma IfKeywords()
    ensures Key("if").kind == KwIf && Key("else").kind == KwElse
  {
  }

  lemma ForKeywords()
    ensures Key("for").kind == KwFor && Key("each").kind == KwEach && Key("in").kind == KwIn
  {
  }

  lemma BlockKeywords()
    ensures Key("on").kind == KwOn && Key("input").kind == KwInput
  {
  }

  ghost predicate Closing(ts: seq<Token>) {
    ts != [] && ts[0].kind == RBrace
  }

  lemma ParamStep(ts: seq<Token>, acc: map<string, string>, k: string, r1: seq<Token>, v: string, r2: seq<Token>,
                  after: seq<Token>)
    requires ts != [] && ts[0].kind !in {RBrace, Newline}
    requires ExpectName(ts) == Parsed(k, r1, []) && ExpectToken(r1, Colon) == Parsed((), r2, [])
    requires CollectUntil(r2, {Comma, RBrace, Newline}) == Parsed(v, after, [])
    ensures var next := SkipNewlines(if At(after, Comma) then after[1..] else after);
            ParseParams(ts, acc) == ParseParams(next, acc[k := v])
  {
    hide CollectUntil, ExpectName, ExpectToken, SkipNewlines, ParseParams;
    ParamUnfolds(ts, acc);
    var more := ParseParams(SkipNewlines(if At(after, Comma) then after[1..] else after), acc[k := v]);
    assert [] + [] + more.errors == more.errors;
  }

  lemma ParamUnfolds(ts: seq<Token>, acc: map<string, string>)
    requires ts != [] && ts[0].kind !in {RBrace, Newline}
    ensures var key := ExpectName(ts);
            var colon := ExpectToken(key.rest, Colon);
            var value := CollectUntil(colon.rest, {Comma, RBrace, Newline});
            var after := SkipNewlines(if At(value.rest, Comma) then value.rest[1..] else value.rest);
            var more := ParseParams(after, acc[key.value := value.value]);
            ParseParams(ts, acc) == Parsed(more.value, more.rest, key.errors + colon.errors + more.errors)
  {
    hide CollectUntil, ExpectName, ExpectToken;
    assert SkipNewlines(ts) == ts;
  }

  function Gather(keys: seq<string>, params: map<string, string>, acc: map<string, string>): map<string, string>
    requires forall i :: 0 <= i < |keys| ==> keys[i] in params
  {
    if keys == [] then acc else Gather(keys[1..], params, acc[keys[0] := params[keys[0]]])
  }

  lemma {:induction false} GathersAll(keys: seq<string>, params: map<string, string>, acc: map<string, string>)
    requires forall i :: 0 <= i < |keys| ==> keys[i] in params
    ensures forall k :: k in Gather(keys, params, acc) <==> k in keys || k in acc
    ensures forall k :: k in keys ==> Gather(keys, params, acc)[k] == params[k]
    ensures forall k :: k in acc && k !in keys ==> Gather(keys, params, acc)[k] == acc[k]
  {
    if keys != [] {
      GathersAll(keys[1..], params, acc[keys[0] := params[keys[0]]]);
      assert keys == [keys[0]] + keys[1..];
    }
  }

  lemma {:induction false} ParsesParams(u: Unicode, keys: seq<string>, params: map<string, string>,
                                        rest: seq<Token>, acc: map<string, string>)
    requires ParamsPrintable(u, keys, params) && Closing(rest)
    ensures ParseParams(ParamTokens(u, keys, params) + rest, acc) == Parsed(Gather(keys, params, acc), rest, [])
  {
    hide IsName, IsExpr, TokensOf;
    if keys == [] {
      assert ParamTokens(u, keys, params) + rest == rest;
    } else {
      hide *;
      FirstParam(u, keys, params, rest, acc);
      TailPrintable(u, keys, params);
      var next := acc[keys[0] := params[keys[0]]];
      ParsesParams(u, keys[1..], params, rest, next);
      assert Gather(keys, params, acc) == Gather(keys[1..], params, next) by { GatherStep(keys, params, acc); }
    }
  }

  lemma GatherStep(keys: seq<string>, params: map<string, string>, acc: map<string, string>)
    requires keys != [] && forall i :: 0 <= i < |keys| ==> keys[i] in params
    ensures Gather(keys, params, acc) == Gather(keys[1..], params, acc[keys[0] := params[keys[0]]])
  {
  }

  lemma TailPrintable(u: Unicode, keys: seq<string>, params: map<string, string>)
    requires keys != [] && ParamsPrintable(u, keys, params)
    ensures ParamsPrintable(u, keys[1..], params) && keys[0] in params
  {
  }

  lemma FirstParam(u: Unicode, keys: seq<string>, params: map<string, string>, rest: seq<Token>,
                   acc: map<string, string>)
    requires keys != [] && ParamsPrintable(u, keys, params) && Closing(rest)
    ensures ParseParams(ParamTokens(u, keys, params) + rest, acc) ==
            ParseParams(ParamTokens(u, keys[1..], params) + rest, acc[keys[0] := params[keys[0]]])
  {
    hide IsName, IsExpr, TokensOf, CollectUntil, ExpectName, ExpectToken, ParseParams, ParamTokens, SkipNewlines;
    var k, v := keys[0], params[keys[0]];
    var colon, comma := Token(Colon, ":"), Token(Comma, ",");
    var more := ParamTokens(u, keys[1..], params) + rest;
    var after := if |keys| > 1 then [comma] + more else rest;
    var value := TokensOf(u, v) + after;
    var ts := ParamTokens(u, keys, params) + rest;
    ParamsShape(u, keys, params, rest);
    ReadsName(u, k, [colon] + value);
    Past(colon, value);
    ReadsExpr(u, v, after, {Comma, RBrace, Newline});
    assert ts[0] == TokensOf(u, k)[0];
    ParamStep(ts, acc, k, [colon] + value, v, value, after);
    NextParam(u, keys, params, rest);
  }

  lemma NextParam(u: Unicode, keys: seq<string>, params: map<string, string>, rest: seq<Token>)
    requires keys != [] && ParamsPrintable(u, keys, params) && Closing(rest)
    ensures var more := ParamTokens(u, keys[1..], params) + rest;
            var after := if |keys| > 1 then [Token(Comma, ",")] + more else rest;
            SkipNewlines(if At(after, Comma) then after[1..] else after) == more
  {
    hide IsName, IsExpr, TokensOf, SkipNewlines, ParamTokens;
    var more := ParamTokens(u, keys[1..], params) + rest;
    if |keys| > 1 {
      Past(Token(Comma, ","), more);
      TailPrintable(u, keys, params);
      ParamsHead(u, keys[1..], params, rest);
    } else {
      NoParam(u, params);
      assert more == rest;
      Past(rest[0], rest[1..]);
      assert rest == [rest[0]] + rest[1..];
    }
  }

  lemma NoParam(u: Unicode, params: map<string, string>)
    ensures ParamTokens(u, [], params) == []
  {
  }

  lemma ParamsShape(u: Unicode, keys: seq<string>, params: map<string, string>, rest: seq<Token>)
    requires keys != [] && forall k :: k in keys ==> k in params
    ensures ParamTokens(u, keys, params) + rest ==
            TokensOf(u, keys[0]) + ([Token(Colon, ":")] + (TokensOf(u, params[keys[0]]) +
            (if |keys| > 1 then [Token(Comma, ",")] + (ParamTokens(u, keys[1..], params) + rest) else rest)))
  {
    hide TokensOf;
    assert keys[0] in keys;
  }

  lemma ParamsHead(u: Unicode, keys: seq<string>, params: map<string, string>, rest: seq<Token>)
    requires keys != [] && ParamsPrintable(u, keys, params)
    ensures SkipNewlines(ParamTokens(u, keys, params) + rest) == ParamTokens(u, keys, params) + rest
  {
    hide TokensOf, ExpectName;
    ReadsName(u, keys[0], []);
    ParamsShape(u, keys, params, rest);
  }

  lemma PlainUseStep(ts: seq<Token>, name: string, r: seq<Token>)
    requires |ts| >= 2 && ts[0].kind == KwUse && ts[1].kind == KwSkill
    requires ExpectName(ts[2..]) == Parsed(name, r, []) && !At(r, KwWith)
    ensures ParseUseSkill(ts) == Parsed(UseSkill(name, map[]), r, [])
  {
    hide ExpectName, ExpectToken, ParseParams, SkipNewlines;
    assert ts[1..][0] == ts[1];
  }

  lemma UseStep(ts: seq<Token>, name: string, r: seq<Token>, r1: seq<Token>, params: map<string, string>,
                r2: seq<Token>, r3: seq<Token>)
    requires |ts| >= 2 && ts[0].kind == KwUse && ts[1].kind == KwSkill
    requires ExpectName(ts[2..]) == Parsed(name, r, []) && At(r, KwWith)
    requires ExpectToken(r[1..], LBrace) == Parsed((), r1, [])
    requires ParseParams(SkipNewlines(r1), map[]) == Parsed(params, r2, [])
    requires ExpectToken(r2, RBrace) == Parsed((), r3, [])
    ensures ParseUseSkill(ts) == Parsed(UseSkill(name, params), r3, [])
  {
    hide ExpectName, ExpectToken, ParseParams, SkipNewlines;
    assert ts[1..][0] == ts[1];
  }

  lemma UseShape(u: Unicode, s: Stmt, rest: seq<Token>)
    requires s.UseSkill?
    ensures StmtTokens(u, s) + rest ==
            [Key("use"), Key("skill")] + (TokensOf(u, s.skill) + (
              if s.params == map[] then [NL] + rest
              else [Key("with")] + ([OPEN] + (ParamTokens(u, Strings.Listing(s.params.Keys), s.params) +
                                              ([CLOSE] + ([NL] + rest))))))
  {
    hide TokensOf, ParamTokens, LookupKeyword, Strings.Listing;
  }

  lemma ParsesPlainUse(u: Unicode, s: Stmt, rest: seq<Token>)
    requires s.UseSkill? && IsName(u, s.skill) && s.params == map[]
    ensures var ts := StmtTokens(u, s) + rest; At(ts, KwUse) && ParseUseSkill(ts) == Parsed(s, [NL] + rest, [])
  {
    hide IsName, TokensOf, ParamTokens, StmtTokens, ExpectName, LookupKeyword, ParseUseSkill;
    UseKeywords();
    var ts := StmtTokens(u, s) + rest;
    UseShape(u, s, rest);
    assert ts[1] == Key("skill") && ts[2..] == TokensOf(u, s.skill) + ([NL] + rest);
    ReadsName(u, s.skill, [NL] + rest);
    PlainUseStep(ts, s.skill, [NL] + rest);
  }

  lemma ParsesUseWith(u: Unicode, s: Stmt, rest: seq<Token>)
    requires s.UseSkill? && Printable(u, s) && s.params != map[]
    ensures var ts := StmtTokens(u, s) + rest; At(ts, KwUse) && ParseUseSkill(ts) == Parsed(s, [NL] + rest, [])
  {
    hide IsName, IsExpr, TokensOf, ParamTokens, StmtTokens, ParseParams, ParseUseSkill, ExpectName, ExpectToken,
         LookupKeyword, Strings.Listing, SkipNewlines, Gather;
    UseKeywords();
    var ts, keys := StmtTokens(u, s) + rest, Strings.Listing(s.params.Keys);
    var tail := [CLOSE] + ([NL] + rest);
    var inner := ParamTokens(u, keys, s.params) + tail;
    var clause := [Key("with")] + ([OPEN] + inner);
    UseShape(u, s, rest);
    assert ts[1] == Key("skill") && ts[2..] == TokensOf(u, s.skill) + clause;
    ReadsName(u, s.skill, clause);
    Past(Key("with"), [OPEN] + inner);
    Past(OPEN, inner);
    ListsAll(s.params);
    ParsesParams(u, keys, s.params, tail, map[]);
    ParamsHead(u, keys, s.params, tail);
    Past(CLOSE, [NL] + rest);
    UseStep(ts, s.skill, clause, inner, s.params, tail, [NL] + rest);
  }

  lemma ParsesUseSkill(u: Unicode, s: Stmt, rest: seq<Token>)
    requires s.UseSkill? && Printable(u, s)
    ensures var ts := StmtTokens(u, s) + rest; At(ts, KwUse) && ParseUseSkill(ts) == Parsed(s, [NL] + rest, [])
  {
    hide IsName, IsExpr, StmtTokens, ParseUseSkill;
    if s.params == map[] {
      ParsesPlainUse(u, s, rest);
    } else {
      ParsesUseWith(u, s, rest);
    }
  }

  lemma ListsAll(params: map<string, string>)
    requires params != map[]
    ensures Strings.Listing(params.Keys) != []
    ensures Gather(Strings.Listing(params.Keys), params, map[]) == params
  {
    hide Gather;
    var k :| k in params;
    assert k in Strings.Listing(params.Keys);
    GathersAll(Strings.Listing(params.Keys), params, map[]);
  }

  lemma ParsesDelegate(u: Unicode, agent: string, rest: seq<Token>)
    requires IsName(u, agent)
    ensures var ts := StmtTokens(u, Delegate(agent)) + rest;
            At(ts, KwDelegate) && ParseDelegateTo(ts) == Parsed(Delegate(agent), [NL] + rest, [])
  {
    hide IsName, TokensOf, ExpectName, LookupKeyword;
    CallKeywords();
    var ts := StmtTokens(u, Delegate(agent)) + rest;
    var r := TokensOf(u, agent) + ([NL] + rest);
    assert ts == [Key("delegate"), Key("to")] + r;
    assert ts[1..][0] == Key("to") && ts[2..] == r;
    ReadsName(u, agent, [NL] + rest);
  }

  lemma ParsesRespond(u: Unicode, e: string, rest: seq<Token>)
    ensures var ts := StmtTokens(u, Respond(e)) + rest;
            At(ts, KwRespond) && ParseRespond(ts) == Parsed(Respond(e), [NL] + rest, [])
  {
    hide LookupKeyword;
    CallKeywords();
    var ts := StmtTokens(u, Respond(e)) + rest;
    assert ts == [Key("respond"), Token(String, e)] + ([NL] + rest);
    assert ts[1..][0] == Token(String, e) && ts[2..] == [NL] + rest;
  }

  ghost predicate StartsStmt(ts: seq<Token>) {
    ts != [] && ts[0].kind in {KwUse, KwDelegate, KwRespond, KwIf, KwFor, RBrace}
  }

  lemma StmtHead(u: Unicode, s: Stmt)
    ensures StmtTokens(u, s) != [] && StmtTokens(u, s)[0].kind in {KwUse, KwDelegate, KwRespond, KwIf, KwFor}
  {
    hide LookupKeyword, TokensOf, ParamTokens, BodyTokens, ElseIfTokens, ElseTokens;
    UseKeywords();
    CallKeywords();
    IfKeywords();
    ForKeywords();
  }

  lemma StmtsHead(u: Unicode, stmts: seq<Stmt>, rest: seq<Token>)
    requires Closing(rest)
    ensures StartsStmt(StmtsTokens(u, stmts) + rest)
  {
    hide StmtTokens;
    if stmts == [] {
      assert StmtsTokens(u, stmts) + rest == rest;
    } else {
      StmtHead(u, stmts[0]);
    }
  }

  /** What parsing the tokens of a statement leaves, up to newlines. */
  ghost predicate ReadsStmt(u: Unicode, s: Stmt, rest: seq<Token>) {
    var one := ParseStmt(StmtTokens(u, s) + rest);
    one.value == Some(Norm(s)) && one.errors == [] && SkipNewlines(one.rest) == rest
  }

  lemma Reads(u: Unicode, s: Stmt, rest: seq<Token>, one: Parsed<Stmt>)
    requires ParseStmt(StmtTokens(u, s) + rest) == Wrap(one)
    requires one == Parsed(Norm(s), [NL] + rest, []) || one == Parsed(Norm(s), rest, [])
    requires StartsStmt(rest)
    ensures ReadsStmt(u, s, rest)
  {
    hide ParseStmt, StmtTokens;
    Past(NL, rest);
  }

  lemma StmtsStep(ts: seq<Token>, s: Stmt, r: seq<Token>, stmts: seq<Stmt>, rest: seq<Token>)
    requires ts != [] && ts[0].kind !in {RBrace, Newline}
    requires var one := ParseStmt(ts); one.value == Some(s) && one.errors == [] && SkipNewlines(one.rest) == r
    requires ParseStmts(r) == Parsed(stmts, rest, [])
    ensures ParseStmts(ts) == Parsed([s] + stmts, rest, [])
  {
    hide ParseStmt;
    assert SkipNewlines(ts) == ts;
  }

  lemma {:induction false} ParsesStmts(u: Unicode, stmts: seq<Stmt>, rest: seq<Token>)
    requires AllPrintable(u, stmts) && Closing(rest)
    ensures ParseStmts(StmtsTokens(u, stmts) + rest) == Parsed(NormAll(stmts), rest, [])
    decreases stmts, 1
  {
    hide Printable, StmtTokens, ParseStmt, Norm, SkipNewlines;
    if stmts == [] {
      assert StmtsTokens(u, stmts) + rest == rest;
    } else {
      hide ParseStmts;
      var more := StmtsTokens(u, stmts[1..]) + rest;
      var ts := StmtTokens(u, stmts[0]) + more;
      assert StmtsTokens(u, stmts) + rest == ts;
      StmtsHead(u, stmts[1..], rest);
      StmtHead(u, stmts[0]);
      assert ts[0] == StmtTokens(u, stmts[0])[0];
      assert Printable(u, stmts[0]);
      ParsesStmt(u, stmts[0], more);
      ParsesStmts(u, stmts[1..], rest);
      StmtsStep(ts, Norm(stmts[0]), more, NormAll(stmts[1..]), rest);
    }
  }

  lemma BodyStep(ts: seq<Token>, r1: seq<Token>, stmts: seq<Stmt>, r2: seq<Token>, r3: seq<Token>)
    requires ExpectToken(ts, LBrace) == Parsed((), r1, [])
    requires ParseStmts(SkipNewlines(r1)) == Parsed(stmts, r2, [])
    requires ExpectToken(r2, RBrace) == Parsed((), r3, [])
    ensures ParseBody(ts) == Parsed(stmts, r3, [])
  {
    hide ExpectToken, SkipNewlines, ParseStmts;
  }

  lemma {:induction false} ParsesBody(u: Unicode, stmts: seq<Stmt>, rest: seq<Token>)
    requires AllPrintable(u, stmts)
    ensures ParseBody(BodyTokens(u, stmts) + rest) == Parsed(NormAll(stmts), rest, [])
    decreases stmts, 2
  {
    hide AllPrintable, ParseStmts, StmtsTokens, NormAll, ExpectToken, ParseBody;
    var tail := [CLOSE] + rest;
    var inner := StmtsTokens(u, stmts) + tail;
    assert BodyTokens(u, stmts) + rest == [OPEN] + ([NL] + inner);
    Past(OPEN, [NL] + inner);
    Past(NL, inner);
    StmtsHead(u, stmts, tail);
    assert SkipNewlines(inner) == inner;
    ParsesStmts(u, stmts, tail);
    Past(CLOSE, rest);
    BodyStep([OPEN] + ([NL] + inner), [NL] + inner, NormAll(stmts), tail, rest);
  }

  ghost predicate ReadsElses(u: Unicode, elseIfs: seq<ElseIf>, e: Else, rest: seq<Token>) {
    var p := ParseElses(SkipNewlines(ElseIfTokens(u, elseIfs) + ElseTokens(u, e) + ([NL] + rest)));
    p.value == (NormElseIfs(elseIfs), NormElse(e)) && p.errors == [] && (p.rest == rest || p.rest == [NL] + rest)
  }

  lemma ElseStep(ts: seq<Token>, stmts: seq<Stmt>, r: seq<Token>)
    requires |ts| >= 2 && ts[0].kind == KwElse && ts[1].kind != KwIf && ParseBody(ts[1..]) == Parsed(stmts, r, [])
    ensures SkipNewlines(ts) == ts
    ensures ParseElses(ts) == Parsed(([], if stmts == [] then NoElse else Else(stmts)), r, [])
  {
    hide ParseBody;
    assert ts[1..][0] == ts[1];
  }

  lemma NoElseStep(u: Unicode, rest: seq<Token>)
    requires StartsStmt(rest)
    ensures ReadsElses(u, [], NoElse, rest)
  {
    hide LookupKeyword, ParseElses, SkipNewlines;
    assert ElseIfTokens(u, []) == [] && ElseTokens(u, NoElse) == [];
    assert [] + [] + ([NL] + rest) == [NL] + rest;
    Past(NL, rest);
    NotElse(rest);
  }

  lemma NotElse(rest: seq<Token>)
    requires StartsStmt(rest)
    ensures SkipNewlines(rest) == rest && ParseElses(rest) == Parsed(([], NoElse), rest, [])
  {
    hide ParseBody, CollectUntil;
  }

  lemma {:induction false} ParsesElse(u: Unicode, e: Else, rest: seq<Token>)
    requires StartsStmt(rest) && (e.Else? ==> AllPrintable(u, e.body))
    ensures ReadsElses(u, [], e, rest)
    decreases e, 0
  {
    hide AllPrintable, ParseBody, BodyTokens, NormAll, LookupKeyword, ParseElses, SkipNewlines;
    match e
    case NoElse => NoElseStep(u, rest);
    case Else(b) =>
      IfKeywords();
      var r := BodyTokens(u, b) + ([NL] + rest);
      var ts := [Key("else")] + r;
      assert ElseIfTokens(u, []) + ElseTokens(u, e) + ([NL] + rest) == ts;
      assert ts[1..] == r;
      BodyHead(u, b);
      assert ts[1] == OPEN;
      ParsesBody(u, b, [NL] + rest);
      ElseStep(ts, NormAll(b), [NL] + rest);
  }

  lemma BodyHead(u: Unicode, stmts: seq<Stmt>)
    ensures BodyTokens(u, stmts) != [] && BodyTokens(u, stmts)[0] == OPEN
  {
  }

  lemma {:induction false} ParsesElses(u: Unicode, elseIfs: seq<ElseIf>, e: Else, rest: seq<Token>)
    requires forall i :: 0 <= i < |elseIfs| ==> PrintableElseIf(u, elseIfs[i])
    requires ReadsElses(u, [], e, rest)
    ensures ReadsElses(u, elseIfs, e, rest)
    decreases elseIfs, 1
  {
    hide IsExpr, Printable, ParseElses, ParseBody, BodyTokens, NormAll, LookupKeyword, TokensOf, ElseTokens,
         CollectUntil;
    if elseIfs != [] {
      var f, more := elseIfs[0], ElseIfTokens(u, elseIfs[1..]) + ElseTokens(u, e) + ([NL] + rest);
      assert PrintableElseIf(u, f);
      ParsesElses(u, elseIfs[1..], e, rest);
      var body := BodyTokens(u, f.body) + more;
      var ts := ElseIfTokens(u, elseIfs) + ElseTokens(u, e) + ([NL] + rest);
      ElseIfHead(u, elseIfs, ElseTokens(u, e), [NL] + rest);
      PastTwo(Key("else"), Key("if"), TokensOf(u, f.condition) + body);
      hide ElseIfTokens, SkipNewlines;
      BodyHead(u, f.body);
      ReadsExpr(u, f.condition, body, {LBrace});
      ParsesBody(u, f.body, more);
      IfKeywords();
      ElseIfStep(ts, f.condition, body, NormAll(f.body), more);
    }
  }

  lemma PastTwo(a: Token, b: Token, rest: seq<Token>)
    ensures var ts := [a, b] + rest; ts[0] == a && ts[1] == b && ts[2..] == rest
  {
  }

  lemma Assoc(a: seq<Token>, b: seq<Token>, c: seq<Token>)
    ensures a + b + c == a + (b + c)
  {
  }

  lemma ElseIfCons(u: Unicode, elseIfs: seq<ElseIf>)
    requires elseIfs != []
    ensures ElseIfTokens(u, elseIfs) ==
            [Key("else"), Key("if")] + TokensOf(u, elseIfs[0].condition) + BodyTokens(u, elseIfs[0].body) +
            ElseIfTokens(u, elseIfs[1..])
  {
    hide TokensOf, BodyTokens;
  }

  lemma ElseIfHead(u: Unicode, elseIfs: seq<ElseIf>, a: seq<Token>, b: seq<Token>)
    requires elseIfs != []
    ensures ElseIfTokens(u, elseIfs) + a + b ==
            var more := ElseIfTokens(u, elseIfs[1..]) + a + b;
            [Key("else"), Key("if")] + (TokensOf(u, elseIfs[0].condition) + (BodyTokens(u, elseIfs[0].body) + more))
  {
    hide TokensOf, BodyTokens, ElseIfTokens;
    ElseIfCons(u, elseIfs);
    var head, cond := [Key("else"), Key("if")], TokensOf(u, elseIfs[0].condition);
    var body, rest := BodyTokens(u, elseIfs[0].body), ElseIfTokens(u, elseIfs[1..]);
    Assoc(head + cond + body, rest, a);
    Assoc(head + cond + body, rest + a, b);
    Assoc(head + cond, body, rest + a + b);
    Assoc(head, cond, body + (rest + a + b));
  }

  lemma ElseIfStep(ts: seq<Token>, c: string, r1: seq<Token>, stmts: seq<Stmt>, r2: seq<Token>)
    requires |ts| >= 2 && ts[0].kind == KwElse && ts[1].kind == KwIf
    requires CollectUntil(ts[2..], {LBrace}) == Parsed(c, r1, []) && ParseBody(r1) == Parsed(stmts, r2, [])
    ensures SkipNewlines(ts) == ts
    ensures var more := ParseElses(SkipNewlines(r2));
            ParseElses(ts) == Parsed(([ElseIf(c, stmts)] + more.value.0, more.value.1), more.rest, more.errors)
  {
    hide CollectUntil, ParseBody;
    assert ts[1..][0] == ts[1];
  }

  lemma IfStep(ts: seq<Token>, c: string, r1: seq<Token>, stmts: seq<Stmt>, r2: seq<Token>)
    requires ts != [] && ts[0].kind == KwIf
    requires CollectUntil(ts[1..], {LBrace}) == Parsed(c, r1, []) && ParseBody(r1) == Parsed(stmts, r2, [])
    ensures var more := ParseElses(SkipNewlines(r2));
            ParseStmt(ts) == Wrap(Parsed(If(c, stmts, more.value.0, more.value.1), more.rest, more.errors))
  {
    hide CollectUntil, ParseBody, ParseElses;
  }

  lemma ForStep(ts: seq<Token>, x: string, r0: seq<Token>, c: string, r1: seq<Token>, stmts: seq<Stmt>, r2: seq<Token>)
    requires |ts| >= 2 && ts[0].kind == KwFor && ts[1].kind == KwEach
    requires ExpectName(ts[2..]) == Parsed(x, r0, []) && At(r0, KwIn)
    requires CollectUntil(r0[1..], {LBrace}) == Parsed(c, r1, []) && ParseBody(r1) == Parsed(stmts, r2, [])
    ensures ParseStmt(ts) == Wrap(Parsed(ForEach(x, c, stmts), r2, []))
  {
    hide CollectUntil, ParseBody, ExpectName;
    assert ts[1..][0] == ts[1];
  }

  lemma IfShape(u: Unicode, s: Stmt, rest: seq<Token>)
    requires s.If?
    ensures StmtTokens(u, s) + rest == [Key("if")] + (TokensOf(u, s.condition) + (BodyTokens(u, s.body) +
            (ElseIfTokens(u, s.elseIfs) + ElseTokens(u, s.elseBody) + ([NL] + rest))))
  {
    hide LookupKeyword, TokensOf, BodyTokens, ElseIfTokens, ElseTokens;
  }

  lemma {:induction false} ParsesIf(u: Unicode, s: Stmt, rest: seq<Token>)
    requires s.If? && Printable(u, s) && StartsStmt(rest)
    ensures ReadsStmt(u, s, rest)
    decreases s, 0
  {
    hide IsExpr, ParseElses, ParseBody, ParseStmt, BodyTokens, NormAll, NormElseIfs, NormElse, LookupKeyword, TokensOf,
         StmtTokens, ElseTokens, ElseIfTokens, CollectUntil;
    var elses := ElseIfTokens(u, s.elseIfs) + ElseTokens(u, s.elseBody) + ([NL] + rest);
    var body := BodyTokens(u, s.body) + elses;
    IfShape(u, s, rest);
    IfKeywords();
    Past(Key("if"), TokensOf(u, s.condition) + body);
    BodyHead(u, s.body);
    ReadsExpr(u, s.condition, body, {LBrace});
    ParsesBody(u, s.body, elses);
    ParsesElse(u, s.elseBody, rest);
    ParsesElses(u, s.elseIfs, s.elseBody, rest);
    IfStep(StmtTokens(u, s) + rest, s.condition, body, NormAll(s.body), elses);
    Reads(u, s, rest, Parsed(Norm(s), ParseElses(SkipNewlines(elses)).rest, []));
  }

  lemma ForShape(u: Unicode, s: Stmt, rest: seq<Token>)
    requires s.ForEach?
    ensures StmtTokens(u, s) + rest == [Key("for"), Key("each")] + (TokensOf(u, s.variable) + ([Key("in")] +
            (TokensOf(u, s.collection) + (BodyTokens(u, s.body) + ([NL] + rest)))))
  {
    hide LookupKeyword, TokensOf, BodyTokens;
  }

  lemma {:induction false} ParsesForEach(u: Unicode, s: Stmt, rest: seq<Token>)
    requires s.ForEach? && Printable(u, s) && StartsStmt(rest)
    ensures ReadsStmt(u, s, rest)
    decreases s, 0
  {
    hide IsName, IsExpr, ParseStmt, ParseBody, StmtTokens, BodyTokens, NormAll, LookupKeyword, TokensOf, CollectUntil,
         ExpectName;
    var body := BodyTokens(u, s.body) + ([NL] + rest);
    var coll := TokensOf(u, s.collection) + body;
    var name := TokensOf(u, s.variable) + ([Key("in")] + coll);
    var ts := StmtTokens(u, s) + rest;
    ForShape(u, s, rest);
    ForKeywords();
    assert ts[1] == Key("each") && ts[2..] == name;
    ReadsName(u, s.variable, [Key("in")] + coll);
    Past(Key("in"), coll);
    BodyHead(u, s.body);
    ReadsExpr(u, s.collection, body, {LBrace});
    ParsesBody(u, s.body, [NL] + rest);
    ForStep(ts, s.variable, [Key("in")] + coll, s.collection, body, NormAll(s.body), [NL] + rest);
    Reads(u, s, rest, Parsed(Norm(s), [NL] + rest, []));
  }

  lemma {:induction false} ParsesStmt(u: Unicode, s: Stmt, rest: seq<Token>)
    requires Printable(u, s) && StartsStmt(rest)
    ensures ReadsStmt(u, s, rest)
    decreases s, 1
  {
    hide StmtTokens, ReadsStmt, IsName, IsExpr, IsPlainText, ParseUseSkill, ParseDelegateTo, ParseRespond, ParseIf,
         ParseForEach;
    match s
    case UseSkill(_, _) =>
      ParsesUseSkill(u, s, rest);
      Reads(u, s, rest, Parsed(s, [NL] + rest, []));
    case Delegate(agent) =>
      ParsesDelegate(u, agent, rest);
      Reads(u, s, rest, Parsed(s, [NL] + rest, []));
    case Respond(e) =>
      ParsesRespond(u, e, rest);
      Reads(u, s, rest, Parsed(s, [NL] + rest, []));
    case If(_, _, _, _) => ParsesIf(u, s, rest);
    case ForEach(_, _, _) => ParsesForEach(u, s, rest);
  }

  // ---- The round trip ----

  /** Lexing and parsing the formatted block reports no error and gives the block back, an empty else as none. */
  lemma PrintThenParse(u: Unicode, stmts: seq<Stmt>, indent: string)
    requires Sane(u) && Blanks(indent) && AllPrintable(u, stmts)
    ensures var ts := Lex(u, FormatBlock(u, stmts, indent));
            && ts.Some? && At(ts.value, KwOn)
            && ParseOnInputBlock(ts.value[1..]) == Parsed(NormAll(stmts), [NL], [])
    ensures NormAll(stmts) == stmts <==> NoEmptyElses(stmts)
  {
    hide Lex, FormatBlock, BodyTokens, ParseBody, NormAll, LookupKeyword, AllPrintable, NoEmptyElses;
    BlockTokens(u, stmts, indent);
    BlockKeywords();
    var body := BodyTokens(u, stmts) + [NL];
    var ts := Lex(u, FormatBlock(u, stmts, indent)).value;
    assert ts[1..] == [Key("input")] + body;
    Past(Key("input"), body);
    ParsesBody(u, stmts, [NL]);
    NormAllFixed(stmts);
  }
}
