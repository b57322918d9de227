/** The tokens of a formatted `on input` block. */
module PrintedTokens {
  import opened Wrappers
  import opened OnInput
  import opened Lexer
  import opened Parser
  import opened Formatter
  import Strings

  /** Lexing a before anything gives ts before the tokens of the rest. */
  ghost predicate Yields(u: Unicode, a: string, ts: seq<Token>) {
    forall x {:trigger Lex(u, a + x)} :: Lex(u, x).Some? ==> Lex(u, a + x) == Some(ts + Lex(u, x).value)
  }

  /** The same before anything that starts with a delimiter. */
  ghost predicate YieldsWord(u: Unicode, a: string, ts: seq<Token>) {
    forall x {:trigger Lex(u, a + x)} ::
      StartsDelimited(x) && Lex(u, x).Some? ==> Lex(u, a + x) == Some(ts + Lex(u, x).value)
  }

  lemma Then(u: Unicode, a: string, ts: seq<Token>, b: string, us: seq<Token>)
    requires Yields(u, a, ts) && Yields(u, b, us)
    ensures Yields(u, a + b, ts + us)
  {
    hide Lex;
    forall x {:trigger Lex(u, (a + b) + x)} | Lex(u, x).Some?
      ensures Lex(u, (a + b) + x) == Some((ts + us) + Lex(u, x).value)
    {
      assert (a + b) + x == a + (b + x);
      assert Lex(u, b + x) == Some(us + Lex(u, x).value);
      assert ts + (us + Lex(u, x).value) == (ts + us) + Lex(u, x).value;
    }
  }

  lemma ThenWord(u: Unicode, a: string, ts: seq<Token>, b: string, us: seq<Token>)
    requires Yields(u, a, ts) && YieldsWord(u, b, us)
    ensures YieldsWord(u, a + b, ts + us)
  {
    hide Lex;
    forall x {:trigger Lex(u, (a + b) + x)} | StartsDelimited(x) && Lex(u, x).Some?
      ensures Lex(u, (a + b) + x) == Some((ts + us) + Lex(u, x).value)
    {
      assert (a + b) + x == a + (b + x);
      assert Lex(u, b + x) == Some(us + Lex(u, x).value);
      assert ts + (us + Lex(u, x).value) == (ts + us) + Lex(u, x).value;
    }
  }

  lemma WordThen(u: Unicode, a: string, ts: seq<Token>, b: string, us: seq<Token>)
    requires YieldsWord(u, a, ts) && Yields(u, b, us) && StartsDelimited(b)
    ensures Yields(u, a + b, ts + us)
  {
    hide Lex;
    forall x {:trigger Lex(u, (a + b) + x)} | Lex(u, x).Some?
      ensures Lex(u, (a + b) + x) == Some((ts + us) + Lex(u, x).value)
    {
      assert (a + b) + x == a + (b + x);
      assert Lex(u, b + x) == Some(us + Lex(u, x).value);
      assert (b + x)[0] == b[0];
      assert ts + (us + Lex(u, x).value) == (ts + us) + Lex(u, x).value;
    }
  }

  lemma Nothing(u: Unicode)
    ensures Yields(u, "", [])
  {
    hide Lex;
    forall x {:trigger Lex(u, "" + x)} | Lex(u, x).Some? ensures Lex(u, "" + x) == Some([] + Lex(u, x).value) {
      assert "" + x == x && [] + Lex(u, x).value == Lex(u, x).value;
    }
  }

  lemma Blank(u: Unicode, indent: string)
    requires forall i :: 0 <= i < |indent| ==> indent[i] == ' '
    ensures Yields(u, indent, [])
  {
    hide Lex;
    forall x {:trigger Lex(u, indent + x)} | Lex(u, x).Some? ensures Lex(u, indent + x) == Some([] + Lex(u, x).value) {
      LexIndent(u, indent, x);
      assert [] + Lex(u, x).value == Lex(u, x).value;
    }
  }

  lemma Mark(u: Unicode, c: char)
    requires Punctuation(c).Some?
    ensures Yields(u, [c], [Token(Punctuation(c).value, [c])])
  {
    hide Lex;
    forall x {:trigger Lex(u, [c] + x)} | Lex(u, x).Some?
      ensures Lex(u, [c] + x) == Some([Token(Punctuation(c).value, [c])] + Lex(u, x).value)
    {
      LexPunctuation(u, c, x);
    }
  }

  lemma Exact(u: Unicode, e: string)
    requires Sane(u) && LexExact(u, e).Some?
    ensures YieldsWord(u, e, LexExact(u, e).value)
  {
    hide Lex, LexExact;
    forall x {:trigger Lex(u, e + x)} | StartsDelimited(x) && Lex(u, x).Some?
      ensures Lex(u, e + x) == Some(LexExact(u, e).value + Lex(u, x).value)
    {
      LexWord(u, e, x);
    }
  }

  function Key(w: string): Token {
    Token(LookupKeyword(w), w)
  }

  /** A keyword and the blank after it. */
  lemma KeywordBlank(u: Unicode, w: string)
    requires Sane(u) && Word(w)
    ensures Yields(u, w + " ", [Key(w)])
  {
    hide Yields, YieldsWord, LexExact, LookupKeyword;
    WordExact(u, w);
    Exact(u, w);
    Blank(u, " ");
    WordThen(u, w, [Key(w)], " ", []);
    assert [Key(w)] + [] == [Key(w)];
  }

  lemma TwoKeywords(u: Unicode, v: string, w: string)
    requires Sane(u) && Word(v) && Word(w)
    ensures Yields(u, v + " " + w + " ", [Key(v), Key(w)])
  {
    hide Yields, LookupKeyword;
    KeywordBlank(u, v);
    KeywordBlank(u, w);
    Then(u, v + " ", [Key(v)], w + " ", [Key(w)]);
    assert v + " " + (w + " ") == v + " " + w + " ";
    assert [Key(v)] + [Key(w)] == [Key(v), Key(w)];
  }

  // ---- Which blocks the claim is about ----

  /** A name that is one token, not a quoted string. */
  ghost predicate IsName(u: Unicode, n: string) {
    var t := LexExact(u, n);
    t.Some? && |t.value| == 1 && t.value[0].literal == n && NameKind(t.value[0].kind)
  }

  /** Text that lexes completely, that its own tokens are put back together to, and that contains no token
      at which the parser would stop collecting. */
  ghost predicate IsExpr(u: Unicode, e: string, stops: set<Kind>) {
    var t := LexExact(u, e);
    t.Some? && Collect(t.value) == e && forall i :: 0 <= i < |t.value| ==> t.value[i].kind !in stops
  }

  /** Text that `%q` writes with no escapes but those the lexer knows. */
  ghost predicate IsPlainText(u: Unicode, s: string) {
    forall i :: 0 <= i < |s| ==> u.isPrint(s[i]) || s[i] == '\n' || s[i] == '\t'
  }

  ghost predicate Printable(u: Unicode, s: Stmt) {
    match s
    case UseSkill(skill, params) =>
      && IsName(u, skill)
      && (forall k :: k in params ==> IsName(u, k) && IsExpr(u, params[k], {Comma, RBrace, Newline}))
    case Delegate(agent) => IsName(u, agent)
    case Respond(e) => IsPlainText(u, e)
    case If(c, body, elseIfs, elseBody) =>
      && IsExpr(u, c, {LBrace})
      && (forall i :: 0 <= i < |body| ==> Printable(u, body[i]))
      && (forall i :: 0 <= i < |elseIfs| ==> PrintableElseIf(u, elseIfs[i]))
      && (match elseBody case NoElse => true case Else(b) => forall i :: 0 <= i < |b| ==> Printable(u, b[i]))
    case ForEach(x, c, body) =>
      && IsName(u, x) && IsExpr(u, c, {LBrace})
      && (forall i :: 0 <= i < |body| ==> Printable(u, body[i]))
  }

  ghost predicate PrintableElseIf(u: Unicode, e: ElseIf) {
    IsExpr(u, e.condition, {LBrace}) && forall i :: 0 <= i < |e.body| ==> Printable(u, e.body[i])
  }

  // ---- Quoted text ----

  /** What the lexer reads where `%q` wrote c: unknown escapes come back with their backslash. */
  function ReadBack(u: Unicode, c: char): string {
    if c == '"' || c == '\\' || u.isPrint(c) || c == '\n' || c == '\t' then [c] else QuoteChar(u, c)
  }

  function ReadBackAll(u: Unicode, s: string): string {
    if s == "" then "" else ReadBack(u, s[0]) + ReadBackAll(u, s[1..])
  }

  /** A stretch without quotes and backslashes is read as it is. */
  lemma {:induction false} ScanPlain(a: string, y: string, text: string)
    requires forall i :: 0 <= i < |a| ==> a[i] != '"' && a[i] != '\\'
    ensures ScanString(a + y, text) == ScanString(y, text + a)
  {
    if a == "" {
      assert a + y == y && text + a == text;
    } else {
      assert (a + y)[1..] == a[1..] + y;
      ScanPlain(a[1..], y, text + [a[0]]);
      assert text + [a[0]] + a[1..] == text + a;
    }
  }

  lemma {:induction false} HexPlain(n: nat, digits: nat)
    ensures |Hex(n, digits)| == digits
    ensures forall i :: 0 <= i < digits ==> Hex(n, digits)[i] != '"' && Hex(n, digits)[i] != '\\'
  {
    if digits > 0 {
      HexPlain(n / 16, digits - 1);
    }
  }

  lemma ScanEscape(e: char, a: string, y: string, text: string)
    requires e !in {'n', 't', '\\', '"'}
    requires forall i :: 0 <= i < |a| ==> a[i] != '"' && a[i] != '\\'
    ensures ScanString("\\" + [e] + a + y, text) == ScanString(y, text + ("\\" + [e] + a))
  {
    var s := "\\" + [e] + a + y;
    assert s[0] == '\\' && s[1] == e && s[2..] == a + y;
    ScanPlain(a, y, text + ['\\', e]);
    assert text + ['\\', e] + a == text + ("\\" + [e] + a);
  }

  lemma ScanQuoted(u: Unicode, c: char, y: string, text: string)
    requires Sane(u)
    ensures ScanString(QuoteChar(u, c) + y, text) == ScanString(y, text + ReadBack(u, c))
  {
    var n := c as int;
    var q := QuoteChar(u, c) + y;
    if c == '"' || c == '\\' || c == '\n' || c == '\t' {
      assert q[0] == '\\' && q[2..] == y;
    } else if u.isPrint(c) {
      assert q[0] == c && q[1..] == y;
    } else if n in {7, 8, 11, 12} || c == '\r' {
      var e := QuoteChar(u, c)[1];
      ScanEscape(e, "", y, text);
      assert "\\" + [e] + "" == QuoteChar(u, c);
    } else {
      var e, digits := QuoteChar(u, c)[1], if n < 32 || n == 127 then 2 else if n < 0x10000 then 4 else 8;
      HexPlain(n, digits);
      ScanEscape(e, Hex(n, digits), y, text);
      assert "\\" + [e] + Hex(n, digits) == QuoteChar(u, c);
    }
  }

  lemma {:induction false} ScanQuotedAll(u: Unicode, s: string, y: string, text: string)
    requires Sane(u)
    ensures ScanString(QuoteBody(u, s) + y, text) == ScanString(y, text + ReadBackAll(u, s))
  {
    hide QuoteChar, ReadBack, ScanString, Sane;
    if s == "" {
      assert QuoteBody(u, s) + y == y && text + ReadBackAll(u, s) == text;
    } else {
      var rest := QuoteBody(u, s[1..]) + y;
      assert QuoteBody(u, s) + y == QuoteChar(u, s[0]) + rest;
      ScanQuoted(u, s[0], rest, text);
      ScanQuotedAll(u, s[1..], y, text + ReadBack(u, s[0]));
      assert text + ReadBack(u, s[0]) + ReadBackAll(u, s[1..]) == text + ReadBackAll(u, s);
    }
  }

  lemma ReadBackLength(u: Unicode, c: char)
    requires Sane(u)
    ensures |ReadBack(u, c)| >= 1
    ensures |ReadBack(u, c)| == 1 <==> u.isPrint(c) || c == '\n' || c == '\t'
    ensures |ReadBack(u, c)| == 1 ==> ReadBack(u, c) == [c]
  {
    var n := c as int;
    HexPlain(n, 2);
    HexPlain(n, 4);
    HexPlain(n, 8);
  }

  /** Respond text survives `%q` and the lexer exactly when it needs no escapes the lexer does not know. */
  lemma {:induction false} ReadBackExactly(u: Unicode, s: string)
    requires Sane(u)
    ensures |ReadBackAll(u, s)| >= |s|
    ensures ReadBackAll(u, s) == s <==> IsPlainText(u, s)
    ensures |ReadBackAll(u, s)| == |s| <==> IsPlainText(u, s)
  {
    hide ReadBack, Sane;
    if s != "" {
      ReadBackExactly(u, s[1..]);
      ReadBackLength(u, s[0]);
      assert s == [s[0]] + s[1..];
      assert IsPlainText(u, s) <==> (u.isPrint(s[0]) || s[0] == '\n' || s[0] == '\t') && IsPlainText(u, s[1..]) by {
        assert forall i :: 0 <= i < |s[1..]| ==> s[1..][i] == s[i + 1];
      }
    }
  }

  /** A quoted text is one string token with the text read back. */
  lemma QuotePiece(u: Unicode, s: string)
    requires Sane(u)
    ensures Yields(u, Quote(u, s), [Token(String, ReadBackAll(u, s))])
  {
    var t := Token(String, ReadBackAll(u, s));
    forall x {:trigger Lex(u, Quote(u, s) + x)} | Lex(u, x).Some?
      ensures Lex(u, Quote(u, s) + x) == Some([t] + Lex(u, x).value)
    {
      LexQuoted(u, s, x);
    }
  }

  lemma LexQuoted(u: Unicode, s: string, x: string)
    requires Sane(u) && Lex(u, x).Some?
    ensures Lex(u, Quote(u, s) + x) == Some([Token(String, ReadBackAll(u, s))] + Lex(u, x).value)
  {
    hide QuoteBody, ReadBackAll, Sane;
    var y := "\"" + x;
    var all := Quote(u, s) + x;
    assert all[0] == '"' && all[1..] == QuoteBody(u, s) + y;
    ScanQuotedAll(u, s, y, "");
    assert "" + ReadBackAll(u, s) == ReadBackAll(u, s);
    assert y[1..] == x;
    assert SkipBlank(all) == all;
    assert Next(u, all) == Tok(Token(String, ReadBackAll(u, s)), x);
  }

  // ---- The tokens of a block ----

  const NL := Token(Newline, "\n")
  const OPEN := Token(LBrace, "{")
  const CLOSE := Token(RBrace, "}")

  ghost function TokensOf(u: Unicode, e: string): seq<Token> {
    var t := LexExact(u, e);
    if t.Some? then t.value else []
  }

  ghost function ParamTokens(u: Unicode, keys: seq<string>, params: map<string, string>): seq<Token>
    requires forall k :: k in keys ==> k in params
  {
    if keys == [] then [] else
      assert keys[0] in keys;
      TokensOf(u, keys[0]) + [Token(Colon, ":")] + TokensOf(u, params[keys[0]]) +
      (if |keys| > 1 then [Token(Comma, ",")] + ParamTokens(u, keys[1..], params) else [])
  }

  ghost function StmtTokens(u: Unicode, s: Stmt): seq<Token>
    decreases s, 0
  {
    match s
    case UseSkill(skill, params) =>
      [Key("use"), Key("skill")] + TokensOf(u, skill) +
      (if params != map[] then
         [Key("with"), OPEN] + ParamTokens(u, Strings.Listing(params.Keys), params) + [CLOSE] else []) + [NL]
    case Delegate(agent) => [Key("delegate"), Key("to")] + TokensOf(u, agent) + [NL]
    case Respond(e) => [Key("respond")] + [Token(String, e)] + [NL]
    case If(c, body, elseIfs, elseBody) =>
      [Key("if")] + TokensOf(u, c) + BodyTokens(u, body) + ElseIfTokens(u, elseIfs) + ElseTokens(u, elseBody) + [NL]
    case ForEach(x, c, body) =>
      [Key("for"), Key("each")] + TokensOf(u, x) + [Key("in")] + TokensOf(u, c) + BodyTokens(u, body) + [NL]
  }

  ghost function StmtsTokens(u: Unicode, stmts: seq<Stmt>): seq<Token>
    decreases stmts, 1
  {
    if stmts == [] then [] else StmtTokens(u, stmts[0]) + StmtsTokens(u, stmts[1..])
  }

  ghost function BodyTokens(u: Unicode, stmts: seq<Stmt>): seq<Token>
    decreases stmts, 2
  {
    [OPEN, NL] + StmtsTokens(u, stmts) + [CLOSE]
  }

  ghost function ElseIfTokens(u: Unicode, elseIfs: seq<ElseIf>): seq<Token>
    decreases elseIfs, 1
  {
    if elseIfs == [] then [] else
      [Key("else"), Key("if")] + TokensOf(u, elseIfs[0].condition) + BodyTokens(u, elseIfs[0].body) +
      ElseIfTokens(u, elseIfs[1..])
  }

  ghost function ElseTokens(u: Unicode, e: Else): seq<Token>
    decreases e, 1
  {
    match e
    case NoElse => []
    case Else(b) => [Key("else")] + BodyTokens(u, b)
  }

  ghost predicate Blanks(indent: string) {
    forall i :: 0 <= i < |indent| ==> indent[i] == ' '
  }

  /** An indented line that starts with one or two keywords. */
  lemma LineStart(u: Unicode, indent: string, w: string)
    requires Sane(u) && Blanks(indent) && Word(w)
    ensures Yields(u, indent + (w + " "), [Key(w)])
  {
    hide Yields, LookupKeyword;
    Blank(u, indent);
    KeywordBlank(u, w);
    Then(u, indent, [], w + " ", [Key(w)]);
    assert [] + [Key(w)] == [Key(w)];
  }

  lemma LineStart2(u: Unicode, indent: string, v: string, w: string)
    requires Sane(u) && Blanks(indent) && Word(v) && Word(w)
    ensures Yields(u, indent + (v + " " + w + " "), [Key(v), Key(w)])
  {
    hide Yields, LookupKeyword;
    Blank(u, indent);
    TwoKeywords(u, v, w);
    Then(u, indent, [], v + " " + w + " ", [Key(v), Key(w)]);
    assert [] + [Key(v), Key(w)] == [Key(v), Key(w)];
  }

  lemma LineEnd(u: Unicode)
    ensures Yields(u, "\n", [NL]) && StartsDelimited("\n")
  {
    Mark(u, '\n');
  }

  lemma IsWord(u: Unicode, e: string)
    requires Sane(u) && LexExact(u, e).Some?
    ensures YieldsWord(u, e, TokensOf(u, e))
  {
    Exact(u, e);
  }

  lemma DelegateLine(u: Unicode, agent: string, indent: string)
    requires Sane(u) && Blanks(indent) && IsName(u, agent)
    ensures Yields(u, FormatStmt(u, Delegate(agent), indent), StmtTokens(u, Delegate(agent)))
  {
    hide Yields, YieldsWord, LookupKeyword, LexExact;
    LineStart2(u, indent, "delegate", "to");
    assert "delegate" + " " + "to" + " " == "delegate to ";
    IsWord(u, agent);
    var head := indent + "delegate to ";
    ThenWord(u, head, [Key("delegate"), Key("to")], agent, TokensOf(u, agent));
    LineEnd(u);
    WordThen(u, head + agent, [Key("delegate"), Key("to")] + TokensOf(u, agent), "\n", [NL]);
  }

  lemma RespondLine(u: Unicode, e: string, indent: string)
    requires Sane(u) && Blanks(indent) && IsPlainText(u, e)
    ensures Yields(u, FormatStmt(u, Respond(e), indent), StmtTokens(u, Respond(e)))
  {
    hide Yields, LookupKeyword, Quote, ReadBackAll;
    LineStart(u, indent, "respond");
    assert "respond" + " " == "respond ";
    QuotePiece(u, e);
    ReadBackExactly(u, e);
    var head := indent + "respond ";
    Then(u, head, [Key("respond")], Quote(u, e), [Token(String, e)]);
    LineEnd(u);
    Then(u, head + Quote(u, e), [Key("respond")] + [Token(String, e)], "\n", [NL]);
  }

  lemma MarkBlank(u: Unicode, c: char)
    requires Punctuation(c).Some?
    ensures Yields(u, [c] + " ", [Token(Punctuation(c).value, [c])])
  {
    hide Yields;
    Mark(u, c);
    Blank(u, " ");
    var t := Token(Punctuation(c).value, [c]);
    Then(u, [c], [t], " ", []);
    assert [t] + [] == [t];
  }

  ghost predicate ParamsPrintable(u: Unicode, keys: seq<string>, params: map<string, string>) {
    forall i :: 0 <= i < |keys| ==>
      keys[i] in params && IsName(u, keys[i]) && IsExpr(u, params[keys[i]], {Comma, RBrace, Newline})
  }

  lemma ParamPair(u: Unicode, k: string, v: string)
    requires Sane(u) && IsName(u, k) && IsExpr(u, v, {Comma, RBrace, Newline})
    ensures YieldsWord(u, k + ": " + v, TokensOf(u, k) + [Token(Colon, ":")] + TokensOf(u, v))
  {
    hide Yields, YieldsWord, LexExact;
    IsWord(u, k);
    MarkBlank(u, ':');
    assert [':'] + " " == ": ";
    WordThen(u, k, TokensOf(u, k), ": ", [Token(Colon, ":")]);
    IsWord(u, v);
    ThenWord(u, k + ": ", TokensOf(u, k) + [Token(Colon, ":")], v, TokensOf(u, v));
  }

  lemma {:induction false} ParamsText(u: Unicode, keys: seq<string>, params: map<string, string>)
    requires Sane(u) && keys != [] && ParamsPrintable(u, keys, params)
    ensures YieldsWord(u, FormatParams(keys, params), ParamTokens(u, keys, params))
  {
    hide Yields, YieldsWord, IsName, IsExpr, TokensOf;
    var k, v := keys[0], params[keys[0]];
    var pair, toks := k + ": " + v, TokensOf(u, k) + [Token(Colon, ":")] + TokensOf(u, v);
    ParamPair(u, k, v);
    if |keys| == 1 {
      assert pair + "" == pair && toks + [] == toks;
    } else {
      ParamsText(u, keys[1..], params);
      var more, moreToks := FormatParams(keys[1..], params), ParamTokens(u, keys[1..], params);
      MarkBlank(u, ',');
      assert [','] + " " == ", ";
      WordThen(u, pair, toks, ", ", [Token(Comma, ",")]);
      ThenWord(u, pair + ", ", toks + [Token(Comma, ",")], more, moreToks);
      assert pair + ", " + more == pair + (", " + more);
      assert toks + [Token(Comma, ",")] + moreToks == toks + ([Token(Comma, ",")] + moreToks);
    }
  }

  lemma WithClause(u: Unicode, params: map<string, string>)
    requires Sane(u) && params != map[]
    requires forall k :: k in params ==> IsName(u, k) && IsExpr(u, params[k], {Comma, RBrace, Newline})
    ensures Yields(u, " with { " + FormatParams(Strings.Listing(params.Keys), params) + " }",
                   [Key("with"), OPEN] + ParamTokens(u, Strings.Listing(params.Keys), params) + [CLOSE])
  {
    hide Yields, YieldsWord, IsName, IsExpr, TokensOf, FormatParams, ParamTokens, LookupKeyword;
    var keys := Strings.Listing(params.Keys);
    assert keys != [] by {
      var k :| k in params;
      assert k in keys;
    }
    ParamsText(u, keys, params);
    var text, toks := FormatParams(keys, params), ParamTokens(u, keys, params);
    LineStart(u, " ", "with");
    MarkBlank(u, '{');
    Then(u, " " + ("with" + " "), [Key("with")], ['{'] + " ", [OPEN]);
    assert " " + ("with" + " ") + (['{'] + " ") == " with { ";
    assert [Key("with")] + [OPEN] == [Key("with"), OPEN];
    ThenWord(u, " with { ", [Key("with"), OPEN], text, toks);
    Blank(u, " ");
    Mark(u, '}');
    Then(u, " ", [], ['}'], [CLOSE]);
    assert " " + ['}'] == " }" && [] + [CLOSE] == [CLOSE];
    WordThen(u, " with { " + text, [Key("with"), OPEN] + toks, " }", [CLOSE]);
  }

  lemma UseSkillLine(u: Unicode, s: Stmt, indent: string)
    requires Sane(u) && Blanks(indent) && s.UseSkill? && Printable(u, s)
    ensures Yields(u, FormatStmt(u, s, indent), StmtTokens(u, s))
  {
    hide Yields, YieldsWord, IsName, IsExpr, TokensOf, FormatParams, ParamTokens, LookupKeyword;
    LineStart2(u, indent, "use", "skill");
    assert "use" + " " + "skill" + " " == "use skill ";
    NameLexes(u, s.skill);
    IsWord(u, s.skill);
    var head, headToks := indent + "use skill " + s.skill, [Key("use"), Key("skill")] + TokensOf(u, s.skill);
    ThenWord(u, indent + "use skill ", [Key("use"), Key("skill")], s.skill, TokensOf(u, s.skill));
    LineEnd(u);
    if s.params == map[] {
      assert head + "" == head && headToks + [] == headToks;
      WordThen(u, head, headToks, "\n", [NL]);
    } else {
      WithClause(u, s.params);
      var keys := Strings.Listing(s.params.Keys);
      var clause := " with { " + FormatParams(keys, s.params) + " }";
      var clauseToks := [Key("with"), OPEN] + ParamTokens(u, keys, s.params) + [CLOSE];
      WordThen(u, head, headToks, clause, clauseToks);
      Then(u, head + clause, headToks + clauseToks, "\n", [NL]);
    }
  }

  lemma NameLexes(u: Unicode, n: string)
    requires IsName(u, n)
    ensures LexExact(u, n).Some?
  {
  }

  lemma ExprLexes(u: Unicode, e: string, stops: set<Kind>)
    requires IsExpr(u, e, stops)
    ensures LexExact(u, e).Some?
  {
  }

  ghost predicate AllPrintable(u: Unicode, stmts: seq<Stmt>) {
    forall i :: 0 <= i < |stmts| ==> Printable(u, stmts[i])
  }

  lemma BodyOpen(u: Unicode)
    ensures Yields(u, " {\n", [OPEN, NL])
  {
    hide Yields;
    Blank(u, " ");
    Mark(u, '{');
    Mark(u, '\n');
    Then(u, " ", [], ['{'], [OPEN]);
    Then(u, " " + ['{'], [] + [OPEN], ['\n'], [NL]);
    assert " " + ['{'] + ['\n'] == " {\n" && [] + [OPEN] + [NL] == [OPEN, NL];
  }

  lemma BodyClose(u: Unicode, indent: string)
    requires Blanks(indent)
    ensures Yields(u, indent, []) && Yields(u, "}", [CLOSE])
  {
    Blank(u, indent);
    Mark(u, '}');
  }

  lemma {:induction false} StmtsText(u: Unicode, stmts: seq<Stmt>, indent: string)
    requires Sane(u) && Blanks(indent) && AllPrintable(u, stmts)
    ensures Yields(u, FormatStmts(u, stmts, indent), StmtsTokens(u, stmts))
    decreases stmts, 1
  {
    hide Yields, FormatStmt, StmtTokens, Printable;
    if stmts == [] {
      Nothing(u);
    } else {
      assert Printable(u, stmts[0]);
      StmtText(u, stmts[0], indent);
      StmtsText(u, stmts[1..], indent);
      Then(u, FormatStmt(u, stmts[0], indent), StmtTokens(u, stmts[0]),
           FormatStmts(u, stmts[1..], indent), StmtsTokens(u, stmts[1..]));
    }
  }

  lemma {:induction false} BodyText(u: Unicode, stmts: seq<Stmt>, indent: string)
    requires Sane(u) && Blanks(indent) && AllPrintable(u, stmts)
    ensures Yields(u, FormatBody(u, stmts, indent), BodyTokens(u, stmts))
    ensures StartsDelimited(FormatBody(u, stmts, indent))
    decreases stmts, 2
  {
    hide Yields, FormatStmts, StmtsTokens, AllPrintable;
    var inner, innerToks := FormatStmts(u, stmts, indent + "  "), StmtsTokens(u, stmts);
    BodyOpen(u);
    StmtsText(u, stmts, indent + "  ");
    Then(u, " {\n", [OPEN, NL], inner, innerToks);
    BodyClose(u, indent);
    Then(u, " {\n" + inner, [OPEN, NL] + innerToks, indent, []);
    assert [OPEN, NL] + innerToks + [] == [OPEN, NL] + innerToks;
    Then(u, " {\n" + inner + indent, [OPEN, NL] + innerToks, "}", [CLOSE]);
    assert FormatBody(u, stmts, indent)[0] == ' ';
  }

  lemma {:induction false} ElseIfsText(u: Unicode, elseIfs: seq<ElseIf>, indent: string)
    requires Sane(u) && Blanks(indent) && forall i :: 0 <= i < |elseIfs| ==> PrintableElseIf(u, elseIfs[i])
    ensures Yields(u, FormatElseIfs(u, elseIfs, indent), ElseIfTokens(u, elseIfs))
    decreases elseIfs, 1
  {
    hide Yields, YieldsWord, FormatBody, BodyTokens, IsExpr, TokensOf, Printable, LookupKeyword;
    if elseIfs == [] {
      Nothing(u);
    } else {
      var e := elseIfs[0];
      assert PrintableElseIf(u, e);
      LineStart2(u, " ", "else", "if");
      assert " " + ("else" + " " + "if" + " ") == " else if ";
      ExprLexes(u, e.condition, {LBrace});
      IsWord(u, e.condition);
      var head, headToks := " else if " + e.condition, [Key("else"), Key("if")] + TokensOf(u, e.condition);
      ThenWord(u, " else if ", [Key("else"), Key("if")], e.condition, TokensOf(u, e.condition));
      BodyText(u, e.body, indent);
      WordThen(u, head, headToks, FormatBody(u, e.body, indent), BodyTokens(u, e.body));
      ElseIfsText(u, elseIfs[1..], indent);
      Then(u, head + FormatBody(u, e.body, indent), headToks + BodyTokens(u, e.body),
           FormatElseIfs(u, elseIfs[1..], indent), ElseIfTokens(u, elseIfs[1..]));
    }
  }

  lemma {:induction false} ElseText(u: Unicode, e: Else, indent: string)
    requires Sane(u) && Blanks(indent) && (e.Else? ==> AllPrintable(u, e.body))
    ensures Yields(u, FormatElse(u, e, indent), ElseTokens(u, e))
    decreases e, 1
  {
    hide Yields, YieldsWord, FormatBody, BodyTokens, Printable, LookupKeyword, LexExact;
    match e
    case NoElse => Nothing(u);
    case Else(b) =>
      WordExact(u, "else");
      IsWord(u, "else");
      Blank(u, " ");
      ThenWord(u, " ", [], "else", [Key("else")]);
      assert " " + "else" == " else" && [] + [Key("else")] == [Key("else")];
      BodyText(u, b, indent);
      WordThen(u, " else", [Key("else")], FormatBody(u, b, indent), BodyTokens(u, b));
  }

  lemma {:induction false} IfText(u: Unicode, s: Stmt, indent: string)
    requires Sane(u) && Blanks(indent) && s.If? && Printable(u, s)
    ensures Yields(u, FormatStmt(u, s, indent), StmtTokens(u, s))
    decreases s, 0
  {
    hide Yields, YieldsWord, FormatBody, BodyTokens, FormatElseIfs, ElseIfTokens, FormatElse, ElseTokens, IsExpr,
         TokensOf, LookupKeyword;
    LineStart(u, indent, "if");
    assert "if" + " " == "if ";
    ExprLexes(u, s.condition, {LBrace});
    IsWord(u, s.condition);
    var a, ta := indent + "if " + s.condition, [Key("if")] + TokensOf(u, s.condition);
    ThenWord(u, indent + "if ", [Key("if")], s.condition, TokensOf(u, s.condition));
    BodyText(u, s.body, indent);
    var b, tb := a + FormatBody(u, s.body, indent), ta + BodyTokens(u, s.body);
    WordThen(u, a, ta, FormatBody(u, s.body, indent), BodyTokens(u, s.body));
    ElseIfsText(u, s.elseIfs, indent);
    var c, tc := b + FormatElseIfs(u, s.elseIfs, indent), tb + ElseIfTokens(u, s.elseIfs);
    Then(u, b, tb, FormatElseIfs(u, s.elseIfs, indent), ElseIfTokens(u, s.elseIfs));
    ElseText(u, s.elseBody, indent);
    Then(u, c, tc, FormatElse(u, s.elseBody, indent), ElseTokens(u, s.elseBody));
    LineEnd(u);
    Then(u, c + FormatElse(u, s.elseBody, indent), tc + ElseTokens(u, s.elseBody), "\n", [NL]);
  }

  lemma {:induction false} ForEachText(u: Unicode, s: Stmt, indent: string)
    requires Sane(u) && Blanks(indent) && s.ForEach? && Printable(u, s)
    ensures Yields(u, FormatStmt(u, s, indent), StmtTokens(u, s))
    decreases s, 0
  {
    hide Yields, YieldsWord, FormatBody, BodyTokens, IsExpr, IsName, TokensOf, LookupKeyword;
    LineStart2(u, indent, "for", "each");
    assert "for" + " " + "each" + " " == "for each ";
    NameLexes(u, s.variable);
    IsWord(u, s.variable);
    var a, ta := indent + "for each " + s.variable, [Key("for"), Key("each")] + TokensOf(u, s.variable);
    ThenWord(u, indent + "for each ", [Key("for"), Key("each")], s.variable, TokensOf(u, s.variable));
    LineStart(u, " ", "in");
    assert " " + ("in" + " ") == " in ";
    WordThen(u, a, ta, " in ", [Key("in")]);
    ExprLexes(u, s.collection, {LBrace});
    IsWord(u, s.collection);
    var b, tb := a + " in " + s.collection, ta + [Key("in")] + TokensOf(u, s.collection);
    ThenWord(u, a + " in ", ta + [Key("in")], s.collection, TokensOf(u, s.collection));
    BodyText(u, s.body, indent);
    WordThen(u, b, tb, FormatBody(u, s.body, indent), BodyTokens(u, s.body));
    LineEnd(u);
    Then(u, b + FormatBody(u, s.body, indent), tb + BodyTokens(u, s.body), "\n", [NL]);
  }

  /** Lexing the text of a statement gives its tokens, whatever follows. */
  lemma {:induction false} StmtText(u: Unicode, s: Stmt, indent: string)
    requires Sane(u) && Blanks(indent) && Printable(u, s)
    ensures Yields(u, FormatStmt(u, s, indent), StmtTokens(u, s))
    decreases s, 1
  {
    hide Yields, FormatStmt, StmtTokens, IsName, IsExpr, IsPlainText;
    match s
    case UseSkill(_, _) => UseSkillLine(u, s, indent);
    case Delegate(agent) => DelegateLine(u, agent, indent);
    case Respond(e) => RespondLine(u, e, indent);
    case If(_, _, _, _) => IfText(u, s, indent);
    case ForEach(_, _, _) => ForEachText(u, s, indent);
  }

  /** The tokens of a whole formatted block. */
  lemma BlockTokens(u: Unicode, stmts: seq<Stmt>, indent: string)
    requires Sane(u) && Blanks(indent) && AllPrintable(u, stmts)
    ensures Lex(u, FormatBlock(u, stmts, indent)) ==
            Some([Key("on"), Key("input")] + BodyTokens(u, stmts) + [NL])
  {
    hide FormatBody, BodyTokens, LookupKeyword, AllPrintable, YieldsWord, LexExact, Lex, FormatStmts;
    var head := indent + ("on" + " ") + "input";
    LineStart(u, indent, "on");
    WordExact(u, "input");
    IsWord(u, "input");
    ThenWord(u, indent + ("on" + " "), [Key("on")], "input", [Key("input")]);
    assert [Key("on")] + [Key("input")] == [Key("on"), Key("input")];
    BodyText(u, stmts, indent);
    WordThen(u, head, [Key("on"), Key("input")], FormatBody(u, stmts, indent), BodyTokens(u, stmts));
    LineEnd(u);
    var all := head + FormatBody(u, stmts, indent) + "\n";
    var toks := [Key("on"), Key("input")] + BodyTokens(u, stmts) + [NL];
    Then(u, head + FormatBody(u, stmts, indent), [Key("on"), Key("input")] + BodyTokens(u, stmts), "\n", [NL]);
    BlockShape(u, stmts, indent);
    assert all + "" == all;
    LexNothing(u);
    assert toks + [] == toks;
  }

  lemma LexNothing(u: Unicode)
    ensures Lex(u, "") == Some([])
  {
  }

  lemma BlockShape(u: Unicode, stmts: seq<Stmt>, indent: string)
    ensures FormatBlock(u, stmts, indent) == indent + ("on" + " ") + "input" + FormatBody(u, stmts, indent) + "\n"
  {
    hide FormatStmts;
    var inner := FormatStmts(u, stmts, indent + "  ");
    assert indent + "on input {\n" == indent + ("on" + " ") + "input" + " {\n";
    assert indent + "on input {\n" + inner + indent + "}\n" ==
           indent + ("on" + " ") + "input" + (" {\n" + inner + indent + "}") + "\n";
  }
}
