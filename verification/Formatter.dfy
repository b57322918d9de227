/** The `on input` part of internal/formatter/formatter.go. */
module Formatter {
  import opened OnInput
  import opened Strings
  import Lexer

  // ---- %q ----

  function HexDigit(n: nat): char
    requires n < 16
  {
    "0123456789abcdef"[n]
  }

  function Hex(n: nat, digits: nat): string {
    if digits == 0 then "" else Hex(n / 16, digits - 1) + [HexDigit(n % 16)]
  }

  function QuoteChar(u: Lexer.Unicode, c: char): string {
    var n := c as int;
    if c == '"' || c == '\\' then ['\\', c]
    else if u.isPrint(c) then [c]
    else if n == 7 then "\\a"
    else if n == 8 then "\\b"
    else if n == 12 then "\\f"
    else if c == '\n' then "\\n"
    else if c == '\r' then "\\r"
    else if c == '\t' then "\\t"
    else if n == 11 then "\\v"
    else if n < 32 || n == 127 then "\\x" + Hex(n, 2)
    else if n < 0x10000 then "\\u" + Hex(n, 4)
    else "\\U" + Hex(n, 8)
  }

  function QuoteBody(u: Lexer.Unicode, s: string): string {
    if s == "" then "" else QuoteChar(u, s[0]) + QuoteBody(u, s[1..])
  }

  function Quote(u: Lexer.Unicode, s: string): string {
    "\"" + QuoteBody(u, s) + "\""
  }

  // ---- The text of a block ----

  function FormatParams(keys: seq<string>, params: map<string, string>): string
    requires forall k :: k in keys ==> k in params
  {
    if keys == [] then "" else
      assert keys[0] in keys;
      keys[0] + ": " + params[keys[0]] + (if |keys| > 1 then ", " + FormatParams(keys[1..], params) else "")
  }

  ghost function FormatStmt(u: Lexer.Unicode, s: Stmt, indent: string): string
    decreases s, 0
  {
    match s
    case UseSkill(skill, params) =>
      indent + "use skill " + skill +
      (if params != map[] then " with { " + FormatParams(Listing(params.Keys), params) + " }" else "") + "\n"
    case Delegate(agent) => indent + "delegate to " + agent + "\n"
    case Respond(e) => indent + "respond " + Quote(u, e) + "\n"
    case If(c, body, elseIfs, elseBody) =>
      indent + "if " + c + FormatBody(u, body, indent) + FormatElseIfs(u, elseIfs, indent) +
      FormatElse(u, elseBody, indent) + "\n"
    case ForEach(x, c, body) =>
      indent + "for each " + x + " in " + c + FormatBody(u, body, indent) + "\n"
  }

  ghost function FormatStmts(u: Lexer.Unicode, stmts: seq<Stmt>, indent: string): string
    decreases stmts, 1
  {
    if stmts == [] then "" else FormatStmt(u, stmts[0], indent) + FormatStmts(u, stmts[1..], indent)
  }

  ghost function FormatElseIfs(u: Lexer.Unicode, elseIfs: seq<ElseIf>, indent: string): string
    decreases elseIfs, 1
  {
    if elseIfs == [] then "" else
      " else if " + elseIfs[0].condition + FormatBody(u, elseIfs[0].body, indent)
        + FormatElseIfs(u, elseIfs[1..], indent)
  }

  ghost function FormatElse(u: Lexer.Unicode, e: Else, indent: string): string
    decreases e, 1
  {
    match e
    case NoElse => ""
    case Else(b) => " else" + FormatBody(u, b, indent)
  }

  /** A nested block in braces, its statements one level deeper. */
  ghost function FormatBody(u: Lexer.Unicode, stmts: seq<Stmt>, indent: string): string
    decreases stmts, 2
  {
    " {\n" + FormatStmts(u, stmts, indent + "  ") + indent + "}"
  }

  ghost function FormatBlock(u: Lexer.Unicode, stmts: seq<Stmt>, indent: string): string {
    indent + "on input {\n" + FormatStmts(u, stmts, indent + "  ") + indent + "}\n"
  }

  // ---- The formatter as the source writes it, appending to a shared builder ----

  class Builder {
    var text: string

    constructor ()
      ensures text == ""
    {
      text := "";
    }

    method Write(s: string)
      modifies this
      ensures text == old(text) + s
    {
      text := text + s;
    }
  }

  lemma {:induction false} FormatSnoc(u: Lexer.Unicode, a: seq<Stmt>, s: Stmt, indent: string)
    ensures FormatStmts(u, a + [s], indent) == FormatStmts(u, a, indent) + FormatStmt(u, s, indent)
  {
    if a == [] {
      assert a + [s] == [s] && [s][1..] == [];
    } else {
      assert (a + [s])[1..] == a[1..] + [s];
      FormatSnoc(u, a[1..], s, indent);
    }
  }

  lemma {:induction false} ElseIfsSnoc(u: Lexer.Unicode, a: seq<ElseIf>, e: ElseIf, indent: string)
    ensures FormatElseIfs(u, a + [e], indent) == FormatElseIfs(u, a, indent) + FormatElseIfs(u, [e], indent)
  {
    if a == [] {
      assert a + [e] == [e];
    } else {
      assert (a + [e])[1..] == a[1..] + [e];
      ElseIfsSnoc(u, a[1..], e, indent);
    }
  }

  method FormatOnInputBlock(u: Lexer.Unicode, sb: Builder, stmts: seq<Stmt>, indent: string)
    modifies sb
    ensures sb.text == old(sb.text) + FormatBlock(u, stmts, indent)
  {
    sb.Write(indent + "on input {\n");
    FormatOnInputStmts(u, sb, stmts, indent + "  ");
    sb.Write(indent + "}\n");
  }

  /** The loop over statements that every block has. */
  method FormatOnInputStmts(u: Lexer.Unicode, sb: Builder, stmts: seq<Stmt>, indent: string)
    modifies sb
    ensures sb.text == old(sb.text) + FormatStmts(u, stmts, indent)
    decreases stmts, 1
  {
    hide FormatStmt;
    ghost var start := sb.text;
    for i := 0 to |stmts|
      invariant sb.text == start + FormatStmts(u, stmts[..i], indent)
    {
      assert stmts[..i + 1] == stmts[..i] + [stmts[i]];
      Assoc(start, FormatStmts(u, stmts[..i], indent), FormatStmt(u, stmts[i], indent));
      FormatSnoc(u, stmts[..i], stmts[i], indent);
      FormatOnInputStmt(u, sb, stmts[i], indent);
    }
    assert stmts[..|stmts|] == stmts;
  }

  lemma Assoc(a: string, b: string, c: string)
    ensures a + (b + c) == (a + b) + c
  {
  }

  /** Appends s to what has been written since the builder held `start`. */
  method Put(sb: Builder, ghost start: string, ghost soFar: string, s: string)
    requires sb.text == start + soFar
    modifies sb
    ensures sb.text == start + (soFar + s)
  {
    Assoc(start, soFar, s);
    sb.Write(s);
  }

  method FormatOnInputStmt(u: Lexer.Unicode, sb: Builder, s: Stmt, indent: string)
    modifies sb
    ensures sb.text == old(sb.text) + FormatStmt(u, s, indent)
    decreases s, 1
  {
    match s
    case UseSkill(skill, params) =>
      FormatUseSkill(u, sb, s, indent);
    case Delegate(agent) =>
      sb.Write(indent + "delegate to " + agent + "\n");
    case Respond(e) =>
      sb.Write(indent + "respond " + Quote(u, e) + "\n");
    case If(c, body, elseIfs, elseBody) =>
      FormatIfBlock(u, sb, s, indent);
    case ForEach(x, c, body) =>
      FormatForEachBlock(u, sb, s, indent);
  }

  method FormatUseSkill(u: Lexer.Unicode, sb: Builder, s: Stmt, indent: string)
    requires s.UseSkill?
    modifies sb
    ensures sb.text == old(sb.text) + FormatStmt(u, s, indent)
  {
    hide FormatParams;
    ghost var start := sb.text;
    ghost var head := indent + "use skill " + s.skill;
    sb.Write(indent + "use skill " + s.skill);
    if s.params != map[] {
      ghost var params := FormatParams(Listing(s.params.Keys), s.params);
      Put(sb, start, head, " with { ");
      FormatOnInputParams(sb, s.params);
      Assoc(start, head + " with { ", params);
      Put(sb, start, head + " with { " + params, " }");
      assert head + " with { " + params + " }" == head + (" with { " + params + " }");
      Put(sb, start, head + (" with { " + params + " }"), "\n");
    } else {
      Put(sb, start, head, "\n");
      assert head + "" == head;
    }
  }

  method FormatIfBlock(u: Lexer.Unicode, sb: Builder, s: Stmt, indent: string)
    requires s.If?
    modifies sb
    ensures sb.text == old(sb.text) + FormatStmt(u, s, indent)
    decreases s, 0
  {
    hide FormatBody, FormatElseIfs, FormatElse;
    ghost var start, body := sb.text, FormatBody(u, s.body, indent);
    ghost var elseIfs, els := FormatElseIfs(u, s.elseIfs, indent), FormatElse(u, s.elseBody, indent);
    ghost var head := indent + "if " + s.condition;
    sb.Write(indent + "if " + s.condition);
    FormatOnInputBody(u, sb, s.body, indent);
    Assoc(start, head, body);
    FormatOnInputElseIfs(u, sb, s.elseIfs, indent);
    Assoc(start, head + body, elseIfs);
    FormatOnInputElse(u, sb, s.elseBody, indent);
    Assoc(start, head + body + elseIfs, els);
    Put(sb, start, head + body + elseIfs + els, "\n");
  }

  method FormatForEachBlock(u: Lexer.Unicode, sb: Builder, s: Stmt, indent: string)
    requires s.ForEach?
    modifies sb
    ensures sb.text == old(sb.text) + FormatStmt(u, s, indent)
    decreases s, 0
  {
    hide FormatBody;
    ghost var start, head := sb.text, indent + "for each " + s.variable + " in " + s.collection;
    sb.Write(indent + "for each " + s.variable + " in " + s.collection);
    FormatOnInputBody(u, sb, s.body, indent);
    Assoc(start, head, FormatBody(u, s.body, indent));
    Put(sb, start, head + FormatBody(u, s.body, indent), "\n");
  }

  method FormatOnInputBody(u: Lexer.Unicode, sb: Builder, stmts: seq<Stmt>, indent: string)
    modifies sb
    ensures sb.text == old(sb.text) + FormatBody(u, stmts, indent)
    decreases stmts, 2
  {
    hide FormatStmts;
    ghost var start, inner := sb.text, FormatStmts(u, stmts, indent + "  ");
    sb.Write(" {\n");
    FormatOnInputStmts(u, sb, stmts, indent + "  ");
    Assoc(start, " {\n", inner);
    Put(sb, start, " {\n" + inner, indent);
    Put(sb, start, " {\n" + inner + indent, "}");
  }

  method FormatOnInputElseIfs(u: Lexer.Unicode, sb: Builder, elseIfs: seq<ElseIf>, indent: string)
    modifies sb
    ensures sb.text == old(sb.text) + FormatElseIfs(u, elseIfs, indent)
    decreases elseIfs, 1
  {
    hide FormatBody, FormatElseIfs;
    ghost var start := sb.text;
    NoElseIfs(u, indent);
    for i := 0 to |elseIfs|
      invariant sb.text == start + FormatElseIfs(u, elseIfs[..i], indent)
    {
      assert elseIfs[..i + 1] == elseIfs[..i] + [elseIfs[i]];
      assert elseIfs[i] in elseIfs;
      ghost var done, body := FormatElseIfs(u, elseIfs[..i], indent), FormatBody(u, elseIfs[i].body, indent);
      ghost var head := " else if " + elseIfs[i].condition;
      Put(sb, start, done, " else if " + elseIfs[i].condition);
      FormatOnInputBody(u, sb, elseIfs[i].body, indent);
      Assoc(start, done + head, body);
      Assoc(done, head, body);
      ElseIfsSnoc(u, elseIfs[..i], elseIfs[i], indent);
      OneElseIf(u, elseIfs[i], indent);
    }
    assert elseIfs[..|elseIfs|] == elseIfs;
  }

  lemma NoElseIfs(u: Lexer.Unicode, indent: string)
    ensures FormatElseIfs(u, [], indent) == ""
  {
  }

  lemma OneElseIf(u: Lexer.Unicode, e: ElseIf, indent: string)
    ensures FormatElseIfs(u, [e], indent) == " else if " + e.condition + FormatBody(u, e.body, indent)
  {
    hide FormatBody;
    assert [e][1..] == [];
    var text := " else if " + e.condition + FormatBody(u, e.body, indent);
    assert text + "" == text;
  }

  method FormatOnInputElse(u: Lexer.Unicode, sb: Builder, e: Else, indent: string)
    modifies sb
    ensures sb.text == old(sb.text) + FormatElse(u, e, indent)
    decreases e, 1
  {
    hide FormatBody;
    match e
    case NoElse =>
    case Else(b) =>
      ghost var start := sb.text;
      sb.Write(" else");
      FormatOnInputBody(u, sb, b, indent);
      Assoc(start, " else", FormatBody(u, b, indent));
  }

  function FormatParam(first: bool, k: string, v: string): string {
    (if first then "" else ", ") + (k + ": " + v)
  }

  lemma {:induction false} ParamsSnoc(keys: seq<string>, k: string, params: map<string, string>)
    requires forall x :: x in keys ==> x in params
    requires k in params
    ensures FormatParams(keys + [k], params) == FormatParams(keys, params) + FormatParam(keys == [], k, params[k])
  {
    if keys == [] {
      assert keys + [k] == [k];
      assert k + ": " + params[k] + "" == k + ": " + params[k];
    } else {
      var rest, head := keys[1..], keys[0] + ": " + params[keys[0]];
      assert (keys + [k])[1..] == rest + [k];
      ParamsSnoc(rest, k, params);
      if rest == [] {
        assert head + "" == head && rest + [k] == [k];
      } else {
        Assoc(", ", FormatParams(rest, params), FormatParam(false, k, params[k]));
        Assoc(head, ", " + FormatParams(rest, params), FormatParam(false, k, params[k]));
      }
    }
  }

  /** Parameters are written in increasing order of their keys. */
  method FormatOnInputParams(sb: Builder, params: map<string, string>)
    modifies sb
    ensures sb.text == old(sb.text) + FormatParams(Listing(params.Keys), params)
  {
    hide Ascending, FormatParam;
    ghost var start := sb.text;
    var keys := SortedKeys(params.Keys);
    AscendingUnique(keys, Listing(params.Keys));
    for i := 0 to |keys|
      invariant sb.text == start + FormatParams(keys[..i], params)
    {
      assert keys[i] in keys;
      assert keys[..i + 1] == keys[..i] + [keys[i]];
      ParamsSnoc(keys[..i], keys[i], params);
      Put(sb, start, FormatParams(keys[..i], params), FormatParam(i == 0, keys[i], params[keys[i]]));
    }
    assert keys[..|keys|] == keys;
  }
}
