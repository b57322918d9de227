/** The layout of a formatted `on input` block: lines, each indented by two spaces for every block it is in. */
module Layout {
  import opened OnInput
  import opened Strings
  import opened Formatter
  import Lexer

  /** A line of text and how many blocks it is in. */
  datatype Line = Line(depth: nat, text: string)

  function Spaces(n: nat): (s: string)
    ensures |s| == n && forall i :: 0 <= i < n ==> s[i] == ' '
  {
    if n == 0 then "" else Spaces(n - 1) + " "
  }

  /** The lines one after another, each behind the margin and its indentation. */
  function Render(margin: string, lines: seq<Line>): string {
    if lines == [] then ""
    else margin + Spaces(2 * lines[0].depth) + lines[0].text + "\n" + Render(margin, lines[1..])
  }

  function Assignments(keys: seq<string>, params: map<string, string>): seq<string>
    requires forall k :: k in keys ==> k in params
  {
    seq(|keys|, i requires 0 <= i < |keys| => assert keys[i] in keys; keys[i] + ": " + params[keys[i]])
  }

  function Joined(parts: seq<string>, sep: string): string {
    if parts == [] then "" else if |parts| == 1 then parts[0] else parts[0] + sep + Joined(parts[1..], sep)
  }

  ghost function With(params: map<string, string>): string {
    if params == map[] then ""
    else " with { " + Joined(Assignments(Listing(params.Keys), params), ", ") + " }"
  }

  ghost function StmtLines(u: Lexer.Unicode, s: Stmt, d: nat): seq<Line>
    decreases s, 0
  {
    match s
    case UseSkill(skill, params) => [Line(d, "use skill " + skill + With(params))]
    case Delegate(agent) => [Line(d, "delegate to " + agent)]
    case Respond(e) => [Line(d, "respond " + Quote(u, e))]
    case If(c, body, elseIfs, elseBody) =>
      [Line(d, "if " + c + " {")] + LinesOf(u, body, d + 1) +
      ElseIfLines(u, elseIfs, d) + ElseLines(u, elseBody, d) + [Line(d, "}")]
    case ForEach(x, c, body) =>
      [Line(d, "for each " + x + " in " + c + " {")] + LinesOf(u, body, d + 1) + [Line(d, "}")]
  }

  ghost function LinesOf(u: Lexer.Unicode, stmts: seq<Stmt>, d: nat): seq<Line>
    decreases stmts, 1
  {
    if stmts == [] then [] else StmtLines(u, stmts[0], d) + LinesOf(u, stmts[1..], d)
  }

  /** Each clause starts on the line that closes the block before it. */
  ghost function ElseIfLines(u: Lexer.Unicode, elseIfs: seq<ElseIf>, d: nat): seq<Line>
    decreases elseIfs, 1
  {
    if elseIfs == [] then [] else
      [Line(d, "} else if " + elseIfs[0].condition + " {")] + LinesOf(u, elseIfs[0].body, d + 1) +
      ElseIfLines(u, elseIfs[1..], d)
  }

  ghost function ElseLines(u: Lexer.Unicode, e: Else, d: nat): seq<Line>
    decreases e, 1
  {
    match e
    case NoElse => []
    case Else(b) => [Line(d, "} else {")] + LinesOf(u, b, d + 1)
  }

  ghost function BlockLines(u: Lexer.Unicode, stmts: seq<Stmt>): seq<Line> {
    [Line(0, "on input {")] + LinesOf(u, stmts, 1) + [Line(0, "}")]
  }

  // ---- The formatter writes these lines ----

  lemma {:induction false} RenderAppend(margin: string, a: seq<Line>, b: seq<Line>)
    ensures Render(margin, a + b) == Render(margin, a) + Render(margin, b)
  {
    if a == [] {
      assert a + b == b;
    } else {
      assert (a + b)[0] == a[0] && (a + b)[1..] == a[1..] + b;
      RenderAppend(margin, a[1..], b);
      var head := margin + Spaces(2 * a[0].depth) + a[0].text + "\n";
      assert head + (Render(margin, a[1..]) + Render(margin, b)) == head + Render(margin, a[1..]) + Render(margin, b);
    }
  }

  lemma RenderOne(margin: string, d: nat, text: string)
    ensures Render(margin, [Line(d, text)]) == margin + Spaces(2 * d) + text + "\n"
  {
    assert [Line(d, text)][1..] == [];
    assert Render(margin, []) == "";
  }

  lemma Deeper(margin: string, d: nat)
    ensures margin + Spaces(2 * d) + "  " == margin + Spaces(2 * (d + 1))
  {
    assert Spaces(2 * d + 2) == Spaces(2 * d + 1) + " " == Spaces(2 * d) + " " + " ";
    assert " " + " " == "  ";
  }

  /** An opening line, a body, and what follows it. */
  lemma BodyLines(u: Lexer.Unicode, margin: string, d: nat, head: string, body: seq<Stmt>, tail: string,
                  rest: seq<Line>)
    requires var deep := margin + Spaces(2 * (d + 1));
             FormatStmts(u, body, deep) == Render(margin, LinesOf(u, body, d + 1))
    requires margin + Spaces(2 * d) + "}" + tail == Render(margin, rest)
    ensures var ind := margin + Spaces(2 * d);
            ind + head + FormatBody(u, body, ind) + tail ==
            Render(margin, [Line(d, head + " {")] + LinesOf(u, body, d + 1) + rest)
  {
    hide FormatStmts, LinesOf, Render, Spaces;
    var ind := margin + Spaces(2 * d);
    var first, inner := [Line(d, head + " {")], LinesOf(u, body, d + 1);
    Deeper(margin, d);
    RenderAppend(margin, first + inner, rest);
    RenderAppend(margin, first, inner);
    RenderOne(margin, d, head + " {");
    var text := FormatStmts(u, body, ind + "  ");
    Reassemble(ind, head, text, tail);
  }

  lemma Reassemble(ind: string, head: string, text: string, tail: string)
    ensures ind + head + (" {\n" + text + ind + "}") + tail == ind + (head + " {") + "\n" + text + (ind + "}" + tail)
  {
    assert " {\n" == " {" + "\n";
  }

  lemma {:induction false} StmtLaidOut(u: Lexer.Unicode, s: Stmt, margin: string, d: nat)
    ensures FormatStmt(u, s, margin + Spaces(2 * d)) == Render(margin, StmtLines(u, s, d))
    decreases s, 1
  {
    hide FormatStmts, LinesOf, Render, Spaces, FormatBody, ElseIfLines, ElseLines, FormatElseIfs, FormatElse, Quote,
         FormatParams, With;
    var ind := margin + Spaces(2 * d);
    match s
    case UseSkill(skill, params) =>
      RenderOne(margin, d, "use skill " + skill + With(params));
      WithIs(params);
      UseText(ind, skill, With(params));
    case Delegate(agent) =>
      RenderOne(margin, d, "delegate to " + agent);
      assert ind + "delegate to " + agent + "\n" == ind + ("delegate to " + agent) + "\n";
    case Respond(e) =>
      RenderOne(margin, d, "respond " + Quote(u, e));
      assert ind + "respond " + Quote(u, e) + "\n" == ind + ("respond " + Quote(u, e)) + "\n";
    case If(c, body, elseIfs, elseBody) =>
      IfLaidOut(u, s, margin, d);
    case ForEach(x, c, body) =>
      StmtsLaidOut(u, body, margin, d + 1);
      RenderOne(margin, d, "}");
      BodyLines(u, margin, d, "for each " + x + " in " + c, body, "\n", [Line(d, "}")]);
      ForText(ind, x, c, FormatBody(u, body, ind));
  }

  lemma UseText(ind: string, skill: string, with: string)
    ensures ind + "use skill " + skill + with + "\n" == ind + ("use skill " + skill + with) + "\n"
  {
  }

  lemma ForText(ind: string, x: string, c: string, body: string)
    ensures ind + "for each " + x + " in " + c + body + "\n" == ind + ("for each " + x + " in " + c) + body + "\n"
  {
  }

  lemma {:induction false} IfLaidOut(u: Lexer.Unicode, s: Stmt, margin: string, d: nat)
    requires s.If?
    ensures FormatStmt(u, s, margin + Spaces(2 * d)) == Render(margin, StmtLines(u, s, d))
    decreases s, 0
  {
    hide FormatStmts, LinesOf, Render, Spaces, FormatBody, ElseIfLines, ElseLines, FormatElseIfs, FormatElse;
    var ind := margin + Spaces(2 * d);
    var last := [Line(d, "}")];
    var elses := ElseLines(u, s.elseBody, d) + last;
    var tail := FormatElse(u, s.elseBody, ind) + "\n";
    ElseLaidOut(u, s.elseBody, margin, d);
    ElseIfsLaidOut(u, s.elseIfs, margin, d, tail, elses);
    var more := FormatElseIfs(u, s.elseIfs, ind);
    StmtsLaidOut(u, s.body, margin, d + 1);
    BodyLines(u, margin, d, "if " + s.condition, s.body, more + tail, ElseIfLines(u, s.elseIfs, d) + elses);
    var first, inner := [Line(d, "if " + s.condition + " {")], LinesOf(u, s.body, d + 1);
    assert first + inner + (ElseIfLines(u, s.elseIfs, d) + elses) == StmtLines(u, s, d);
    IfText(ind, s.condition, FormatBody(u, s.body, ind), more, FormatElse(u, s.elseBody, ind));
  }

  lemma IfText(ind: string, c: string, body: string, more: string, other: string)
    ensures ind + "if " + c + body + more + other + "\n" == ind + ("if " + c) + body + (more + (other + "\n"))
  {
  }

  lemma {:induction false} ElseIfsLaidOut(u: Lexer.Unicode, elseIfs: seq<ElseIf>, margin: string, d: nat, tail: string,
                                          rest: seq<Line>)
    requires margin + Spaces(2 * d) + "}" + tail == Render(margin, rest)
    ensures var ind := margin + Spaces(2 * d);
            ind + "}" + (FormatElseIfs(u, elseIfs, ind) + tail) == Render(margin, ElseIfLines(u, elseIfs, d) + rest)
    decreases elseIfs, 1
  {
    hide FormatStmts, LinesOf, Render, Spaces, FormatBody;
    var ind := margin + Spaces(2 * d);
    if elseIfs == [] {
      assert FormatElseIfs(u, elseIfs, ind) + tail == tail && ElseIfLines(u, elseIfs, d) + rest == rest;
    } else {
      var e := elseIfs[0];
      var more := FormatElseIfs(u, elseIfs[1..], ind);
      ElseIfsLaidOut(u, elseIfs[1..], margin, d, tail, rest);
      StmtsLaidOut(u, e.body, margin, d + 1);
      var lines := ElseIfLines(u, elseIfs[1..], d) + rest;
      BodyLines(u, margin, d, "} else if " + e.condition, e.body, more + tail, lines);
      var first, inner := [Line(d, "} else if " + e.condition + " {")], LinesOf(u, e.body, d + 1);
      assert first + inner + lines == ElseIfLines(u, elseIfs, d) + rest;
      ElseIfText(ind, e.condition, FormatBody(u, e.body, ind), more, tail);
    }
  }

  lemma ElseIfText(ind: string, c: string, body: string, more: string, tail: string)
    ensures ind + "}" + (" else if " + c + body + more + tail) == ind + ("} else if " + c) + body + (more + tail)
  {
    assert "}" + " else if " == "} else if ";
  }

  lemma {:induction false} ElseLaidOut(u: Lexer.Unicode, e: Else, margin: string, d: nat)
    ensures var ind := margin + Spaces(2 * d);
            ind + "}" + (FormatElse(u, e, ind) + "\n") == Render(margin, ElseLines(u, e, d) + [Line(d, "}")])
    decreases e, 1
  {
    hide FormatStmts, LinesOf, Render, Spaces, FormatBody;
    var ind, last := margin + Spaces(2 * d), [Line(d, "}")];
    RenderOne(margin, d, "}");
    match e
    case NoElse =>
      assert "" + "\n" == "\n" && [] + last == last;
    case Else(b) =>
      StmtsLaidOut(u, b, margin, d + 1);
      BodyLines(u, margin, d, "} else", b, "\n", last);
      assert "} else" + " {" == "} else {";
      ElseText(ind, FormatBody(u, b, ind));
  }

  lemma ElseText(ind: string, body: string)
    ensures ind + "}" + (" else" + body + "\n") == ind + "} else" + body + "\n"
  {
    assert "}" + " else" == "} else";
  }

  lemma {:induction false} StmtsLaidOut(u: Lexer.Unicode, stmts: seq<Stmt>, margin: string, d: nat)
    ensures FormatStmts(u, stmts, margin + Spaces(2 * d)) == Render(margin, LinesOf(u, stmts, d))
    decreases stmts, 1
  {
    hide FormatStmt, StmtLines, Spaces;
    if stmts != [] {
      StmtLaidOut(u, stmts[0], margin, d);
      StmtsLaidOut(u, stmts[1..], margin, d);
      RenderAppend(margin, StmtLines(u, stmts[0], d), LinesOf(u, stmts[1..], d));
    }
  }

  lemma {:induction false} JoinedIs(keys: seq<string>, params: map<string, string>)
    requires forall k :: k in keys ==> k in params
    ensures FormatParams(keys, params) == Joined(Assignments(keys, params), ", ")
  {
    if keys != [] {
      var parts := Assignments(keys, params);
      assert parts[1..] == Assignments(keys[1..], params);
      JoinedIs(keys[1..], params);
    }
  }

  lemma WithIs(params: map<string, string>)
    ensures With(params) ==
            if params != map[] then " with { " + FormatParams(Listing(params.Keys), params) + " }" else ""
  {
    hide Listing;
    if params != map[] {
      JoinedIs(Listing(params.Keys), params);
    }
  }

  /** A formatted block is its lines: the header, the statements one level in and their bodies one level deeper each,
      and the closing brace. */
  lemma BlockLaidOut(u: Lexer.Unicode, stmts: seq<Stmt>, margin: string)
    ensures FormatBlock(u, stmts, margin) == Render(margin, BlockLines(u, stmts))
  {
    hide FormatStmts, LinesOf, Render;
    var first, inner, last := [Line(0, "on input {")], LinesOf(u, stmts, 1), [Line(0, "}")];
    StmtsLaidOut(u, stmts, margin, 1);
    assert Spaces(2 * 1) == "  ";
    RenderAppend(margin, first + inner, last);
    RenderAppend(margin, first, inner);
    RenderOne(margin, 0, "on input {");
    RenderOne(margin, 0, "}");
    assert margin + Spaces(2 * 0) == margin;
    assert "on input {\n" == "on input {" + "\n";
    assert margin + "}" + "\n" == margin + "}\n";
  }
}
