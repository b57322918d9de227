/** What the validators of `on input` blocks report: each empty field and each undeclared name once, at any depth. */
module ValidationLaws {
  import opened OnInput
  import opened OnInputMeaning

  /** All that must not be empty in a statement, nested ones included, in the order of the text. */
  function Fields(s: Stmt): seq<string> {
    match s
    case UseSkill(skill, _) => [skill]
    case Delegate(agent) => [agent]
    case Respond(e) => [e]
    case If(c, body, elseIfs, elseBody) =>
      [c] + FieldsIn(body) + ElseIfFields(elseIfs) + (match elseBody case NoElse => [] case Else(b) => FieldsIn(b))
    case ForEach(x, c, body) => [x, c] + FieldsIn(body)
  }

  function FieldsIn(stmts: seq<Stmt>): seq<string> {
    if stmts == [] then [] else FieldsIn(stmts[..|stmts| - 1]) + Fields(stmts[|stmts| - 1])
  }

  function ElseIfFields(elseIfs: seq<ElseIf>): seq<string> {
    if elseIfs == [] then [] else
      [elseIfs[0].condition] + FieldsIn(elseIfs[0].body) + ElseIfFields(elseIfs[1..])
  }

  /** How many of xs are not in known. */
  function Missing(xs: seq<string>, known: set<string>): nat {
    if xs == [] then 0 else (if xs[0] in known then 0 else 1) + Missing(xs[1..], known)
  }

  function Empties(xs: seq<string>): nat {
    if xs == [] then 0 else (if xs[0] == "" then 1 else 0) + Empties(xs[1..])
  }

  lemma {:induction false} EmptiesAppend(a: seq<string>, b: seq<string>)
    ensures Empties(a + b) == Empties(a) + Empties(b)
  {
    if a == [] {
      assert a + b == b;
    } else {
      assert (a + b)[1..] == a[1..] + b;
      EmptiesAppend(a[1..], b);
    }
  }

  lemma {:induction false} EmptiesZero(xs: seq<string>)
    ensures Empties(xs) == 0 <==> "" !in xs
  {
    if xs != [] {
      EmptiesZero(xs[1..]);
      assert xs == [xs[0]] + xs[1..];
    }
  }

  lemma OneEmpty(x: string)
    ensures Empties([x]) == if x == "" then 1 else 0
  {
    assert [x][1..] == [];
  }

  lemma {:induction false} StmtReports(s: Stmt)
    ensures |ValidateStmt(s)| == Empties(Fields(s))
    decreases s, 0
  {
    hide ValidateStmts, FieldsIn, ValidateElseIfs, ElseIfFields, Empties;
    match s
    case UseSkill(skill, _) => OneEmpty(skill);
    case Delegate(agent) => OneEmpty(agent);
    case Respond(e) => OneEmpty(e);
    case If(c, body, elseIfs, elseBody) =>
      var rest := match elseBody case NoElse => [] case Else(b) => FieldsIn(b);
      OneEmpty(c);
      StmtsReport(body);
      ElseIfsReport(elseIfs);
      if elseBody.Else? {
        StmtsReport(elseBody.body);
      } else {
        NoEmpties();
      }
      EmptiesAppend([c] + FieldsIn(body) + ElseIfFields(elseIfs), rest);
      EmptiesAppend([c] + FieldsIn(body), ElseIfFields(elseIfs));
      EmptiesAppend([c], FieldsIn(body));
    case ForEach(x, c, body) =>
      OneEmpty(x);
      OneEmpty(c);
      StmtsReport(body);
      assert [x, c] == [x] + [c];
      EmptiesAppend([x], [c]);
      EmptiesAppend([x, c], FieldsIn(body));
  }

  lemma NoEmpties()
    ensures Empties([]) == 0
  {
  }

  lemma {:induction false} StmtsReport(stmts: seq<Stmt>)
    ensures |ValidateStmts(stmts)| == Empties(FieldsIn(stmts))
    decreases stmts, 1
  {
    hide ValidateStmt, Fields;
    if stmts != [] {
      var n := |stmts| - 1;
      StmtsReport(stmts[..n]);
      StmtReports(stmts[n]);
      EmptiesAppend(FieldsIn(stmts[..n]), Fields(stmts[n]));
    }
  }

  lemma {:induction false} ElseIfsReport(elseIfs: seq<ElseIf>)
    ensures |ValidateElseIfs(elseIfs)| == Empties(ElseIfFields(elseIfs))
    decreases elseIfs, 1
  {
    hide ValidateStmts, FieldsIn;
    if elseIfs != [] {
      var e := elseIfs[0];
      StmtsReport(e.body);
      ElseIfsReport(elseIfs[1..]);
      OneEmpty(e.condition);
      EmptiesAppend([e.condition] + FieldsIn(e.body), ElseIfFields(elseIfs[1..]));
      EmptiesAppend([e.condition], FieldsIn(e.body));
    }
  }

  /** Structural validation reports one error for every empty name and expression, so it accepts exactly the blocks
      that have none. */
  lemma ReportsEmptyFields(stmts: seq<Stmt>)
    ensures |ValidateStmts(stmts)| == Empties(FieldsIn(stmts))
    ensures ValidateStmts(stmts) == [] <==> "" !in FieldsIn(stmts)
  {
    hide ValidateStmts, FieldsIn;
    StmtsReport(stmts);
    EmptiesZero(FieldsIn(stmts));
  }

  // ---- References ----

  /** The skills that a statement uses, and with agents set those it delegates to, nested statements included. */
  function Named(s: Stmt, agents: bool): seq<string> {
    match s
    case UseSkill(skill, _) => if agents then [] else [skill]
    case Delegate(agent) => if agents then [agent] else []
    case Respond(_) => []
    case If(_, body, elseIfs, elseBody) =>
      NamedIn(body, agents) + ElseIfNamed(elseIfs, agents) +
      (match elseBody case NoElse => [] case Else(b) => NamedIn(b, agents))
    case ForEach(_, _, body) => NamedIn(body, agents)
  }

  function NamedIn(stmts: seq<Stmt>, agents: bool): seq<string> {
    if stmts == [] then [] else NamedIn(stmts[..|stmts| - 1], agents) + Named(stmts[|stmts| - 1], agents)
  }

  function ElseIfNamed(elseIfs: seq<ElseIf>, agents: bool): seq<string> {
    if elseIfs == [] then [] else NamedIn(elseIfs[0].body, agents) + ElseIfNamed(elseIfs[1..], agents)
  }

  lemma {:induction false} MissingAppend(a: seq<string>, b: seq<string>, known: set<string>)
    ensures Missing(a + b, known) == Missing(a, known) + Missing(b, known)
  {
    if a == [] {
      assert a + b == b;
    } else {
      assert (a + b)[1..] == a[1..] + b;
      MissingAppend(a[1..], b, known);
    }
  }

  lemma {:induction false} MissingZero(xs: seq<string>, known: set<string>)
    ensures Missing(xs, known) == 0 <==> forall x :: x in xs ==> x in known
  {
    if xs != [] {
      MissingZero(xs[1..], known);
      assert xs == [xs[0]] + xs[1..];
    }
  }

  lemma FewMissing(x: string, known: set<string>)
    ensures Missing([x], known) == (if x in known then 0 else 1) && Missing([], known) == 0
  {
    assert [x][1..] == [];
  }

  /** The skills and agents missing of those a, respectively b, names. */
  ghost function Unknown(a: seq<string>, b: seq<string>, skills: set<string>, agents: set<string>): nat {
    Missing(a, skills) + Missing(b, agents)
  }

  lemma UnknownAppend(a: seq<string>, b: seq<string>, a': seq<string>, b': seq<string>, skills: set<string>,
                      agents: set<string>)
    ensures Unknown(a + a', b + b', skills, agents) ==
            Unknown(a, b, skills, agents) + Unknown(a', b', skills, agents)
  {
    MissingAppend(a, a', skills);
    MissingAppend(b, b', agents);
  }

  lemma {:induction false} StmtRefers(s: Stmt, skills: set<string>, agents: set<string>)
    ensures |RefsStmt(s, skills, agents)| == Unknown(Named(s, false), Named(s, true), skills, agents)
    decreases s, 0
  {
    hide Refs, NamedIn, RefsElseIfs, ElseIfNamed, Missing;
    match s
    case UseSkill(skill, _) =>
      FewMissing(skill, skills);
      FewMissing(skill, agents);
    case Delegate(agent) =>
      FewMissing(agent, agents);
      FewMissing(agent, skills);
    case Respond(_) =>
      FewMissing("", skills);
      FewMissing("", agents);
    case If(_, body, elseIfs, elseBody) =>
      StmtsRefer(body, skills, agents);
      ElseIfsRefer(elseIfs, skills, agents);
      var a := match elseBody case NoElse => [] case Else(b) => NamedIn(b, false);
      var b := match elseBody case NoElse => [] case Else(b) => NamedIn(b, true);
      if elseBody.Else? {
        StmtsRefer(elseBody.body, skills, agents);
      } else {
        FewMissing("", skills);
        FewMissing("", agents);
      }
      UnknownAppend(NamedIn(body, false), NamedIn(body, true), ElseIfNamed(elseIfs, false), ElseIfNamed(elseIfs, true),
                    skills, agents);
      UnknownAppend(NamedIn(body, false) + ElseIfNamed(elseIfs, false),
                    NamedIn(body, true) + ElseIfNamed(elseIfs, true), a, b, skills, agents);
    case ForEach(_, _, body) => StmtsRefer(body, skills, agents);
  }

  lemma {:induction false} StmtsRefer(stmts: seq<Stmt>, skills: set<string>, agents: set<string>)
    ensures |Refs(stmts, skills, agents)| == Unknown(NamedIn(stmts, false), NamedIn(stmts, true), skills, agents)
    decreases stmts, 1
  {
    hide RefsStmt, Named;
    if stmts != [] {
      var n := |stmts| - 1;
      StmtsRefer(stmts[..n], skills, agents);
      StmtRefers(stmts[n], skills, agents);
      UnknownAppend(NamedIn(stmts[..n], false), NamedIn(stmts[..n], true), Named(stmts[n], false),
                    Named(stmts[n], true), skills, agents);
    }
  }

  lemma {:induction false} ElseIfsRefer(elseIfs: seq<ElseIf>, skills: set<string>, agents: set<string>)
    ensures |RefsElseIfs(elseIfs, skills, agents)| ==
            Unknown(ElseIfNamed(elseIfs, false), ElseIfNamed(elseIfs, true), skills, agents)
    decreases elseIfs, 1
  {
    hide Refs, NamedIn;
    if elseIfs != [] {
      StmtsRefer(elseIfs[0].body, skills, agents);
      ElseIfsRefer(elseIfs[1..], skills, agents);
      UnknownAppend(NamedIn(elseIfs[0].body, false), NamedIn(elseIfs[0].body, true), ElseIfNamed(elseIfs[1..], false),
                    ElseIfNamed(elseIfs[1..], true), skills, agents);
    }
  }

  /** Reference validation reports one error for every use of an undeclared skill and every delegation to an undeclared
      agent, so it accepts exactly the blocks that have none. */
  lemma ReportsUnknownNames(stmts: seq<Stmt>, skills: set<string>, agents: set<string>)
    ensures |Refs(stmts, skills, agents)| ==
            Missing(NamedIn(stmts, false), skills) + Missing(NamedIn(stmts, true), agents)
    ensures Refs(stmts, skills, agents) == [] <==>
              && (forall x :: x in NamedIn(stmts, false) ==> x in skills)
              && (forall x :: x in NamedIn(stmts, true) ==> x in agents)
  {
    hide Refs, NamedIn;
    StmtsRefer(stmts, skills, agents);
    MissingZero(NamedIn(stmts, false), skills);
    MissingZero(NamedIn(stmts, true), agents);
  }
}
