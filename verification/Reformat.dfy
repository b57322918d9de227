/** Formatting what was parsed, and parsing that again, changes nothing. */
module Reformat {
  import opened OnInput
  import opened Lexer
  import opened Parser
  import opened Formatter
  import opened PrintedTokens
  import opened RoundTrip
  import opened CollectedText

  // ---- What the parser's results have in common ----

  ghost predicate Words(u: Unicode) {
    Sane(u) && NoSpaceInWords(u)
  }

  /** Every expression in s is text that lexes and is collected to itself, and no else is empty. */
  ghost predicate Sound(u: Unicode, s: Stmt)
    decreases s, 0
  {
    match s
    case UseSkill(_, params) => SoundParams(u, params)
    case Delegate(_) => true
    case Respond(_) => true
    case If(c, body, elseIfs, elseBody) =>
      && IsExpr(u, c, {LBrace}) && AllSound(u, body)
      && (forall i :: 0 <= i < |elseIfs| ==> IsExpr(u, elseIfs[i].condition, {LBrace}) && AllSound(u, elseIfs[i].body))
      && (match elseBody case NoElse => true case Else(b) => b != [] && AllSound(u, b))
    case ForEach(_, c, body) => IsExpr(u, c, {LBrace}) && AllSound(u, body)
  }

  ghost predicate AllSound(u: Unicode, stmts: seq<Stmt>)
    decreases stmts, 1
  {
    forall i :: 0 <= i < |stmts| ==> Sound(u, stmts[i])
  }

  ghost predicate SoundParams(u: Unicode, params: map<string, string>) {
    forall k :: k in params ==> IsExpr(u, params[k], {Comma, RBrace, Newline})
  }

  ghost predicate SoundElses(u: Unicode, elseIfs: seq<ElseIf>, e: Else) {
    && (forall i :: 0 <= i < |elseIfs| ==> IsExpr(u, elseIfs[i].condition, {LBrace}) && AllSound(u, elseIfs[i].body))
    && (e.Else? ==> e.body != [] && AllSound(u, e.body))
  }

  // ---- The tokens that expressions are collected from ----

  /** String literals with neither quotes nor backslashes in them. */
  ghost predicate PlainStrings(ts: seq<Token>) {
    forall i :: 0 <= i < |ts| && ts[i].kind == String ==> PlainString(ts[i].literal)
  }

  /** The strings are plain in the expression that is collected from ts. */
  ghost predicate PlainExpr(ts: seq<Token>, stops: set<Kind>) {
    PlainStrings(ts[..StopIndex(ts, stops)])
  }

  /** The same for every expression among the parameters parsed from ts, and so on for the other constructs. The text
      of a response is no such expression. */
  ghost predicate PlainParams(ts: seq<Token>)
    decreases |ts|
  {
    if ts == [] || At(ts, RBrace) then true else
      var t := SkipNewlines(ts);
      if At(t, RBrace) then true else
      var value := ExpectToken(ExpectName(t).rest, Colon).rest;
      var rest := CollectUntil(value, {Comma, RBrace, Newline}).rest;
      && PlainExpr(value, {Comma, RBrace, Newline})
      && PlainParams(SkipNewlines(if At(rest, Comma) then rest[1..] else rest))
  }

  ghost predicate PlainUse(ts: seq<Token>)
    requires At(ts, KwUse)
  {
    var rest := ExpectName(if At(ts[1..], KwSkill) then ts[2..] else ts[1..]).rest;
    At(rest, KwWith) ==> PlainParams(SkipNewlines(ExpectToken(rest[1..], LBrace).rest))
  }

  ghost predicate PlainBody(ts: seq<Token>)
    decreases |ts|, 3
  {
    PlainStmts(SkipNewlines(ExpectToken(ts, LBrace).rest))
  }

  ghost predicate PlainIf(ts: seq<Token>)
    requires At(ts, KwIf)
    decreases |ts|, 0
  {
    var rest := CollectUntil(ts[1..], {LBrace}).rest;
    PlainExpr(ts[1..], {LBrace}) && PlainBody(rest) && PlainElses(SkipNewlines(ParseBody(rest).rest))
  }

  ghost predicate PlainElses(ts: seq<Token>)
    decreases |ts|, 4
  {
    At(ts, KwElse) ==>
      if At(ts[1..], KwIf) then
        var rest := CollectUntil(ts[2..], {LBrace}).rest;
        PlainExpr(ts[2..], {LBrace}) && PlainBody(rest) && PlainElses(SkipNewlines(ParseBody(rest).rest))
      else PlainBody(ts[1..])
  }

  /** The tokens a for-each collection is read from. */
  function Collection(ts: seq<Token>): (r: seq<Token>)
    requires At(ts, KwFor)
    ensures |r| < |ts|
  {
    var name := ExpectName(if At(ts[1..], KwEach) then ts[2..] else ts[1..]);
    if At(name.rest, KwIn) then name.rest[1..] else name.rest
  }

  ghost predicate PlainFor(ts: seq<Token>)
    requires At(ts, KwFor)
    decreases |ts|, 0
  {
    PlainExpr(Collection(ts), {LBrace}) && PlainBody(CollectUntil(Collection(ts), {LBrace}).rest)
  }

  ghost predicate PlainStmt(ts: seq<Token>)
    decreases |ts|, 1
  {
    if At(ts, KwUse) then PlainUse(ts)
    else if At(ts, KwIf) then PlainIf(ts)
    else if At(ts, KwFor) then PlainFor(ts)
    else true
  }

  ghost predicate PlainStmts(ts: seq<Token>)
    decreases |ts|, 2
  {
    if ts == [] || At(ts, RBrace) then true else
      var t := SkipNewlines(ts);
      if At(t, RBrace) then true
      else PlainStmt(t) && PlainStmts(SkipNewlines(ParseStmt(t).rest))
  }

  ghost predicate PlainBlock(ts: seq<Token>) {
    PlainBody(if At(ts, KwInput) then ts[1..] else ts)
  }

  lemma Suffix(u: Unicode, ts: seq<Token>, k: nat)
    requires AllMade(u, ts) && k <= |ts|
    ensures AllMade(u, ts[k..])
  {
  }

  lemma {:induction false} SkipSound(u: Unicode, ts: seq<Token>)
    requires AllMade(u, ts)
    ensures AllMade(u, SkipNewlines(ts))
  {
    hide AllMade;
    if At(ts, Newline) {
      Suffix(u, ts, 1);
      SkipSound(u, ts[1..]);
    }
  }

  lemma ExpectSound(u: Unicode, ts: seq<Token>, k: Kind)
    requires AllMade(u, ts)
    ensures AllMade(u, ExpectToken(ts, k).rest)
  {
    hide AllMade, SkipNewlines;
    SkipSound(u, ts);
    if At(SkipNewlines(ts), k) {
      Suffix(u, SkipNewlines(ts), 1);
    }
  }

  lemma NameSound(u: Unicode, ts: seq<Token>)
    requires AllMade(u, ts)
    ensures AllMade(u, ExpectName(ts).rest)
  {
    hide AllMade;
    if ts != [] {
      Suffix(u, ts, 1);
    }
  }

  lemma CollectSound(u: Unicode, ts: seq<Token>, stops: set<Kind>)
    requires Words(u) && AllMade(u, ts)
    ensures var r := CollectUntil(ts, stops); AllMade(u, r.rest)
    ensures PlainExpr(ts, stops) ==> IsExpr(u, CollectUntil(ts, stops).value, stops)
  {
    hide Collect, LexExact, PlainString, NumberLike, IdentLike, LookupKeyword;
    var i := StopIndex(ts, stops);
    Suffix(u, ts, i);
    if PlainExpr(ts, stops) {
      assert AllLexical(u, ts[..i]);
      CollectedSurvives(u, ts[..i], stops);
    }
  }

  lemma {:induction false} ParamsSound(u: Unicode, ts: seq<Token>, params: map<string, string>)
    requires Words(u) && AllMade(u, ts) && SoundParams(u, params) && PlainParams(ts)
    ensures var r := ParseParams(ts, params); AllMade(u, r.rest) && SoundParams(u, r.value)
    decreases |ts|
  {
    hide AllMade, SkipNewlines, ExpectName, ExpectToken, CollectUntil, Words, IsExpr, PlainExpr;
    if ts != [] && !At(ts, RBrace) {
      var t := SkipNewlines(ts);
      SkipSound(u, ts);
      if !At(t, RBrace) {
        NameSound(u, t);
        var key := ExpectName(t);
        ExpectSound(u, key.rest, Colon);
        var colon := ExpectToken(key.rest, Colon);
        CollectSound(u, colon.rest, {Comma, RBrace, Newline});
        var value := CollectUntil(colon.rest, {Comma, RBrace, Newline});
        var next := if At(value.rest, Comma) then value.rest[1..] else value.rest;
        if At(value.rest, Comma) {
          Suffix(u, value.rest, 1);
        }
        SkipSound(u, next);
        Shrinks(ts, t, key.rest);
        ParamsSound(u, SkipNewlines(next), params[key.value := value.value]);
      }
    }
  }

  /** The loop of the parameters gets shorter even when only newlines are left. */
  lemma Shrinks(ts: seq<Token>, t: seq<Token>, rest: seq<Token>)
    requires ts != [] && t == SkipNewlines(ts) && rest == ExpectName(t).rest
    ensures |rest| < |ts|
  {
  }

  lemma AfterWord(u: Unicode, ts: seq<Token>, k: Kind)
    requires AllMade(u, ts) && ts != []
    ensures AllMade(u, if At(ts[1..], k) then ts[2..] else ts[1..])
  {
    hide AllMade;
    Suffix(u, ts, 1);
    if At(ts[1..], k) {
      Suffix(u, ts, 2);
    }
  }

  lemma UseSound(u: Unicode, ts: seq<Token>)
    requires Words(u) && AllMade(u, ts) && At(ts, KwUse) && PlainUse(ts)
    ensures var r := ParseUseSkill(ts); AllMade(u, r.rest) && Sound(u, r.value)
  {
    hide AllMade, SkipNewlines, ExpectName, ExpectToken, ParseParams, Words, IsExpr, PlainParams;
    AfterWord(u, ts, KwSkill);
    var named := if At(ts[1..], KwSkill) then ts[2..] else ts[1..];
    NameSound(u, named);
    var name := ExpectName(named);
    if At(name.rest, KwWith) {
      Suffix(u, name.rest, 1);
      ExpectSound(u, name.rest[1..], LBrace);
      var open := ExpectToken(name.rest[1..], LBrace);
      SkipSound(u, open.rest);
      ParamsSound(u, SkipNewlines(open.rest), map[]);
      ExpectSound(u, ParseParams(SkipNewlines(open.rest), map[]).rest, RBrace);
    }
  }

  lemma DelegateSound(u: Unicode, ts: seq<Token>)
    requires AllMade(u, ts) && At(ts, KwDelegate)
    ensures var r := ParseDelegateTo(ts); AllMade(u, r.rest) && Sound(u, r.value)
  {
    hide AllMade, ExpectName;
    AfterWord(u, ts, KwTo);
    NameSound(u, if At(ts[1..], KwTo) then ts[2..] else ts[1..]);
  }

  lemma RespondSound(u: Unicode, ts: seq<Token>)
    requires Words(u) && AllMade(u, ts) && At(ts, KwRespond)
    ensures var r := ParseRespond(ts); AllMade(u, r.rest) && Sound(u, r.value)
  {
    hide AllMade, CollectUntil, Words;
    Suffix(u, ts, 1);
    if At(ts[1..], String) {
      Suffix(u, ts, 2);
    } else {
      CollectSound(u, ts[1..], {Newline, RBrace});
    }
  }

  lemma {:induction false} BodySound(u: Unicode, ts: seq<Token>)
    requires Words(u) && AllMade(u, ts) && PlainBody(ts)
    ensures var r := ParseBody(ts); AllMade(u, r.rest) && AllSound(u, r.value)
    decreases |ts|, 3
  {
    hide AllMade, SkipNewlines, ExpectToken, ParseStmts, Words, AllSound, PlainStmts;
    ExpectSound(u, ts, LBrace);
    var open := ExpectToken(ts, LBrace);
    SkipSound(u, open.rest);
    StmtsSound(u, SkipNewlines(open.rest));
    ExpectSound(u, ParseStmts(SkipNewlines(open.rest)).rest, RBrace);
  }

  lemma {:induction false} IfSound(u: Unicode, ts: seq<Token>)
    requires Words(u) && AllMade(u, ts) && At(ts, KwIf) && PlainIf(ts)
    ensures var r := ParseIf(ts); AllMade(u, r.rest) && Sound(u, r.value)
    decreases |ts|, 0
  {
    hide AllMade, SkipNewlines, CollectUntil, ParseBody, ParseElses, Words, AllSound, IsExpr, PlainExpr, PlainBody,
         PlainElses;
    Suffix(u, ts, 1);
    CollectSound(u, ts[1..], {LBrace});
    var cond := CollectUntil(ts[1..], {LBrace});
    BodySound(u, cond.rest);
    var body := ParseBody(cond.rest);
    SkipSound(u, body.rest);
    ElsesSound(u, SkipNewlines(body.rest));
  }

  lemma {:induction false} ElsesSound(u: Unicode, ts: seq<Token>)
    requires Words(u) && AllMade(u, ts) && PlainElses(ts)
    ensures var r := ParseElses(ts); AllMade(u, r.rest) && SoundElses(u, r.value.0, r.value.1)
    decreases |ts|, 4
  {
    hide AllMade, SkipNewlines, CollectUntil, ParseBody, Words, AllSound, IsExpr, PlainExpr, PlainBody;
    if At(ts, KwElse) {
      Suffix(u, ts, 1);
      if At(ts[1..], KwIf) {
        Suffix(u, ts, 2);
        CollectSound(u, ts[2..], {LBrace});
        var cond := CollectUntil(ts[2..], {LBrace});
        BodySound(u, cond.rest);
        var body := ParseBody(cond.rest);
        SkipSound(u, body.rest);
        ElsesSound(u, SkipNewlines(body.rest));
      } else {
        BodySound(u, ts[1..]);
      }
    }
  }

  lemma CollectionSound(u: Unicode, ts: seq<Token>)
    requires AllMade(u, ts) && At(ts, KwFor)
    ensures AllMade(u, Collection(ts))
  {
    hide AllMade, ExpectName;
    AfterWord(u, ts, KwEach);
    var named := if At(ts[1..], KwEach) then ts[2..] else ts[1..];
    NameSound(u, named);
    if At(ExpectName(named).rest, KwIn) {
      Suffix(u, ExpectName(named).rest, 1);
    }
  }

  lemma {:induction false} ForSound(u: Unicode, ts: seq<Token>)
    requires Words(u) && AllMade(u, ts) && At(ts, KwFor) && PlainFor(ts)
    ensures var r := ParseForEach(ts); AllMade(u, r.rest) && Sound(u, r.value)
    decreases |ts|, 0
  {
    hide AllMade, ExpectName, CollectUntil, ParseBody, Words, AllSound, IsExpr, PlainExpr, PlainBody;
    CollectionSound(u, ts);
    CollectSound(u, Collection(ts), {LBrace});
    BodySound(u, CollectUntil(Collection(ts), {LBrace}).rest);
  }

  lemma {:induction false} StmtSound(u: Unicode, ts: seq<Token>)
    requires Words(u) && AllMade(u, ts) && PlainStmt(ts)
    ensures var r := ParseStmt(ts); AllMade(u, r.rest) && (r.value.Some? ==> Sound(u, r.value.value))
    decreases |ts|, 1
  {
    hide AllMade, ParseUseSkill, ParseDelegateTo, ParseRespond, ParseIf, ParseForEach, Words, Sound, PlainUse,
         PlainIf, PlainFor;
    if At(ts, KwUse) {
      UseSound(u, ts);
    } else if At(ts, KwDelegate) {
      DelegateSound(u, ts);
    } else if At(ts, KwRespond) {
      RespondSound(u, ts);
    } else if At(ts, KwIf) {
      IfSound(u, ts);
    } else if At(ts, KwFor) {
      ForSound(u, ts);
    } else if ts != [] {
      Suffix(u, ts, 1);
    }
  }

  lemma {:induction false} StmtsSound(u: Unicode, ts: seq<Token>)
    requires Words(u) && AllMade(u, ts) && PlainStmts(ts)
    ensures var r := ParseStmts(ts); AllMade(u, r.rest) && AllSound(u, r.value)
    decreases |ts|, 2
  {
    hide AllMade, SkipNewlines, ParseStmt, Words, Sound, PlainStmt;
    if ts != [] && !At(ts, RBrace) {
      var t := SkipNewlines(ts);
      SkipSound(u, ts);
      if !At(t, RBrace) {
        StmtSound(u, t);
        var one := ParseStmt(t);
        SkipSound(u, one.rest);
        OneShrinks(ts, t);
        StmtsSound(u, SkipNewlines(one.rest));
      }
    }
  }

  lemma OneShrinks(ts: seq<Token>, t: seq<Token>)
    requires ts != [] && t == SkipNewlines(ts)
    ensures |ParseStmt(t).rest| < |ts|
  {
    hide ParseStmt;
  }

  lemma BlockSound(u: Unicode, ts: seq<Token>)
    requires Words(u) && AllMade(u, ts) && PlainBlock(ts)
    ensures AllSound(u, ParseOnInputBlock(ts).value)
  {
    hide AllMade, ParseBody, Words, AllSound, PlainBody;
    if At(ts, KwInput) {
      Suffix(u, ts, 1);
    }
    BodySound(u, if At(ts, KwInput) then ts[1..] else ts);
  }

  // ---- Stability ----

  /** Every name in s is one unquoted token, and every response can be quoted without loss. */
  ghost predicate Named(u: Unicode, s: Stmt)
    decreases s, 0
  {
    match s
    case UseSkill(skill, params) => IsName(u, skill) && forall k :: k in params ==> IsName(u, k)
    case Delegate(agent) => IsName(u, agent)
    case Respond(e) => IsPlainText(u, e)
    case If(_, body, elseIfs, elseBody) =>
      && AllNamed(u, body) && (forall i :: 0 <= i < |elseIfs| ==> AllNamed(u, elseIfs[i].body))
      && (match elseBody case NoElse => true case Else(b) => AllNamed(u, b))
    case ForEach(x, _, body) => IsName(u, x) && AllNamed(u, body)
  }

  ghost predicate AllNamed(u: Unicode, stmts: seq<Stmt>)
    decreases stmts, 1
  {
    forall i :: 0 <= i < |stmts| ==> Named(u, stmts[i])
  }

  lemma {:induction false} SoundPrintable(u: Unicode, s: Stmt)
    requires Sound(u, s) && Named(u, s)
    ensures Printable(u, s) && NoEmptyElse(s)
    decreases s, 0
  {
    hide IsName, IsExpr, IsPlainText, AllPrintable;
    match s
    case If(c, body, elseIfs, elseBody) =>
      AllSoundPrintable(u, body);
      forall i | 0 <= i < |elseIfs| ensures PrintableElseIf(u, elseIfs[i]) && NoEmptyElses(elseIfs[i].body) {
        AllSoundPrintable(u, elseIfs[i].body);
      }
      if elseBody.Else? {
        AllSoundPrintable(u, elseBody.body);
      }
    case ForEach(x, c, body) => AllSoundPrintable(u, body);
    case _ =>
  }

  lemma {:induction false} AllSoundPrintable(u: Unicode, stmts: seq<Stmt>)
    requires AllSound(u, stmts) && AllNamed(u, stmts)
    ensures AllPrintable(u, stmts) && NoEmptyElses(stmts)
    ensures forall i :: 0 <= i < |stmts| ==> Printable(u, stmts[i])
    decreases stmts, 1
  {
    hide Sound, Named, Printable, NoEmptyElse;
    forall i | 0 <= i < |stmts| ensures Printable(u, stmts[i]) && NoEmptyElse(stmts[i]) {
      SoundPrintable(u, stmts[i]);
    }
  }

  lemma LexedMade(u: Unicode, source: string)
    requires Lex(u, source).Some?
    ensures AllMade(u, Lex(u, source).value)
  {
    hide Lex, Made;
    LexMakes(u, source);
  }

  /** Whatever text a block was parsed from: parsing its formatted form reports no error and gives the same
      block, so formatting once more gives the same text. */
  lemma FormattingIsStable(u: Unicode, source: string, indent: string)
    requires Words(u) && Blanks(indent) && Lex(u, source).Some?
    requires At(Lex(u, source).value, KwOn) && PlainBlock(Lex(u, source).value[1..])
    requires AllNamed(u, ParseOnInputBlock(Lex(u, source).value[1..]).value)
    ensures var block := ParseOnInputBlock(Lex(u, source).value[1..]).value;
            var again := Lex(u, FormatBlock(u, block, indent));
            && again.Some? && At(again.value, KwOn)
            && ParseOnInputBlock(again.value[1..]) == Parsed(block, [NL], [])
  {
    hide Lex, ParseOnInputBlock, FormatBlock, AllMade, AllNamed, AllSound, PlainBlock, AllPrintable,
         NoEmptyElses, NormAll;
    var ts := Lex(u, source).value;
    LexedMade(u, source);
    Suffix(u, ts, 1);
    BlockSound(u, ts[1..]);
    var block := ParseOnInputBlock(ts[1..]).value;
    AllSoundPrintable(u, block);
    PrintThenParse(u, block, indent);
  }
}
