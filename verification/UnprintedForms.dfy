/** Forms of statements that the formatter never writes but the parser reads: responses without quotes, optional words
    left out, and parameters on lines of their own. */
module UnprintedForms {
  import opened Wrappers
  import opened OnInput
  import opened Lexer
  import opened Parser
  import opened PrintedTokens
  import opened RoundTrip

  // ---- Responses ----

  lemma RespondStep(ts: seq<Token>, e: string, r: seq<Token>)
    requires At(ts, KwRespond) && !At(ts[1..], String) && CollectUntil(ts[1..], {Newline, RBrace}) == Parsed(e, r, [])
    ensures ParseStmt(ts) == Parsed(Some(Respond(e)), r, [])
  {
    hide CollectUntil;
  }

  /** `respond x` for an expression x that does not start with a string gives exactly x. */
  lemma RespondReads(u: Unicode, x: string, rest: seq<Token>)
    requires IsExpr(u, x, {Newline, RBrace}) && !At(TokensOf(u, x), String)
    requires rest != [] && rest[0].kind in {Newline, RBrace}
    ensures ParseStmt([Key("respond")] + (TokensOf(u, x) + rest)) == Parsed(Some(Respond(x)), rest, [])
  {
    hide IsExpr, TokensOf, CollectUntil, LookupKeyword;
    CallKeywords();
    StartsPlain(TokensOf(u, x), rest);
    Past(Key("respond"), TokensOf(u, x) + rest);
    ReadsExpr(u, x, rest, {Newline, RBrace});
    hide ParseStmt;
    RespondStep([Key("respond")] + (TokensOf(u, x) + rest), x, rest);
  }

  lemma StartsPlain(ts: seq<Token>, rest: seq<Token>)
    requires !At(ts, String) && rest != [] && rest[0].kind in {Newline, RBrace}
    ensures !At(ts + rest, String)
  {
    if ts == [] {
      assert ts + rest == rest;
    } else {
      assert (ts + rest)[0] == ts[0];
    }
  }

  /** `respond "s"` gives s, whatever follows. */
  lemma RespondLiteral(s: string, rest: seq<Token>)
    ensures ParseStmt([Key("respond")] + ([Token(String, s)] + rest)) == Parsed(Some(Respond(s)), rest, [])
  {
    hide CollectUntil, LookupKeyword;
    CallKeywords();
    Past(Key("respond"), [Token(String, s)] + rest);
    Past(Token(String, s), rest);
    assert ([Key("respond")] + ([Token(String, s)] + rest))[2..] == rest;
  }

  // ---- Optional words ----

  lemma Skipping(a: Token, b: Token, r: seq<Token>)
    ensures ([a] + r)[1..] == r && ([a] + ([b] + r))[1..] == [b] + r && ([a] + ([b] + r))[2..] == r
    ensures ([a] + r)[0] == a && ([a] + ([b] + r))[0] == a && ([b] + r)[0] == b
  {
  }

  /** `use x` is `use skill x`. */
  lemma UseWithoutSkill(r: seq<Token>)
    requires !At(r, KwSkill)
    ensures ParseStmt([Key("use")] + r) == ParseStmt([Key("use")] + ([Key("skill")] + r))
  {
    hide ExpectName, ExpectToken, ParseParams, SkipNewlines, LookupKeyword;
    UseKeywords();
    Skipping(Key("use"), Key("skill"), r);
  }

  /** `delegate x` is `delegate to x`. */
  lemma DelegateWithoutTo(r: seq<Token>)
    requires !At(r, KwTo)
    ensures ParseStmt([Key("delegate")] + r) == ParseStmt([Key("delegate")] + ([Key("to")] + r))
  {
    hide ExpectName, LookupKeyword;
    CallKeywords();
    Skipping(Key("delegate"), Key("to"), r);
  }

  /** `for x in c` is `for each x in c`. */
  lemma ForWithoutEach(r: seq<Token>)
    requires !At(r, KwEach)
    ensures ParseStmt([Key("for")] + r) == ParseStmt([Key("for")] + ([Key("each")] + r))
  {
    hide ExpectName, CollectUntil, ParseBody, LookupKeyword;
    ForKeywords();
    Skipping(Key("for"), Key("each"), r);
  }

  // ---- Parameters ----

  /** What may stand between two parameters: a comma, newlines, or a comma and newlines. */
  ghost predicate Separator(sep: seq<Token>) {
    && sep != [] && sep[0].kind in {Comma, Newline}
    && forall i :: 1 <= i < |sep| ==> sep[i].kind == Newline
  }

  /** The separators after each parameter; the last one may be left out. */
  ghost predicate Separators(seps: seq<seq<Token>>) {
    forall i :: 0 <= i < |seps| ==> Separator(seps[i]) || (i == |seps| - 1 && seps[i] == [])
  }

  ghost predicate Readable(u: Unicode, ps: seq<(string, string)>) {
    forall i :: 0 <= i < |ps| ==> IsName(u, ps[i].0) && IsExpr(u, ps[i].1, {Comma, RBrace, Newline})
  }

  ghost function ParamList(u: Unicode, ps: seq<(string, string)>, seps: seq<seq<Token>>, rest: seq<Token>): seq<Token>
    requires |seps| == |ps|
  {
    if ps == [] then rest else
      TokensOf(u, ps[0].0) + ([Token(Colon, ":")] + (TokensOf(u, ps[0].1) + (seps[0] +
      ParamList(u, ps[1..], seps[1..], rest))))
  }

  /** The parameters put in one after another; a later one replaces an earlier one of the same name. */
  ghost function PutAll(ps: seq<(string, string)>, acc: map<string, string>): map<string, string> {
    if ps == [] then acc else PutAll(ps[1..], acc[ps[0].0 := ps[0].1])
  }

  lemma {:induction false} NewlinesSkipped(sep: seq<Token>, more: seq<Token>)
    requires (forall i :: 0 <= i < |sep| ==> sep[i].kind == Newline) && more != [] && more[0].kind != Newline
    ensures SkipNewlines(sep + more) == more
    decreases sep
  {
    if sep == [] {
      assert sep + more == more;
    } else {
      assert (sep + more)[0] == sep[0] && (sep + more)[1..] == sep[1..] + more;
      NewlinesSkipped(sep[1..], more);
    }
  }

  lemma SeparatorSkipped(sep: seq<Token>, more: seq<Token>)
    requires Separator(sep) || (sep == [] && Closing(more))
    requires more != [] && more[0].kind != Newline
    ensures SkipNewlines(if At(sep + more, Comma) then (sep + more)[1..] else sep + more) == more
    ensures sep + more != [] && (sep + more)[0].kind in {Comma, RBrace, Newline}
  {
    hide SkipNewlines;
    if sep == [] {
      assert sep + more == more;
      NewlinesSkipped([], more);
    } else {
      assert (sep + more)[0] == sep[0] && (sep + more)[1..] == sep[1..] + more;
      if sep[0].kind == Comma {
        NewlinesSkipped(sep[1..], more);
      } else {
        NewlinesSkipped(sep, more);
      }
    }
  }

  lemma ListHead(u: Unicode, ps: seq<(string, string)>, seps: seq<seq<Token>>, rest: seq<Token>)
    requires |seps| == |ps| && Readable(u, ps) && Closing(rest)
    ensures var ts := ParamList(u, ps, seps, rest);
            ts != [] && ts[0].kind != Newline && (ps != [] ==> ts[0].kind != RBrace) && (ps == [] ==> Closing(ts))
  {
    hide IsName, IsExpr, TokensOf, ExpectName;
    if ps != [] {
      ReadsName(u, ps[0].0, []);
      assert ParamList(u, ps, seps, rest)[0] == TokensOf(u, ps[0].0)[0];
    }
  }

  /** Parameters are read whatever separates them. */
  lemma {:induction false} ParamsRead(u: Unicode, ps: seq<(string, string)>, seps: seq<seq<Token>>, rest: seq<Token>,
                                      acc: map<string, string>)
    requires |seps| == |ps| && Readable(u, ps) && Separators(seps) && Closing(rest)
    ensures ParseParams(ParamList(u, ps, seps, rest), acc) == Parsed(PutAll(ps, acc), rest, [])
    decreases ps
  {
    hide IsName, IsExpr, TokensOf, CollectUntil, ExpectName, ExpectToken, SkipNewlines;
    if ps != [] {
      var more := ParamList(u, ps[1..], seps[1..], rest);
      var after := seps[0] + more;
      var value := TokensOf(u, ps[0].1) + after;
      var colon := Token(Colon, ":");
      ListHead(u, ps, seps, rest);
      ListHead(u, ps[1..], seps[1..], rest);
      assert |ps| > 1 ==> seps[0] != [];
      SeparatorSkipped(seps[0], more);
      ReadsName(u, ps[0].0, [colon] + value);
      Past(colon, value);
      ReadsExpr(u, ps[0].1, after, {Comma, RBrace, Newline});
      hide ParseParams;
      ParamStep(ParamList(u, ps, seps, rest), acc, ps[0].0, [colon] + value, ps[0].1, value, after);
      ParamsRead(u, ps[1..], seps[1..], rest, acc[ps[0].0 := ps[0].1]);
    }
  }

  // ---- Errors ----

  /** A token that starts no statement is reported and passed over; the statements after it are read all the same. */
  lemma JunkSkipped(t: Token, r: seq<Token>)
    requires t.kind !in {KwUse, KwDelegate, KwRespond, KwIf, KwFor, RBrace, Newline}
    ensures var p, q := ParseStmts([t] + r), ParseStmts(SkipNewlines(r));
            p.value == q.value && p.rest == q.rest && |p.errors| == |q.errors| + 1 && p.errors[1..] == q.errors
  {
    hide ParseStmt, ParseStmts, SkipNewlines;
    Past(t, r);
    JunkStmt(t, r);
    StmtsStep([t] + r);
    var q := ParseStmts(SkipNewlines(r));
    assert [] + q.value == q.value;
  }

  lemma JunkStmt(t: Token, r: seq<Token>)
    requires t.kind !in {KwUse, KwDelegate, KwRespond, KwIf, KwFor}
    ensures var p := ParseStmt([t] + r); p.value == None && p.rest == r && |p.errors| == 1
  {
    hide ParseUseSkill, ParseDelegateTo, ParseRespond, ParseIf, ParseForEach;
    Past(t, r);
  }

  lemma StmtsStep(ts: seq<Token>)
    requires ts != [] && ts[0].kind !in {RBrace, Newline}
    ensures var one := ParseStmt(ts);
            var more := ParseStmts(SkipNewlines(one.rest));
            ParseStmts(ts) == Parsed((if one.value.Some? then [one.value.value] else []) + more.value, more.rest,
                                     one.errors + more.errors)
  {
    hide ParseStmt;
  }

  /** A for-each without `in` is read as one with it, and reported. */
  lemma MissingIn(u: Unicode, x: string, r: seq<Token>)
    requires IsName(u, x) && !At(r, KwIn)
    ensures var p := ParseStmt([Key("for")] + ([Key("each")] + (TokensOf(u, x) + r)));
            var q := ParseStmt([Key("for")] + ([Key("each")] + (TokensOf(u, x) + ([Key("in")] + r))));
            p.value == q.value && p.rest == q.rest && |p.errors| == |q.errors| + 1 && p.errors[1..] == q.errors
  {
    hide IsName, TokensOf, ExpectName, CollectUntil, ParseBody, LookupKeyword;
    ForKeywords();
    Skipping(Key("for"), Key("each"), TokensOf(u, x) + r);
    Skipping(Key("for"), Key("each"), TokensOf(u, x) + ([Key("in")] + r));
    ReadsName(u, x, r);
    ReadsName(u, x, [Key("in")] + r);
    Past(Key("in"), r);
    hide ParseStmt;
    ForStepIn([Key("for")] + ([Key("each")] + (TokensOf(u, x) + r)), x, r);
    ForStepIn([Key("for")] + ([Key("each")] + (TokensOf(u, x) + ([Key("in")] + r))), x, [Key("in")] + r);
  }

  lemma ForStepIn(ts: seq<Token>, x: string, r: seq<Token>)
    requires |ts| >= 2 && ts[0].kind == KwFor && ts[1].kind == KwEach && ExpectName(ts[2..]) == Parsed(x, r, [])
    ensures var coll := CollectUntil(if At(r, KwIn) then r[1..] else r, {LBrace});
            var body := ParseBody(coll.rest);
            ParseStmt(ts) == Parsed(Some(ForEach(x, coll.value, body.value)), body.rest,
                                    (if At(r, KwIn) then [] else ["expected 'in' in for each loop"]) + body.errors)
  {
    hide ExpectName, CollectUntil, ParseBody, ParseStmt;
    ForIs(ts);
    assert ts[1..][0] == ts[1];
    var missing := if At(r, KwIn) then [] else ["expected 'in' in for each loop"];
    assert [] + missing == missing;
  }

  lemma ForIs(ts: seq<Token>)
    requires At(ts, KwFor)
    ensures ParseStmt(ts) == Wrap(ParseForEach(ts))
  {
    hide ParseForEach;
  }
}
