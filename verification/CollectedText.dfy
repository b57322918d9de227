/** The text the parser puts expressions back together to lexes, and is put back together, to itself. */
module CollectedText {
  import opened Wrappers
  import opened Lexer
  import opened Parser
  import Strings

  // ---- Tokens as the lexer makes them ----

  /** Strings are plain when they read the same with no escapes. */
  predicate PlainString(s: string) {
    forall i :: 0 <= i < |s| ==> s[i] != '"' && s[i] != '\\'
  }

  predicate NumberStart(s: string) {
    s != "" && (IsNumeral(s[0]) || (s[0] == '-' && |s| > 1 && IsNumeral(s[1])))
  }

  function SymbolOf(k: Kind): Option<string> {
    match k
    case Newline => Some("\n")
    case LBrace => Some("{")
    case RBrace => Some("}")
    case LBracket => Some("[")
    case RBracket => Some("]")
    case LParen => Some("(")
    case RParen => Some(")")
    case Comma => Some(",")
    case Dot => Some(".")
    case Colon => Some(":")
    case Equal => Some("==")
    case NotEqual => Some("!=")
    case Greater => Some(">")
    case GreaterEq => Some(">=")
    case Less => Some("<")
    case LessEq => Some("<=")
    case _ => None
  }

  ghost predicate IdentLike(u: Unicode, s: string) {
    s != "" && IdentStart(u, s[0]) && forall i :: 1 <= i < |s| ==> IdentPart(u, s[i])
  }

  ghost predicate NumberLike(s: string) {
    NumberStart(s) && forall i :: 1 <= i < |s| ==> NumberPart(s[i])
  }

  ghost predicate Lexical(u: Unicode, t: Token) {
    match SymbolOf(t.kind)
    case Some(s) => t.literal == s
    case None =>
      if t.kind == String then PlainString(t.literal)
      else if t.kind == Number then NumberLike(t.literal)
      else IdentLike(u, t.literal) && t.kind == LookupKeyword(t.literal)
  }

  function Spell(t: Token): string {
    if t.kind == String then "\"" + t.literal + "\"" else t.literal
  }

  predicate EndsWithDot(t: Token) {
    t.kind != String && t.literal != "" && t.literal[|t.literal| - 1] == '.'
  }

  /** What stands between two tokens of an expression. */
  function Sep(t: Token, next: Token): string {
    if next.kind == Dot || (next.kind != String && EndsWithDot(t)) then "" else " "
  }

  /** next can follow t with nothing but Sep between them and still be a token of its own. */
  ghost predicate Apart(t: Token, next: Token) {
    t.kind == Number ==> next.kind != Dot && (EndsWithDot(t) ==> next.kind != Number)
  }

  function TextOf(ts: seq<Token>): string {
    if ts == [] then "" else if |ts| == 1 then Spell(ts[0]) else Spell(ts[0]) + Sep(ts[0], ts[1]) + TextOf(ts[1..])
  }

  /** No newlines, and neighbours that stay apart. */
  ghost predicate Canonical(u: Unicode, ts: seq<Token>) {
    && (forall i :: 0 <= i < |ts| ==> Lexical(u, ts[i]) && ts[i].kind != Newline)
    && (forall i :: 0 <= i < |ts| - 1 ==> Apart(ts[i], ts[i + 1]))
  }

  // ---- Each token is read back ----

  /** x cannot extend t. */
  ghost predicate Stops(u: Unicode, t: Token, x: string) {
    x == "" || t.kind in {String, Dot} || x[0] == ' ' || (x[0] == '.' && t.kind != Number)
    || (t.kind == Number && !NumberPart(x[0]))
  }

  lemma {:induction false} IdentLengthIs(u: Unicode, s: string, x: string)
    requires Sane(u) && (forall i :: 0 <= i < |s| ==> IdentPart(u, s[i]))
    requires x == "" || x[0] == ' ' || x[0] == '.'
    ensures IdentLength(u, s + x) == |s|
  {
    if s == "" {
      assert s + x == x;
    } else {
      assert (s + x)[1..] == s[1..] + x;
      IdentLengthIs(u, s[1..], x);
    }
  }

  lemma {:induction false} NumberLengthIs(s: string, x: string)
    requires (forall i :: 0 <= i < |s| ==> NumberPart(s[i])) && (x == "" || !NumberPart(x[0]))
    ensures NumberLength(s + x) == |s|
  {
    if s == "" {
      assert s + x == x;
    } else {
      assert (s + x)[1..] == s[1..] + x;
      NumberLengthIs(s[1..], x);
    }
  }

  lemma {:induction false} PlainScan(s: string, x: string, text: string)
    requires PlainString(s)
    ensures ScanString(s + "\"" + x, text) == Tok(Token(String, text + s), x)
    decreases |s|
  {
    var all := s + "\"" + x;
    if s == "" {
      assert all[1..] == x && text + s == text;
    } else {
      assert all[1..] == s[1..] + "\"" + x;
      PlainScan(s[1..], x, text + [s[0]]);
      assert text + [s[0]] + s[1..] == text + s;
    }
  }

  lemma NextIdent(u: Unicode, t: Token, x: string)
    requires Sane(u) && IdentLike(u, t.literal) && t.kind == LookupKeyword(t.literal)
    requires x == "" || x[0] == ' ' || x[0] == '.'
    ensures Next(u, t.literal + x) == Tok(t, x)
  {
    hide LookupKeyword;
    var s := t.literal + x;
    var c := s[0];
    assert s[1..] == t.literal[1..] + x;
    IdentLengthIs(u, t.literal[1..], x);
    assert SkipBlank(s) == s;
    assert s[..|t.literal|] == t.literal && s[|t.literal|..] == x;
  }

  lemma NextNumber(u: Unicode, t: Token, x: string)
    requires t.kind == Number && NumberLike(t.literal) && (x == "" || !NumberPart(x[0]))
    ensures Next(u, t.literal + x) == Tok(t, x)
  {
    var s := t.literal + x;
    assert s[1..] == t.literal[1..] + x;
    NumberLengthIs(t.literal[1..], x);
    assert |t.literal| > 1 ==> s[1] == t.literal[1];
    assert SkipBlank(s) == s;
    assert s[..|t.literal|] == t.literal && s[|t.literal|..] == x;
  }

  lemma NextString(u: Unicode, t: Token, x: string)
    requires t.kind == String && PlainString(t.literal)
    ensures Next(u, Spell(t) + x) == Tok(t, x)
  {
    hide PlainString;
    var y := t.literal + "\"" + x;
    var s := Spell(t) + x;
    assert s == "\"" + y;
    PlainScan(t.literal, x, "");
    assert "" + t.literal == t.literal;
    assert t == Token(String, t.literal);
    NextQuote(u, y);
  }

  lemma NextQuote(u: Unicode, y: string)
    ensures Next(u, "\"" + y) == ScanString(y, "")
  {
    var s := "\"" + y;
    assert s[0] == '"' && s[1..] == y;
    assert SkipBlank(s) == s;
  }

  lemma NextSymbol(u: Unicode, t: Token, x: string)
    requires SymbolOf(t.kind) == Some(t.literal)
    requires t.kind in {Greater, Less} ==> x == "" || x[0] != '='
    ensures Next(u, t.literal + x) == Tok(t, x)
  {
    var s := t.literal + x;
    var n := |t.literal|;
    assert s[..n] == t.literal && s[n..] == x;
    assert s[0] == t.literal[0] && (n > 1 ==> s[1] == t.literal[1]) && (n == 1 && x != "" ==> s[1] == x[0]);
    assert SkipBlank(s) == s;
  }

  lemma NextSpelled(u: Unicode, t: Token, x: string)
    requires Sane(u) && Lexical(u, t) && Stops(u, t, x)
    ensures Next(u, Spell(t) + x) == Tok(t, x)
  {
    hide Next, LookupKeyword, IdentLike, NumberLike, PlainString;
    if SymbolOf(t.kind).Some? {
      NextSymbol(u, t, x);
    } else if t.kind == String {
      NextString(u, t, x);
    } else if t.kind == Number {
      NextNumber(u, t, x);
    } else {
      NextIdent(u, t, x);
    }
  }

  lemma DotEnds(u: Unicode, t: Token)
    requires Sane(u) && Lexical(u, t) && EndsWithDot(t)
    ensures t.kind in {Dot, Number}
  {
    hide LookupKeyword;
  }

  lemma SpelledStart(u: Unicode, t: Token)
    requires Sane(u) && Lexical(u, t)
    ensures Spell(t) != "" && (t.kind !in {Dot, Number} ==> !NumberPart(Spell(t)[0]))
    ensures t.kind == Dot ==> Spell(t) == "."
  {
    hide LookupKeyword;
  }

  lemma SepStops(u: Unicode, t: Token, next: Token, rest: string)
    requires Sane(u) && Lexical(u, t) && Lexical(u, next) && Apart(t, next)
    ensures Stops(u, t, Sep(t, next) + (Spell(next) + rest))
  {
    hide Lexical, Spell, EndsWithDot;
    SpelledStart(u, next);
    var x := Sep(t, next) + (Spell(next) + rest);
    if Sep(t, next) == "" {
      assert x == Spell(next) + rest;
      assert x[0] == Spell(next)[0];
      if next.kind != Dot {
        DotEnds(u, t);
      }
    }
  }

  lemma ExactStep(u: Unicode, t: Token, x: string)
    requires Sane(u) && Lexical(u, t) && Stops(u, t, x) && LexExact(u, x).Some?
    ensures LexExact(u, Spell(t) + x) == Some([t] + LexExact(u, x).value)
  {
    hide Lexical, Stops, Next;
    NextSpelled(u, t, x);
    assert Spell(t) + x != "" by { SpelledStart(u, t); }
  }

  lemma ExactBlank(u: Unicode, x: string)
    requires x != ""
    ensures LexExact(u, " " + x) == LexExact(u, x)
  {
    assert (" " + x)[1..] == x;
    assert Next(u, " " + x) == Next(u, x);
  }

  ghost predicate BeginsWith(y: string, t: Token) {
    |Spell(t)| <= |y| && y == Spell(t) + y[|Spell(t)|..]
  }

  lemma TextStep(u: Unicode, t: Token, next: Token, y: string)
    requires Sane(u) && Lexical(u, t) && Lexical(u, next) && Apart(t, next)
    requires BeginsWith(y, next) && LexExact(u, y).Some?
    ensures LexExact(u, Spell(t) + (Sep(t, next) + y)) == Some([t] + LexExact(u, y).value)
  {
    hide Lexical, Stops, LexExact, Spell, Apart;
    var sep := Sep(t, next);
    SpelledStart(u, next);
    SepStops(u, t, next, y[|Spell(next)|..]);
    if sep == " " {
      ExactBlank(u, y);
    } else {
      assert sep + y == y;
    }
    ExactStep(u, t, sep + y);
  }

  lemma TextCons(ts: seq<Token>)
    requires |ts| > 1
    ensures TextOf(ts) == Spell(ts[0]) + (Sep(ts[0], ts[1]) + TextOf(ts[1..]))
  {
    hide Spell, Sep;
  }

  lemma BeginsCons(t: Token, x: string)
    ensures BeginsWith(Spell(t) + x, t)
  {
    hide Spell;
    assert (Spell(t) + x)[|Spell(t)|..] == x;
  }

  lemma {:induction false} TextLexes(u: Unicode, ts: seq<Token>)
    requires Sane(u) && Canonical(u, ts)
    ensures LexExact(u, TextOf(ts)) == Some(ts)
    ensures ts != [] ==> BeginsWith(TextOf(ts), ts[0])
    decreases ts
  {
    hide Lexical, Stops, LexExact, Spell, Apart, BeginsWith, Sep;
    if ts == [] {
      ExactNothing(u);
    } else if |ts| == 1 {
      ExactNothing(u);
      StopsAtEnd(u, ts[0]);
      ExactStep(u, ts[0], "");
      assert Spell(ts[0]) + "" == Spell(ts[0]) && [ts[0]] + [] == ts;
      BeginsCons(ts[0], "");
    } else {
      TextLexes(u, ts[1..]);
      var y := TextOf(ts[1..]);
      TextCons(ts);
      TextStep(u, ts[0], ts[1], y);
      BeginsCons(ts[0], Sep(ts[0], ts[1]) + y);
      assert [ts[0]] + ts[1..] == ts;
    }
  }

  lemma ExactNothing(u: Unicode)
    ensures LexExact(u, "") == Some([])
  {
  }

  lemma StopsAtEnd(u: Unicode, t: Token)
    ensures Stops(u, t, "")
  {
  }

  // ---- Collecting canonical tokens gives their text ----

  lemma {:induction false} JoinAppend(parts: seq<string>, p: string)
    ensures Join(parts + [p]) == if parts == [] then p else Join(parts) + " " + p
  {
    if parts == [] {
      assert parts + [p] == [p];
    } else if |parts| == 1 {
      assert (parts + [p])[1..] == [p];
      assert Join([p]) == p;
    } else {
      assert (parts + [p])[1..] == parts[1..] + [p];
      JoinAppend(parts[1..], p);
    }
  }

  lemma {:induction false} JoinExtend(parts: seq<string>, x: string)
    requires parts != []
    ensures var last := |parts| - 1; Join(parts[last := parts[last] + x]) == Join(parts) + x
  {
    hide Join;
    var n := |parts| - 1;
    var front := parts[..n];
    assert parts == front + [parts[n]];
    assert parts[n := parts[n] + x] == front + [parts[n] + x];
    JoinAppend(front, parts[n]);
    JoinAppend(front, parts[n] + x);
  }

  lemma {:induction false} TextAppend(ts: seq<Token>, t: Token)
    requires ts != []
    ensures TextOf(ts + [t]) == TextOf(ts) + Sep(ts[|ts| - 1], t) + Spell(t)
  {
    hide Spell, Sep;
    if |ts| == 1 {
      assert (ts + [t])[1..] == [t];
    } else {
      assert (ts + [t])[1..] == ts[1..] + [t];
      TextAppend(ts[1..], t);
    }
  }

  ghost predicate LastDot(parts: seq<string>) {
    parts != [] && parts[|parts| - 1] != "" && parts[|parts| - 1][|parts[|parts| - 1]| - 1] == '.'
  }

  lemma AddCases(parts: seq<string>, t: Token)
    requires t.kind != Newline
    ensures t.kind == String ==> AddPart(parts, t) == parts + [Spell(t)]
    ensures t.kind == Dot && parts != [] ==> AddPart(parts, t) == parts[|parts| - 1 := parts[|parts| - 1] + "."]
    ensures t.kind == Dot && parts == [] ==> AddPart(parts, t) == []
    ensures t.kind !in {String, Dot} && LastDot(parts) ==>
              AddPart(parts, t) == parts[|parts| - 1 := parts[|parts| - 1] + t.literal]
    ensures t.kind !in {String, Dot} && !LastDot(parts) ==> AddPart(parts, t) == parts + [t.literal]
  {
  }

  lemma PartsSnoc(ts: seq<Token>, t: Token)
    ensures Parts(ts + [t]) == AddPart(Parts(ts), t)
  {
    assert (ts + [t])[..|ts|] == ts;
  }

  /** The last part ends as the last token does. */
  ghost predicate Tracks(parts: seq<string>, t: Token) {
    parts != [] && parts[|parts| - 1] != "" && (LastDot(parts) <==> EndsWithDot(t))
  }

  lemma AddTracks(u: Unicode, parts: seq<string>, t: Token)
    requires Sane(u) && Lexical(u, t) && t.kind != Newline && (t.kind == Dot ==> parts != [])
    ensures Tracks(AddPart(parts, t), t)
  {
    hide Lexical, AddPart;
    AddCases(parts, t);
    SpelledStart(u, t);
    var after := AddPart(parts, t);
    var p := after[|after| - 1];
    if t.kind == String {
      assert p == Spell(t) && p[|p| - 1] == '"';
    } else if t.kind == Dot {
      assert t.literal == Spell(t) == ".";
      assert p[|p| - 1] == '.';
    } else {
      assert t.literal == Spell(t) != "";
      assert p[|p| - 1] == t.literal[|t.literal| - 1];
    }
  }

  lemma AddJoin(u: Unicode, front: seq<Token>, t: Token)
    requires Sane(u) && front != [] && Lexical(u, t) && t.kind != Newline
    requires Tracks(Parts(front), front[|front| - 1]) && Join(Parts(front)) == TextOf(front)
    ensures Join(AddPart(Parts(front), t)) == TextOf(front + [t])
  {
    hide Lexical, AddPart, Join, TextOf, EndsWithDot, Parts;
    var parts := Parts(front);
    var l := front[|front| - 1];
    TextAppend(front, t);
    AddCases(parts, t);
    SpelledStart(u, t);
    if t.kind == Dot {
      JoinExtend(parts, ".");
      assert TextOf(front) + "" == TextOf(front);
    } else if t.kind != String && EndsWithDot(l) {
      JoinExtend(parts, t.literal);
      assert TextOf(front) + "" == TextOf(front);
    } else {
      JoinAppend(parts, Spell(t));
    }
  }

  lemma {:induction false} PartsText(u: Unicode, ts: seq<Token>)
    requires Sane(u) && Canonical(u, ts) && ts != [] && ts[0].kind != Dot
    ensures Tracks(Parts(ts), ts[|ts| - 1]) && Join(Parts(ts)) == TextOf(ts)
    decreases ts
  {
    hide Lexical, AddPart, Tracks, Parts, Join, TextOf, Sane, Canonical;
    var n := |ts| - 1;
    var front, t := ts[..n], ts[n];
    assert ts == front + [t];
    PartsSnoc(front, t);
    CanonicalFront(u, ts);
    if front == [] {
      NoPart();
      AddTracks(u, [], t);
      AddCases([], t);
      FirstPart(t);
      assert ts == [t];
    } else {
      PartsText(u, front);
      assert Parts(front) != [] by { TracksSome(Parts(front), front[|front| - 1]); }
      AddTracks(u, Parts(front), t);
      AddJoin(u, front, t);
    }
  }

  lemma CanonicalFront(u: Unicode, ts: seq<Token>)
    requires Canonical(u, ts) && ts != []
    ensures var n := |ts| - 1; Canonical(u, ts[..n]) && Lexical(u, ts[n]) && ts[n].kind != Newline
  {
    hide Lexical;
  }

  lemma TracksSome(parts: seq<string>, t: Token)
    requires Tracks(parts, t)
    ensures parts != []
  {
  }

  lemma FirstPart(t: Token)
    ensures [] + [Spell(t)] == [Spell(t)] && Join([Spell(t)]) == Spell(t) && TextOf([t]) == Spell(t)
    ensures !LastDot([])
    ensures t.kind != String ==> Spell(t) == t.literal
  {
  }

  // ---- Any tokens collect like canonical ones ----

  function AddToken(acc: seq<Token>, t: Token): seq<Token> {
    if t.kind == Newline then acc
    else if acc == [] then (if t.kind == Dot then [] else [t])
    else
      var n := |acc| - 1;
      if acc[n].kind == Number && (t.kind == Dot || (t.kind == Number && EndsWithDot(acc[n]))) then
        acc[..n] + [Token(Number, acc[n].literal + t.literal)]
      else acc + [t]
  }

  /** Newlines and leading dots dropped, numbers run together with the dots after them. */
  function Canon(ts: seq<Token>): seq<Token> {
    if ts == [] then [] else AddToken(Canon(ts[..|ts| - 1]), ts[|ts| - 1])
  }

  lemma MergedNumber(u: Unicode, l: Token, t: Token)
    requires Lexical(u, l) && l.kind == Number && Lexical(u, t) && t.kind in {Dot, Number}
    ensures Lexical(u, Token(Number, l.literal + t.literal))
  {
    var s := l.literal + t.literal;
    assert s[0] == l.literal[0] && (|l.literal| > 1 ==> s[1] == l.literal[1]);
  }

  /** The parts of f and a number, then t run into it. */
  lemma MergedParts(u: Unicode, f: seq<Token>, l: Token, t: Token)
    requires Sane(u) && Lexical(u, l) && l.kind == Number && Lexical(u, t)
    requires t.kind == Dot || (t.kind == Number && EndsWithDot(l))
    ensures Parts(f + [Token(Number, l.literal + t.literal)]) == AddPart(Parts(f + [l]), t)
  {
    hide Lexical, AddPart, Parts;
    var m := Token(Number, l.literal + t.literal);
    var parts := Parts(f);
    PartsSnoc(f, l);
    PartsSnoc(f, m);
    AddCases(parts, l);
    AddCases(parts, m);
    var one := AddPart(parts, l);
    AddTracks(u, parts, l);
    AddCases(one, t);
    SpelledStart(u, t);
    var n := |one| - 1;
    assert AddPart(one, t) == one[n := one[n] + t.literal];
    if LastDot(parts) {
      var k := |parts| - 1;
      assert one[n] + t.literal == parts[k] + (l.literal + t.literal);
    } else {
      assert one == parts + [l.literal];
    }
  }

  ghost predicate Free(ts: seq<Token>, stops: set<Kind>) {
    forall i :: 0 <= i < |ts| ==> ts[i].kind !in stops
  }

  ghost predicate AllLexical(u: Unicode, ts: seq<Token>) {
    forall i :: 0 <= i < |ts| ==> Lexical(u, ts[i])
  }

  ghost predicate Starts(ts: seq<Token>) {
    ts != [] ==> ts[0].kind != Dot
  }

  lemma AddCanonical(u: Unicode, acc: seq<Token>, t: Token, stops: set<Kind>)
    requires Sane(u) && Canonical(u, acc) && Starts(acc) && Lexical(u, t) && Free(acc, stops) && t.kind !in stops
    ensures var r := AddToken(acc, t); Canonical(u, r) && Starts(r) && Free(r, stops)
  {
    hide Lexical;
    if acc != [] && t.kind != Newline {
      var n := |acc| - 1;
      var l := acc[n];
      if l.kind == Number && (t.kind == Dot || (t.kind == Number && EndsWithDot(l))) {
        MergedNumber(u, l, t);
        var r := AddToken(acc, t);
        assert r == acc[n := Token(Number, l.literal + t.literal)];
      }
    }
  }

  lemma AddParts(u: Unicode, acc: seq<Token>, t: Token)
    requires Sane(u) && Canonical(u, acc) && Lexical(u, t)
    ensures Parts(AddToken(acc, t)) == AddPart(Parts(acc), t)
  {
    hide Lexical, AddPart, Parts;
    if t.kind == Newline {
      AddNewline(Parts(acc), t);
    } else if acc == [] {
      NoPart();
      AddCases([], t);
      PartsSnoc([], t);
      assert [] + [t] == [t];
    } else {
      var n := |acc| - 1;
      assert acc == acc[..n] + [acc[n]];
      if acc[n].kind == Number && (t.kind == Dot || (t.kind == Number && EndsWithDot(acc[n]))) {
        MergedParts(u, acc[..n], acc[n], t);
      } else {
        PartsSnoc(acc, t);
      }
    }
  }

  lemma AddNewline(parts: seq<string>, t: Token)
    requires t.kind == Newline
    ensures AddPart(parts, t) == parts
  {
  }

  lemma NoPart()
    ensures Parts([]) == []
  {
  }

  lemma {:induction false} CanonIs(u: Unicode, ts: seq<Token>, stops: set<Kind>)
    requires Sane(u) && AllLexical(u, ts) && Free(ts, stops)
    ensures Canonical(u, Canon(ts)) && Starts(Canon(ts)) && Free(Canon(ts), stops)
    ensures Parts(Canon(ts)) == Parts(ts)
  {
    hide Lexical, AddPart, AddToken;
    if ts != [] {
      var n := |ts| - 1;
      CanonIs(u, ts[..n], stops);
      AddCanonical(u, Canon(ts[..n]), ts[n], stops);
      AddParts(u, Canon(ts[..n]), ts[n]);
    }
  }

  // ---- Expressions survive ----

  /** No letter or digit is white space. */
  ghost predicate NoSpaceInWords(u: Unicode) {
    forall c :: Strings.IsSpace(c) ==> !u.isLetter(c) && !u.isDigit(c)
  }

  ghost predicate TightEnds(s: string) {
    s != "" && !Strings.IsSpace(s[0]) && !Strings.IsSpace(s[|s| - 1])
  }

  lemma SpelledTight(u: Unicode, t: Token)
    requires Sane(u) && NoSpaceInWords(u) && Lexical(u, t) && t.kind != Newline
    ensures TightEnds(Spell(t))
  {
    hide LookupKeyword;
  }

  lemma {:induction false} TextTight(u: Unicode, ts: seq<Token>)
    requires Sane(u) && NoSpaceInWords(u) && Canonical(u, ts) && ts != []
    ensures TightEnds(TextOf(ts))
    decreases ts
  {
    hide Lexical, Spell, NoSpaceInWords, Strings.IsSpace, Sep;
    SpelledTight(u, ts[0]);
    if |ts| > 1 {
      TextTight(u, ts[1..]);
      var s := TextOf(ts);
      assert s[0] == Spell(ts[0])[0] && s[|s| - 1] == TextOf(ts[1..])[|TextOf(ts[1..])| - 1];
    }
  }

  lemma TrimTight(s: string)
    requires TightEnds(s)
    ensures Strings.TrimSpace(s) == s
  {
  }

  /** Text the parser collected lexes to tokens that it collects to the same text, without meeting a stop. */
  lemma CollectedSurvives(u: Unicode, ts: seq<Token>, stops: set<Kind>)
    requires Sane(u) && NoSpaceInWords(u) && AllLexical(u, ts) && Free(ts, stops)
    ensures var again := LexExact(u, Collect(ts));
            again.Some? && Collect(again.value) == Collect(ts) && Free(again.value, stops)
  {
    hide AllLexical, Canonical, Free, Parts, LexExact, Canon, NoSpaceInWords, TightEnds;
    var c := Canon(ts);
    CanonIs(u, ts, stops);
    if c == [] {
      NoPart();
      ExactNothing(u);
      assert Strings.TrimSpace("") == "";
      assert Free([], stops) by { FreeNothing(stops); }
    } else {
      PartsText(u, c);
      TextTight(u, c);
      TrimTight(TextOf(c));
      TextLexes(u, c);
    }
  }

  lemma FreeNothing(stops: set<Kind>)
    ensures Free([], stops)
  {
  }

  // ---- The lexer makes such tokens ----

  /** Strings are the only tokens that may not be plain. */
  ghost predicate Made(u: Unicode, t: Token) {
    t.kind == String || Lexical(u, t)
  }

  lemma {:induction false} ScanStringKind(s: string, text: string)
    requires ScanString(s, text).Tok?
    ensures ScanString(s, text).token.kind == String
    decreases |s|
  {
    if s[0] == '"' {
    } else if s[0] == '\\' {
      ScanStringKind(s[2..], text + Unescape(s[1]));
    } else {
      ScanStringKind(s[1..], text + [s[0]]);
    }
  }

  lemma {:induction false} IdentLengthParts(u: Unicode, s: string)
    ensures forall i :: 0 <= i < IdentLength(u, s) ==> IdentPart(u, s[i])
  {
    if s != "" && IdentPart(u, s[0]) {
      IdentLengthParts(u, s[1..]);
    }
  }

  lemma {:induction false} NumberLengthParts(s: string)
    ensures forall i :: 0 <= i < NumberLength(s) ==> NumberPart(s[i])
  {
    if s != "" && NumberPart(s[0]) {
      NumberLengthParts(s[1..]);
    }
  }

  lemma KeywordKind(s: string)
    ensures SymbolOf(LookupKeyword(s)) == None && LookupKeyword(s) !in {String, Number}
  {
  }

  lemma NumberMade(u: Unicode, s: string)
    requires NumberStart(s)
    ensures Lexical(u, Token(Number, s[..1 + NumberLength(s[1..])]))
  {
    NumberLengthParts(s[1..]);
    var l := s[..1 + NumberLength(s[1..])];
    if !IsNumeral(s[0]) {
      assert NumberPart(s[1..][0]);
      assert NumberLength(s[1..]) >= 1;
    }
    assert forall i :: 1 <= i < |l| ==> l[i] == s[1..][i - 1];
  }

  lemma IdentMade(u: Unicode, s: string)
    requires s != "" && IdentStart(u, s[0])
    ensures var l := s[..1 + IdentLength(u, s[1..])]; Lexical(u, Token(LookupKeyword(l), l))
  {
    hide LookupKeyword;
    IdentLengthParts(u, s[1..]);
    var l := s[..1 + IdentLength(u, s[1..])];
    assert forall i :: 1 <= i < |l| ==> l[i] == s[1..][i - 1];
    KeywordKind(l);
  }

  predicate IsPunctuation(c: char) {
    c in "\n{}[](),.:"
  }

  predicate IsOperator(c: char) {
    c in "=!><"
  }

  lemma PunctuationMade(u: Unicode, s: string)
    requires s != "" && IsPunctuation(s[0])
    ensures ScanToken(u, s).Tok? && Lexical(u, ScanToken(u, s).token)
  {
    hide LookupKeyword, ScanString, IdentStart, IdentLike, NumberLike, PlainString;
    assert s[..1] == [s[0]];
  }

  lemma OperatorMade(u: Unicode, s: string)
    requires s != "" && IsOperator(s[0]) && ScanToken(u, s).Tok?
    ensures Lexical(u, ScanToken(u, s).token)
  {
    hide LookupKeyword, ScanString, IdentStart, IdentLike, NumberLike, PlainString;
    assert |s| > 1 ==> s[..2] == [s[0], s[1]];
    assert s[..1] == [s[0]];
  }

  lemma NumberScanned(u: Unicode, s: string)
    requires NumberStart(s)
    ensures ScanToken(u, s) == Symbol(Number, s, 1 + NumberLength(s[1..]))
  {
    hide LookupKeyword, ScanString, IdentStart;
  }

  lemma WordScanned(u: Unicode, s: string)
    requires s != "" && !NumberStart(s) && s[0] != '"' && !IsOperator(s[0])
    requires !IsPunctuation(s[0])
    ensures var n := 1 + IdentLength(u, s[1..]);
            ScanToken(u, s) == if IdentStart(u, s[0]) then Symbol(LookupKeyword(s[..n]), s, n) else Bad
  {
    hide LookupKeyword, ScanString, IdentStart;
  }

  lemma QuoteScanned(u: Unicode, s: string)
    requires s != "" && s[0] == '"'
    ensures ScanToken(u, s) == ScanString(s[1..], "")
  {
    hide LookupKeyword, ScanString, IdentStart;
  }

  lemma ScanTokenMade(u: Unicode, s: string)
    requires s != "" && ScanToken(u, s).Tok?
    ensures Made(u, ScanToken(u, s).token)
  {
    hide LookupKeyword, ScanString, IdentStart, Lexical, ScanToken, NumberStart, SymbolOf;
    var c := s[0];
    if c == '"' {
      QuoteScanned(u, s);
      ScanStringKind(s[1..], "");
    } else if NumberStart(s) {
      NumberScanned(u, s);
      NumberMade(u, s);
    } else if IsPunctuation(c) {
      PunctuationMade(u, s);
    } else if IsOperator(c) {
      OperatorMade(u, s);
    } else {
      WordScanned(u, s);
      IdentMade(u, s);
    }
  }

  /** Every token the lexer returns is a string or lexes to itself. */
  lemma {:induction false} LexMakes(u: Unicode, s: string)
    requires Lex(u, s).Some?
    ensures forall i :: 0 <= i < |Lex(u, s).value| ==> Made(u, Lex(u, s).value[i])
    decreases |s|
  {
    hide ScanToken, Made;
    var t := SkipBlank(s);
    if t != "" {
      ScanTokenMade(u, t);
      LexMakes(u, ScanToken(u, t).rest);
    }
  }

  // ---- The collected text, token by token ----

  ghost predicate AllMade(u: Unicode, ts: seq<Token>) {
    forall i :: 0 <= i < |ts| ==> Made(u, ts[i])
  }

  ghost predicate TightParts(parts: seq<string>) {
    forall i :: 0 <= i < |parts| ==> TightEnds(parts[i])
  }

  lemma MadeTight(u: Unicode, t: Token)
    requires Sane(u) && NoSpaceInWords(u) && Made(u, t) && t.kind != Newline
    ensures TightEnds(Spell(t)) && (t.kind == Dot ==> t.literal == ".")
  {
    hide Lexical, NoSpaceInWords;
    if t.kind != String {
      SpelledTight(u, t);
      SpelledStart(u, t);
    }
  }

  lemma AddTight(u: Unicode, parts: seq<string>, t: Token)
    requires Sane(u) && NoSpaceInWords(u) && TightParts(parts) && Made(u, t)
    ensures TightParts(AddPart(parts, t))
  {
    hide Made, NoSpaceInWords, AddPart;
    if t.kind == Newline {
      AddNewline(parts, t);
    } else {
      MadeTight(u, t);
      AddCases(parts, t);
    }
  }

  lemma {:induction false} PartsTight(u: Unicode, ts: seq<Token>)
    requires Sane(u) && NoSpaceInWords(u) && AllMade(u, ts)
    ensures TightParts(Parts(ts))
    decreases ts
  {
    hide Made, NoSpaceInWords, AddPart, TightParts;
    if ts == [] {
      assert TightParts([]) by { NoParts(); }
    } else {
      PartsTight(u, ts[..|ts| - 1]);
      AddTight(u, Parts(ts[..|ts| - 1]), ts[|ts| - 1]);
    }
  }

  lemma NoParts()
    ensures TightParts([])
  {
  }

  lemma {:induction false} JoinTight(parts: seq<string>)
    requires TightParts(parts) && parts != []
    ensures TightEnds(Join(parts))
    ensures Join(parts)[|Join(parts)| - 1] == parts[|parts| - 1][|parts[|parts| - 1]| - 1]
    decreases parts
  {
    if |parts| > 1 {
      JoinTight(parts[1..]);
    }
  }

  lemma CollectIsJoin(u: Unicode, ts: seq<Token>)
    requires Sane(u) && NoSpaceInWords(u) && AllMade(u, ts)
    ensures TightParts(Parts(ts)) && Collect(ts) == Join(Parts(ts))
    ensures Collect(ts) == "" <==> Parts(ts) == []
    ensures LastDot(Parts(ts)) <==> Collect(ts) != "" && Collect(ts)[|Collect(ts)| - 1] == '.'
  {
    hide Made, NoSpaceInWords, Parts;
    PartsTight(u, ts);
    if Parts(ts) == [] {
      assert Strings.TrimSpace("") == "";
    } else {
      JoinTight(Parts(ts));
      TrimTight(Join(Parts(ts)));
    }
  }

  /** How one more token changes the collected text: a newline leaves it, a dot sticks to what stands before it, and
      anything else is set off by one blank, except at the start and after a dot. Strings keep their quotes. */
  lemma CollectNext(u: Unicode, ts: seq<Token>, t: Token)
    requires Sane(u) && NoSpaceInWords(u) && AllMade(u, ts) && Made(u, t)
    ensures Collect([]) == ""
    ensures var before, after := Collect(ts), Collect(ts + [t]);
            var blank := if before == "" then "" else " ";
            match t.kind
            case Newline => after == before
            case Dot => after == if before == "" then "" else before + "."
            case String => after == before + blank + "\"" + t.literal + "\""
            case _ => after == before + (if before != "" && before[|before| - 1] == '.' then "" else blank) + t.literal
  {
    hide Made, NoSpaceInWords, AddPart, Collect, Join, Parts, LastDot, TightParts;
    NoPart();
    CollectIsJoin(u, []);
    CollectIsJoin(u, ts);
    CollectIsJoin(u, ts + [t]);
    PartsSnoc(ts, t);
    JoinNext(Parts(ts), t);
  }

  lemma JoinNext(parts: seq<string>, t: Token)
    ensures var before, after := Join(parts), Join(AddPart(parts, t));
            var blank := if parts == [] then "" else " ";
            && Join([]) == ""
            && match t.kind
               case Newline => after == before
               case Dot => after == if parts == [] then "" else before + "."
               case String => after == before + blank + "\"" + t.literal + "\""
               case _ => after == before + (if LastDot(parts) then "" else blank) + t.literal
  {
    hide AddPart, Join;
    NothingJoined();
    if t.kind == Newline {
      AddNewline(parts, t);
    } else {
      AddCases(parts, t);
      if t.kind == String || (t.kind != Dot && !LastDot(parts)) {
        JoinAppend(parts, Spell(t));
        assert parts == [] ==> "" + Spell(t) == Spell(t);
      } else if parts != [] {
        JoinExtend(parts, if t.kind == Dot then "." else t.literal);
      }
    }
  }

  lemma NothingJoined()
    ensures Join([]) == ""
  {
  }
}
