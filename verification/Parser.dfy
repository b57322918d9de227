/** The `on input` part of internal/parser/parser.go. */
module Parser {
  import opened Wrappers
  import opened OnInput
  import opened Lexer
  import Strings

  /** What a parsing function leaves: its result, the tokens not consumed, the errors reported. */
  datatype Parsed<T> = Parsed(value: T, rest: seq<Token>, errors: seq<string>)

  predicate At(ts: seq<Token>, k: Kind) {
    ts != [] && ts[0].kind == k
  }

  function SkipNewlines(ts: seq<Token>): (r: seq<Token>)
    ensures |r| <= |ts|
  {
    if At(ts, Newline) then SkipNewlines(ts[1..]) else ts
  }

  /** expectToken: newlines before the token are passed over, a different token is left in place. */
  function ExpectToken(ts: seq<Token>, k: Kind): (r: Parsed<()>)
    ensures |r.rest| <= |ts|
  {
    var t := SkipNewlines(ts);
    if At(t, k) then Parsed((), t[1..], []) else Parsed((), t, ["unexpected token"])
  }

  /** Kinds from `TokenPackage` on, identifiers and strings may stand where a name is expected. */
  predicate NameKind(k: Kind) {
    k !in {Newline, Number, LBrace, RBrace, LBracket, RBracket, LParen, RParen, Comma, Dot}
  }

  function ExpectName(ts: seq<Token>): (r: Parsed<string>)
    ensures |r.rest| <= |ts| && (ts != [] ==> |r.rest| < |ts|)
  {
    if ts == [] then Parsed("", ts, ["expected string or identifier"])
    else Parsed(ts[0].literal, ts[1..], if NameKind(ts[0].kind) then [] else ["expected string or identifier"])
  }

  // ---- Expressions ----

  function AddPart(parts: seq<string>, t: Token): seq<string> {
    var last := |parts| - 1;
    match t.kind
    case Newline => parts
    case String => parts + ["\"" + t.literal + "\""]
    case Dot => if parts == [] then [] else parts[last := parts[last] + "."]
    case _ =>
      if parts != [] && parts[last] != "" && parts[last][|parts[last]| - 1] == '.'
      then parts[last := parts[last] + t.literal]
      else parts + [t.literal]
  }

  function Parts(ts: seq<Token>): seq<string> {
    if ts == [] then [] else AddPart(Parts(ts[..|ts| - 1]), ts[|ts| - 1])
  }

  function Join(parts: seq<string>): string {
    if parts == [] then "" else if |parts| == 1 then parts[0] else parts[0] + " " + Join(parts[1..])
  }

  /** The expression text that a run of tokens is put back together to. */
  function Collect(ts: seq<Token>): string {
    Strings.TrimSpace(Join(Parts(ts)))
  }

  function StopIndex(ts: seq<Token>, stops: set<Kind>): (i: nat)
    ensures i <= |ts|
    ensures i < |ts| ==> ts[i].kind in stops
    ensures forall j :: 0 <= j < i ==> ts[j].kind !in stops
  {
    if ts == [] || ts[0].kind in stops then 0 else 1 + StopIndex(ts[1..], stops)
  }

  function CollectUntil(ts: seq<Token>, stops: set<Kind>): (r: Parsed<string>)
    ensures |r.rest| <= |ts|
  {
    var i := StopIndex(ts, stops);
    Parsed(Collect(ts[..i]), ts[i..], [])
  }

  // ---- Statements ----

  function ParseParams(ts: seq<Token>, params: map<string, string>): (r: Parsed<map<string, string>>)
    ensures |r.rest| <= |ts|
    decreases |ts|
  {
    if ts == [] || At(ts, RBrace) then Parsed(params, ts, []) else
      var t := SkipNewlines(ts);
      if At(t, RBrace) then Parsed(params, t, []) else
      var key := ExpectName(t);
      var colon := ExpectToken(key.rest, Colon);
      var value := CollectUntil(colon.rest, {Comma, RBrace, Newline});
      var after := SkipNewlines(if At(value.rest, Comma) then value.rest[1..] else value.rest);
      var more := ParseParams(after, params[key.value := value.value]);
      Parsed(more.value, more.rest, key.errors + colon.errors + more.errors)
  }

  function ParseUseSkill(ts: seq<Token>): (r: Parsed<Stmt>)
    requires At(ts, KwUse)
    ensures |r.rest| < |ts|
  {
    var name := ExpectName(if At(ts[1..], KwSkill) then ts[2..] else ts[1..]);
    if !At(name.rest, KwWith) then Parsed(UseSkill(name.value, map[]), name.rest, name.errors) else
      var open := ExpectToken(name.rest[1..], LBrace);
      var params := ParseParams(SkipNewlines(open.rest), map[]);
      var close := ExpectToken(params.rest, RBrace);
      Parsed(UseSkill(name.value, params.value), close.rest, name.errors + open.errors + params.errors + close.errors)
  }

  function ParseDelegateTo(ts: seq<Token>): (r: Parsed<Stmt>)
    requires At(ts, KwDelegate)
    ensures |r.rest| < |ts|
  {
    var name := ExpectName(if At(ts[1..], KwTo) then ts[2..] else ts[1..]);
    Parsed(Delegate(name.value), name.rest, name.errors)
  }

  function ParseRespond(ts: seq<Token>): (r: Parsed<Stmt>)
    requires At(ts, KwRespond)
    ensures |r.rest| < |ts|
  {
    if At(ts[1..], String) then Parsed(Respond(ts[1].literal), ts[2..], [])
    else
      var e := CollectUntil(ts[1..], {Newline, RBrace});
      Parsed(Respond(e.value), e.rest, [])
  }

  /** `{` statements `}`. */
  function ParseBody(ts: seq<Token>): (r: Parsed<seq<Stmt>>)
    ensures |r.rest| <= |ts|
    decreases |ts|, 3
  {
    var open := ExpectToken(ts, LBrace);
    var body := ParseStmts(SkipNewlines(open.rest));
    var close := ExpectToken(body.rest, RBrace);
    Parsed(body.value, close.rest, open.errors + body.errors + close.errors)
  }

  function ParseIf(ts: seq<Token>): (r: Parsed<Stmt>)
    requires At(ts, KwIf)
    ensures |r.rest| < |ts|
    decreases |ts|, 0
  {
    var cond := CollectUntil(ts[1..], {LBrace});
    var body := ParseBody(cond.rest);
    var elses := ParseElses(SkipNewlines(body.rest));
    Parsed(If(cond.value, body.value, elses.value.0, elses.value.1), elses.rest, body.errors + elses.errors)
  }

  /** The else-if and else clauses; an empty else body is a nil slice, as if there were no else. */
  function ParseElses(ts: seq<Token>): (r: Parsed<(seq<ElseIf>, Else)>)
    ensures |r.rest| <= |ts|
    decreases |ts|, 4
  {
    if !At(ts, KwElse) then Parsed(([], NoElse), ts, [])
    else if At(ts[1..], KwIf) then
      var cond := CollectUntil(ts[2..], {LBrace});
      var body := ParseBody(cond.rest);
      var more := ParseElses(SkipNewlines(body.rest));
      Parsed(([ElseIf(cond.value, body.value)] + more.value.0, more.value.1), more.rest, body.errors + more.errors)
    else
      var body := ParseBody(ts[1..]);
      Parsed(([], if body.value == [] then NoElse else Else(body.value)), body.rest, body.errors)
  }

  function ParseForEach(ts: seq<Token>): (r: Parsed<Stmt>)
    requires At(ts, KwFor)
    ensures |r.rest| < |ts|
    decreases |ts|, 0
  {
    var name := ExpectName(if At(ts[1..], KwEach) then ts[2..] else ts[1..]);
    var has := At(name.rest, KwIn);
    var coll := CollectUntil(if has then name.rest[1..] else name.rest, {LBrace});
    var body := ParseBody(coll.rest);
    Parsed(ForEach(name.value, coll.value, body.value), body.rest,
           name.errors + (if has then [] else ["expected 'in' in for each loop"]) + body.errors)
  }

  /** One statement, or nothing when no statement starts here: then one token is passed over. */
  function ParseStmt(ts: seq<Token>): (r: Parsed<Option<Stmt>>)
    ensures |r.rest| <= |ts| && (ts != [] ==> |r.rest| < |ts|)
    decreases |ts|, 1
  {
    if At(ts, KwUse) then Wrap(ParseUseSkill(ts))
    else if At(ts, KwDelegate) then Wrap(ParseDelegateTo(ts))
    else if At(ts, KwRespond) then Wrap(ParseRespond(ts))
    else if At(ts, KwIf) then Wrap(ParseIf(ts))
    else if At(ts, KwFor) then Wrap(ParseForEach(ts))
    else Parsed(None, if ts == [] then ts else ts[1..], ["unexpected token in on input block"])
  }

  function Wrap(p: Parsed<Stmt>): (r: Parsed<Option<Stmt>>)
    ensures r.rest == p.rest
  {
    Parsed(Some(p.value), p.rest, p.errors)
  }

  function ParseStmts(ts: seq<Token>): (r: Parsed<seq<Stmt>>)
    ensures |r.rest| <= |ts|
    decreases |ts|, 2
  {
    if ts == [] || At(ts, RBrace) then Parsed([], ts, []) else
      var t := SkipNewlines(ts);
      if At(t, RBrace) then Parsed([], t, []) else
      var one := ParseStmt(t);
      var more := ParseStmts(SkipNewlines(one.rest));
      Parsed((if one.value.Some? then [one.value.value] else []) + more.value, more.rest, one.errors + more.errors)
  }

  /** parseOnInputBlock, called after `on` has been consumed. */
  function ParseOnInputBlock(ts: seq<Token>): Parsed<seq<Stmt>> {
    var has := At(ts, KwInput);
    var body := ParseBody(if has then ts[1..] else ts);
    body.(errors := (if has then [] else ["expected 'input' after 'on'"]) + body.errors)
  }
}
