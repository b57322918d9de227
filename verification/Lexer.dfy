/** The lexer of internal/parser/lexer.go on a sequence of characters. */
module Lexer {
  import opened Wrappers

  /** Token types the `on input` grammar tells apart. Keywords that only other blocks use are `Ident`
      here: the functions modelled treat the two alike. */
  datatype Kind = Newline | Ident | String | Number
    | LBrace | RBrace | LBracket | RBracket | LParen | RParen | Comma | Dot | Colon
    | Equal | NotEqual | Greater | GreaterEq | Less | LessEq
    | KwInput | KwSkill | KwTo | KwDelegate | KwIf | KwElse | KwFor | KwEach | KwIn | KwOn | KwUse | KwWith | KwRespond

  datatype Token = Token(kind: Kind, literal: string)

  /** The Unicode classes the lexer and `%q` consult. */
  datatype Unicode = Unicode(isLetter: char -> bool, isDigit: char -> bool, isPrint: char -> bool)

  /** On ASCII the classes are the usual ones. */
  ghost predicate Sane(u: Unicode) {
    && (forall c :: c < 128 as char ==> (u.isLetter(c) <==> 'a' <= c <= 'z' || 'A' <= c <= 'Z'))
    && (forall c :: c < 128 as char ==> (u.isDigit(c) <==> '0' <= c <= '9'))
    && (forall c :: c < 128 as char ==> (u.isPrint(c) <==> ' ' <= c <= '~'))
  }

  predicate IsNumeral(c: char) {
    '0' <= c <= '9'
  }

  predicate IdentStart(u: Unicode, c: char) {
    u.isLetter(c) || c == '_'
  }

  predicate IdentPart(u: Unicode, c: char) {
    u.isLetter(c) || u.isDigit(c) || c == '_' || c == '-'
  }

  predicate NumberPart(c: char) {
    IsNumeral(c) || c == '.' || c == '-'
  }

  function LookupKeyword(s: string): Kind {
    if s == "input" then KwInput else if s == "skill" then KwSkill else if s == "to" then KwTo
    else if s == "delegate" then KwDelegate else if s == "if" then KwIf else if s == "else" then KwElse
    else if s == "for" then KwFor else if s == "each" then KwEach else if s == "in" then KwIn
    else if s == "on" then KwOn else if s == "use" then KwUse else if s == "with" then KwWith
    else if s == "respond" then KwRespond else Ident
  }

  // ---- Blanks and comments ----

  function SkipLine(s: string): (r: string)
    ensures |r| <= |s|
  {
    if s == "" || s[0] == '\n' then s else SkipLine(s[1..])
  }

  predicate CommentStart(s: string) {
    s != "" && (s[0] == '#' || (s[0] == '/' && |s| > 1 && s[1] == '/'))
  }

  function SkipBlank(s: string): (r: string)
    ensures |r| <= |s|
    decreases |s|
  {
    if s == "" then s
    else if s[0] == ' ' || s[0] == '\t' || s[0] == '\r' then SkipBlank(s[1..])
    else if CommentStart(s) then SkipBlank(SkipLine(s[1..]))
    else s
  }

  // ---- One token ----

  datatype Scan = End | Tok(token: Token, rest: string) | Bad

  function IdentLength(u: Unicode, s: string): (n: nat)
    ensures n <= |s|
  {
    if s == "" || !IdentPart(u, s[0]) then 0 else 1 + IdentLength(u, s[1..])
  }

  function NumberLength(s: string): (n: nat)
    ensures n <= |s|
  {
    if s == "" || !NumberPart(s[0]) then 0 else 1 + NumberLength(s[1..])
  }

  function Unescape(c: char): string {
    match c
    case 'n' => "\n"
    case 't' => "\t"
    case '\\' => "\\"
    case '"' => "\""
    case _ => ['\\', c]
  }

  /** The rest of a string literal after its opening quote. */
  function ScanString(s: string, text: string): (r: Scan)
    ensures r.Tok? ==> |r.rest| < |s|
    ensures !r.End?
    decreases |s|
  {
    if s == "" then Bad
    else if s[0] == '"' then Tok(Token(String, text), s[1..])
    else if s[0] == '\\' then if |s| == 1 then Bad else ScanString(s[2..], text + Unescape(s[1]))
    else ScanString(s[1..], text + [s[0]])
  }

  function Symbol(kind: Kind, s: string, n: nat): (r: Scan)
    requires n <= |s|
    ensures r.Tok? && r.rest == s[n..]
  {
    Tok(Token(kind, s[..n]), s[n..])
  }

  function Follows(s: string, c: char): bool {
    |s| > 1 && s[1] == c
  }

  /** A token at the start of s, which is neither empty nor blank. */
  function ScanToken(u: Unicode, s: string): (r: Scan)
    requires s != ""
    ensures r.Tok? ==> |r.rest| < |s|
    ensures !r.End?
  {
    var c := s[0];
    if c == '\n' then Symbol(Newline, s, 1)
    else if c == '{' then Symbol(LBrace, s, 1)
    else if c == '}' then Symbol(RBrace, s, 1)
    else if c == '[' then Symbol(LBracket, s, 1)
    else if c == ']' then Symbol(RBracket, s, 1)
    else if c == '(' then Symbol(LParen, s, 1)
    else if c == ')' then Symbol(RParen, s, 1)
    else if c == ',' then Symbol(Comma, s, 1)
    else if c == '.' then Symbol(Dot, s, 1)
    else if c == '"' then ScanString(s[1..], "")
    else if IsNumeral(c) || (c == '-' && |s| > 1 && IsNumeral(s[1])) then Symbol(Number, s, 1 + NumberLength(s[1..]))
    else if c == ':' then Symbol(Colon, s, 1)
    else if c == '=' then if Follows(s, '=') then Symbol(Equal, s, 2) else Bad
    else if c == '!' then if Follows(s, '=') then Symbol(NotEqual, s, 2) else Bad
    else if c == '>' then if Follows(s, '=') then Symbol(GreaterEq, s, 2) else Symbol(Greater, s, 1)
    else if c == '<' then if Follows(s, '=') then Symbol(LessEq, s, 2) else Symbol(Less, s, 1)
    else if IdentStart(u, c) then
      var n := 1 + IdentLength(u, s[1..]);
      Symbol(LookupKeyword(s[..n]), s, n)
    else Bad
  }

  function Next(u: Unicode, s: string): (r: Scan)
    ensures r.Tok? ==> |r.rest| < |s|
  {
    var t := SkipBlank(s);
    if t == "" then End else ScanToken(u, t)
  }

  /** The tokens of s without the final EOF, None if some character fits no token. */
  function Lex(u: Unicode, s: string): Option<seq<Token>>
    decreases |s|
  {
    match Next(u, s)
    case End => Some([])
    case Bad => None
    case Tok(t, rest) =>
      match Lex(u, rest)
      case None => None
      case Some(ts) => Some([t] + ts)
  }

  /** The tokens of s when the last one ends with s, so that neither blanks nor a comment trail. */
  function LexExact(u: Unicode, s: string): Option<seq<Token>>
    decreases |s|
  {
    if s == "" then Some([]) else
    match Next(u, s)
    case Tok(t, rest) =>
      (match LexExact(u, rest)
       case None => None
       case Some(ts) => Some([t] + ts))
    case _ => None
  }

  // ---- Lexing is compositional at delimiters ----

  /** A character that ends any token before it. */
  predicate Delimiter(c: char) {
    c == ' ' || c == '\n' || c == ':' || c == ','
  }

  ghost predicate StartsDelimited(x: string) {
    x != "" && Delimiter(x[0])
  }

  lemma {:induction false} SkipLineAppend(s: string, x: string)
    requires SkipLine(s) != ""
    ensures SkipLine(s + x) == SkipLine(s) + x
  {
    if s[0] != '\n' {
      SkipLineAppend(s[1..], x);
      assert (s + x)[1..] == s[1..] + x;
    }
  }

  lemma {:induction false} SkipBlankAppend(s: string, x: string)
    requires SkipBlank(s) != "" && StartsDelimited(x)
    ensures SkipBlank(s + x) == SkipBlank(s) + x
    decreases |s|
  {
    assert (s + x)[1..] == s[1..] + x;
    if s[0] == ' ' || s[0] == '\t' || s[0] == '\r' {
      SkipBlankAppend(s[1..], x);
    } else if CommentStart(s) {
      assert CommentStart(s + x);
      assert SkipLine(s[1..]) != "";
      SkipLineAppend(s[1..], x);
      SkipBlankAppend(SkipLine(s[1..]), x);
    } else {
      assert !CommentStart(s + x);
    }
  }

  lemma {:induction false} IdentLengthAppend(u: Unicode, s: string, x: string)
    requires Sane(u) && StartsDelimited(x)
    ensures IdentLength(u, s + x) == IdentLength(u, s)
  {
    if s == "" {
      assert s + x == x;
    } else {
      IdentLengthAppend(u, s[1..], x);
      assert (s + x)[1..] == s[1..] + x;
    }
  }

  lemma {:induction false} NumberLengthAppend(s: string, x: string)
    requires StartsDelimited(x)
    ensures NumberLength(s + x) == NumberLength(s)
  {
    if s == "" {
      assert s + x == x;
    } else {
      NumberLengthAppend(s[1..], x);
      assert (s + x)[1..] == s[1..] + x;
    }
  }

  lemma {:induction false} ScanStringAppend(s: string, text: string, x: string)
    requires ScanString(s, text).Tok?
    ensures ScanString(s + x, text) == Tok(ScanString(s, text).token, ScanString(s, text).rest + x)
    decreases |s|
  {
    assert (s + x)[1..] == s[1..] + x;
    if s[0] == '\\' {
      assert (s + x)[2..] == s[2..] + x;
      ScanStringAppend(s[2..], text + Unescape(s[1]), x);
    } else if s[0] != '"' {
      ScanStringAppend(s[1..], text + [s[0]], x);
    }
  }

  lemma SymbolAppend(kind: Kind, s: string, n: nat, x: string)
    requires n <= |s|
    ensures Symbol(kind, s + x, n) == Tok(Symbol(kind, s, n).token, Symbol(kind, s, n).rest + x)
  {
    assert (s + x)[..n] == s[..n];
    assert (s + x)[n..] == s[n..] + x;
  }

  lemma ScanTokenAppend(u: Unicode, s: string, x: string)
    requires Sane(u) && s != "" && StartsDelimited(x) && ScanToken(u, s).Tok?
    ensures ScanToken(u, s + x) == Tok(ScanToken(u, s).token, ScanToken(u, s).rest + x)
  {
    hide NumberLength, IdentLength, ScanString, LookupKeyword, Symbol;
    assert (s + x)[0] == s[0] && (s + x)[1..] == s[1..] + x;
    if s[0] == '"' {
      ScanStringAppend(s[1..], "", x);
    } else if IsNumeral(s[0]) || s[0] == '-' {
      NumberLengthAppend(s[1..], x);
      SymbolAppend(Number, s, 1 + NumberLength(s[1..]), x);
    } else if IdentStart(u, s[0]) {
      IdentAppend(u, s, x);
    } else {
      OtherAppend(u, s, x);
    }
  }

  lemma IdentAppend(u: Unicode, s: string, x: string)
    requires Sane(u) && s != "" && StartsDelimited(x) && IdentStart(u, s[0])
    ensures ScanToken(u, s + x) == Tok(ScanToken(u, s).token, ScanToken(u, s).rest + x)
  {
    hide IdentLength, LookupKeyword;
    assert (s + x)[0] == s[0] && (s + x)[1..] == s[1..] + x;
    IdentLengthAppend(u, s[1..], x);
    var n := 1 + IdentLength(u, s[1..]);
    assert (s + x)[..n] == s[..n];
    SymbolAppend(LookupKeyword(s[..n]), s, n, x);
  }

  lemma OtherAppend(u: Unicode, s: string, x: string)
    requires s != "" && StartsDelimited(x) && ScanToken(u, s).Tok?
    requires s[0] != '"' && !IsNumeral(s[0]) && s[0] != '-' && !IdentStart(u, s[0])
    ensures ScanToken(u, s + x) == Tok(ScanToken(u, s).token, ScanToken(u, s).rest + x)
  {
    hide IdentLength, NumberLength, LookupKeyword, ScanString;
    SymbolAppend(Newline, s, 1, x);
    if |s| > 1 {
      SymbolAppend(Equal, s, 2, x);
    }
  }

  lemma NextAppend(u: Unicode, s: string, x: string)
    requires Sane(u) && StartsDelimited(x) && Next(u, s).Tok?
    ensures Next(u, s + x) == Tok(Next(u, s).token, Next(u, s).rest + x)
  {
    hide ScanToken, Sane;
    SkipBlankAppend(s, x);
    ScanTokenAppend(u, SkipBlank(s), x);
  }

  /** A word or expression followed by a delimiter lexes to its own tokens. */
  lemma {:induction false} LexWord(u: Unicode, e: string, x: string)
    requires Sane(u) && LexExact(u, e).Some? && StartsDelimited(x) && Lex(u, x).Some?
    ensures Lex(u, e + x) == Some(LexExact(u, e).value + Lex(u, x).value)
    decreases |e|
  {
    hide Next, Sane;
    if e == "" {
      assert e + x == x && LexExact(u, e).value + Lex(u, x).value == Lex(u, x).value;
    } else {
      NextAppend(u, e, x);
      var t, rest := Next(u, e).token, Next(u, e).rest;
      LexWord(u, rest, x);
      assert LexExact(u, e).value == [t] + LexExact(u, rest).value;
      assert Lex(u, e + x) == Some([t] + Lex(u, rest + x).value);
      assert [t] + (LexExact(u, rest).value + Lex(u, x).value) == LexExact(u, e).value + Lex(u, x).value;
    }
  }

  // ---- The pieces the formatter writes ----

  lemma LexBlank(u: Unicode, x: string)
    ensures Lex(u, " " + x) == Lex(u, x)
  {
    assert (" " + x)[1..] == x;
  }

  lemma {:induction false} LexIndent(u: Unicode, indent: string, x: string)
    requires forall i :: 0 <= i < |indent| ==> indent[i] == ' '
    ensures Lex(u, indent + x) == Lex(u, x)
  {
    hide Lex;
    if indent == "" {
      assert indent + x == x;
    } else {
      LexIndent(u, indent[1..], x);
      assert indent + x == " " + (indent[1..] + x);
      LexBlank(u, indent[1..] + x);
    }
  }

  /** Newlines, braces, commas and colons are tokens wherever they stand. */
  function Punctuation(c: char): Option<Kind> {
    match c
    case '\n' => Some(Newline)
    case '{' => Some(LBrace)
    case '}' => Some(RBrace)
    case ',' => Some(Comma)
    case ':' => Some(Colon)
    case _ => None
  }

  lemma LexPunctuation(u: Unicode, c: char, x: string)
    requires Punctuation(c).Some? && Lex(u, x).Some?
    ensures Lex(u, [c] + x) == Some([Token(Punctuation(c).value, [c])] + Lex(u, x).value)
  {
    var s := [c] + x;
    assert s[..1] == [c] && s[1..] == x;
    assert SkipBlank(s) == s;
    assert Next(u, s) == Tok(Token(Punctuation(c).value, [c]), x);
  }

  /** A keyword or plain lower-case word is one token. */
  ghost predicate Word(s: string) {
    s != "" && forall i :: 0 <= i < |s| ==> 'a' <= s[i] <= 'z'
  }

  lemma {:induction false} WordLength(u: Unicode, s: string)
    requires Sane(u) && forall i :: 0 <= i < |s| ==> 'a' <= s[i] <= 'z'
    ensures IdentLength(u, s) == |s|
  {
    if s != "" {
      WordLength(u, s[1..]);
    }
  }

  lemma WordExact(u: Unicode, s: string)
    requires Sane(u) && Word(s)
    ensures LexExact(u, s) == Some([Token(LookupKeyword(s), s)])
  {
    hide LookupKeyword;
    WordLength(u, s[1..]);
    assert SkipBlank(s) == s;
    assert s[..|s|] == s && s[|s|..] == "";
    assert Next(u, s) == Tok(Token(LookupKeyword(s), s), "");
    var t := Token(LookupKeyword(s), s);
    assert LexExact(u, "") == Some([]) && [t] + [] == [t];
  }

  // ---- The scanning loop ----

  lemma {:induction false} ScanStep(input: string, pos: nat, text: string)
    requires pos <= |input|
    ensures pos == |input| ==> ScanString(input[pos..], text) == Bad
    ensures pos < |input| && input[pos] == '"' ==>
              ScanString(input[pos..], text) == Tok(Token(String, text), input[pos + 1..])
    ensures pos < |input| && input[pos] == '\\' ==>
              ScanString(input[pos..], text) ==
              if pos + 1 == |input| then Bad else ScanString(input[pos + 2..], text + Unescape(input[pos + 1]))
    ensures pos < |input| && input[pos] != '"' && input[pos] != '\\' ==>
              ScanString(input[pos..], text) == ScanString(input[pos + 1..], text + [input[pos]])
  {
    var s := input[pos..];
    if pos < |input| {
      assert s[0] == input[pos] && s[1..] == input[pos + 1..];
      assert pos + 1 < |input| ==> s[1] == input[pos + 1] && s[2..] == input[pos + 2..];
    }
  }

  class Scanner {
    const input: string
    var pos: nat

    constructor (input: string)
      ensures this.input == input && pos == 0
    {
      this.input := input;
      pos := 0;
    }

    /** scanString: reads up to the closing quote; None for a literal or an escape cut short. */
    method ScanLiteral() returns (text: Option<string>)
      requires pos < |input| && input[pos] == '"'
      modifies this
      ensures pos <= |input|
      ensures ScanString(input[old(pos) + 1..], "") ==
              match text case None => Bad case Some(t) => Tok(Token(String, t), input[pos..])
    {
      hide ScanString;
      ghost var all := ScanString(input[pos + 1..], "");
      pos := pos + 1;
      var sb := "";
      while pos < |input|
        invariant pos <= |input|
        invariant ScanString(input[pos..], sb) == all
      {
        var ch := input[pos];
        ScanStep(input, pos, sb);
        if ch == '"' {
          pos := pos + 1;
          return Some(sb);
        }
        if ch == '\\' {
          pos := pos + 1;
          if pos >= |input| {
            return None;
          }
          sb := sb + Unescape(input[pos]);
        } else {
          sb := sb + [ch];
        }
        pos := pos + 1;
      }
      ScanStep(input, pos, sb);
      text := None;
    }
  }
}
