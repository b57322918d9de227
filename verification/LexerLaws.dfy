/** What the lexer makes of blanks, comments, escapes and words, said of characters. */
module LexerLaws {
  import opened Wrappers
  import opened Lexer

  lemma SameNext(u: Unicode, s: string, t: string)
    requires Next(u, s) == Next(u, t)
    ensures Lex(u, s) == Lex(u, t)
  {
    hide Next;
  }

  /** Spaces, tabs and carriage returns between tokens mean nothing. */
  lemma BlankIgnored(u: Unicode, c: char, s: string)
    requires c in {' ', '\t', '\r'}
    ensures Lex(u, [c] + s) == Lex(u, s)
  {
    hide ScanToken, Lex;
    assert ([c] + s)[0] == c && ([c] + s)[1..] == s;
    SameNext(u, [c] + s, s);
  }

  lemma {:induction false} LineSkipped(c: string, s: string)
    requires '\n' !in c && (s == "" || s[0] == '\n')
    ensures SkipLine(c + s) == s
    decreases c
  {
    if c == "" {
      assert c + s == s;
    } else {
      assert (c + s)[0] == c[0] && (c + s)[1..] == c[1..] + s;
      LineSkipped(c[1..], s);
    }
  }

  /** A comment, from # or // to the end of its line, means nothing either. */
  lemma CommentIgnored(u: Unicode, c: string, s: string)
    requires c != "" && (c[0] == '#' || (|c| > 1 && c[0] == '/' && c[1] == '/'))
    requires '\n' !in c && (s == "" || s[0] == '\n')
    ensures Lex(u, c + s) == Lex(u, s)
  {
    hide ScanToken, Lex;
    assert (c + s)[0] == c[0] && (c + s)[1..] == c[1..] + s && (|c| > 1 ==> (c + s)[1] == c[1]);
    LineSkipped(c[1..], s);
    SameNext(u, c + s, s);
  }

  /** In a string literal the escapes of newline, tab, backslash and quote stand for these; any other character after a
      backslash stands for itself, backslash included. */
  lemma EscapesRead(c: char, rest: string, text: string)
    ensures c == 'n' ==> ScanString(['\\', c] + rest, text) == ScanString(rest, text + "\n")
    ensures c == 't' ==> ScanString(['\\', c] + rest, text) == ScanString(rest, text + "\t")
    ensures c == '\\' ==> ScanString(['\\', c] + rest, text) == ScanString(rest, text + "\\")
    ensures c == '"' ==> ScanString(['\\', c] + rest, text) == ScanString(rest, text + "\"")
    ensures c !in {'n', 't', '\\', '"'} ==> ScanString(['\\', c] + rest, text) == ScanString(rest, text + ['\\', c])
  {
    var s := ['\\', c] + rest;
    assert s[0] == '\\' && s[1] == c && s[2..] == rest;
  }

  /** Letters, digits, underscores and dashes make up words. */
  ghost predicate InWord(u: Unicode, c: char) {
    u.isLetter(c) || u.isDigit(c) || c == '_' || c == '-'
  }

  /** A word starts with a letter or an underscore. */
  ghost predicate IsWord(u: Unicode, w: string) {
    && w != "" && (u.isLetter(w[0]) || w[0] == '_')
    && forall i :: 1 <= i < |w| ==> InWord(u, w[i])
  }

  lemma {:induction false} WordLength(u: Unicode, w: string, s: string)
    requires (forall i :: 0 <= i < |w| ==> InWord(u, w[i])) && (s == "" || !InWord(u, s[0]))
    ensures IdentLength(u, w + s) == |w|
    decreases w
  {
    if w == "" {
      assert w + s == s;
    } else {
      assert (w + s)[0] == w[0] && (w + s)[1..] == w[1..] + s;
      WordLength(u, w[1..], s);
    }
  }

  /** A word is one token, up to the first character that cannot be in it. */
  lemma WordRead(u: Unicode, w: string, s: string)
    requires Sane(u) && IsWord(u, w) && (s == "" || !InWord(u, s[0]))
    ensures Lex(u, w + s) == match Lex(u, s)
                             case None => None
                             case Some(ts) => Some([Token(LookupKeyword(w), w)] + ts)
  {
    hide LookupKeyword;
    var all := w + s;
    assert all[0] == w[0] && all[1..] == w[1..] + s;
    assert forall i :: 0 <= i < |w[1..]| ==> w[1..][i] == w[i + 1];
    WordLength(u, w[1..], s);
    assert all[..|w|] == w && all[|w|..] == s;
    WordStarts(u, w[0]);
    assert Next(u, all) == Tok(Token(LookupKeyword(w), w), s);
  }

  lemma WordStarts(u: Unicode, c: char)
    requires Sane(u) && (u.isLetter(c) || c == '_')
    ensures c !in {' ', '\t', '\r', '\n', '#', '/', '{', '}', '[', ']', '(', ')', ',', '.', '"', '-', ':'}
    ensures c !in {'=', '!', '>', '<'}
    ensures !IsNumeral(c)
  {
  }
}
