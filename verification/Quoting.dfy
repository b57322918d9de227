/** What `%q` writes is a Go string literal for the text it was given. */
module Quoting {
  import opened Wrappers
  import opened Formatter
  import Lexer

  function DigitValue(c: char): (n: nat)
    ensures n < 16
  {
    if '0' <= c <= '9' then c as int - '0' as int else if 'a' <= c <= 'f' then c as int - 'a' as int + 10 else 0
  }

  function Unhex(s: string): nat {
    if s == "" then 0 else 16 * Unhex(s[..|s| - 1]) + DigitValue(s[|s| - 1])
  }

  predicate IsScalar(n: int) {
    0 <= n < 0xD800 || 0xE000 <= n < 0x11_0000
  }

  /** c before the rest, unless that is malformed. */
  function Before(n: int, rest: Option<string>): Option<string> {
    if rest.Some? && IsScalar(n) then Some([n as char] + rest.value) else None
  }

  /** The text between the quotes of an interpreted string literal, as the Go specification has it. */
  function Unquote(s: string): Option<string>
    decreases |s|
  {
    if s == "" then Some("")
    else if s[0] != '\\' then Before(s[0] as int, Unquote(s[1..]))
    else if |s| < 2 then None
    else
      var c := s[1];
      if c == 'a' then Before(7, Unquote(s[2..]))
      else if c == 'b' then Before(8, Unquote(s[2..]))
      else if c == 't' then Before(9, Unquote(s[2..]))
      else if c == 'n' then Before(10, Unquote(s[2..]))
      else if c == 'v' then Before(11, Unquote(s[2..]))
      else if c == 'f' then Before(12, Unquote(s[2..]))
      else if c == 'r' then Before(13, Unquote(s[2..]))
      else if c == '\\' || c == '"' then Before(c as int, Unquote(s[2..]))
      else if c == 'x' && |s| >= 4 then Before(Unhex(s[2..4]), Unquote(s[4..]))
      else if c == 'u' && |s| >= 6 then Before(Unhex(s[2..6]), Unquote(s[6..]))
      else if c == 'U' && |s| >= 10 then Before(Unhex(s[2..10]), Unquote(s[10..]))
      else None
  }

  lemma DigitBack(n: nat)
    requires n < 16
    ensures DigitValue(HexDigit(n)) == n
  {
  }

  function Power(digits: nat): nat {
    if digits == 0 then 1 else 16 * Power(digits - 1)
  }

  lemma {:induction false} HexBack(n: nat, digits: nat)
    requires n < Power(digits)
    ensures |Hex(n, digits)| == digits && Unhex(Hex(n, digits)) == n
  {
    if digits > 0 {
      HexBack(n / 16, digits - 1);
      DigitBack(n % 16);
      var front := Hex(n / 16, digits - 1);
      assert (front + [HexDigit(n % 16)])[..|front|] == front;
    }
  }

  lemma Powers()
    ensures Power(2) == 256 && Power(4) == 65536 && Power(8) == 4294967296
  {
    assert Power(1) == 16 && Power(3) == 4096 && Power(5) == 1048576 && Power(6) == 16777216;
    assert Power(7) == 268435456;
  }

  lemma Scalar(c: char)
    ensures IsScalar(c as int) && (c as int) as char == c
  {
  }

  /** An escape of the given length for n, with nothing but hexadecimal digits after its letter. */
  lemma EscapeBack(letter: char, n: nat, digits: nat, rest: string)
    requires (letter, digits) in {('x', 2), ('u', 4), ('U', 8)} && n < Power(digits) && IsScalar(n)
    ensures Unquote(['\\', letter] + Hex(n, digits) + rest) == Before(n, Unquote(rest))
  {
    hide Hex, Unhex, Power;
    HexBack(n, digits);
    var h := Hex(n, digits);
    var s := ['\\', letter] + h + rest;
    assert s[0] == '\\' && s[1] == letter && s[2..2 + digits] == h && s[2 + digits..] == rest;
  }

  lemma ShortBack(a: char, b: char, rest: string)
    ensures ([a, b] + rest)[0] == a && ([a, b] + rest)[1] == b && ([a, b] + rest)[2..] == rest
    ensures ([a] + rest)[0] == a && ([a] + rest)[1..] == rest
  {
  }

  lemma CharBack(u: Lexer.Unicode, c: char, rest: string)
    ensures Unquote(QuoteChar(u, c) + rest) == Before(c as int, Unquote(rest))
  {
    hide Hex, Unhex, Power;
    var n := c as int;
    Scalar(c);
    if c == '"' || c == '\\' {
      ShortBack('\\', c, rest);
    } else if u.isPrint(c) {
      ShortBack(c, c, rest);
    } else if n in {7, 8, 9, 10, 11, 12, 13} {
      ControlBack(u, c, rest);
    } else {
      Powers();
      if n < 32 || n == 127 {
        assert "\\x" == ['\\', 'x'];
        EscapeBack('x', n, 2, rest);
      } else if n < 0x10000 {
        assert "\\u" == ['\\', 'u'];
        EscapeBack('u', n, 4, rest);
      } else {
        assert "\\U" == ['\\', 'U'];
        EscapeBack('U', n, 8, rest);
      }
    }
  }

  lemma ControlBack(u: Lexer.Unicode, c: char, rest: string)
    requires c as int in {7, 8, 9, 10, 11, 12, 13} && !u.isPrint(c)
    ensures Unquote(QuoteChar(u, c) + rest) == Before(c as int, Unquote(rest))
  {
    var q := QuoteChar(u, c);
    assert |q| == 2 && q[0] == '\\';
    assert q == [q[0], q[1]];
    ShortBack(q[0], q[1], rest);
  }

  lemma {:induction false} BodyBack(u: Lexer.Unicode, s: string)
    ensures Unquote(QuoteBody(u, s)) == Some(s)
  {
    hide QuoteChar, Unquote;
    if s == "" {
      NothingBack();
    } else {
      BodyBack(u, s[1..]);
      CharBack(u, s[0], QuoteBody(u, s[1..]));
      Scalar(s[0]);
      assert s == [s[0]] + s[1..];
    }
  }

  lemma NothingBack()
    ensures Unquote("") == Some("")
  {
  }

  /** Whatever characters are printable, a quoted text stands for itself. */
  lemma QuoteIsLossless(u: Lexer.Unicode, s: string)
    ensures var q := Quote(u, s);
            |q| >= 2 && q[0] == '"' && q[|q| - 1] == '"' && Unquote(q[1..|q| - 1]) == Some(s)
  {
    hide Unquote, QuoteBody;
    var body := QuoteBody(u, s);
    BodyBack(u, s);
    assert ("\"" + body + "\"")[1..|body| + 1] == body;
  }
}
