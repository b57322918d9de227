/** Files as the compiler writes them, out of wrapped parts, and what recompilation makes of them, down to the text. */
module WrappedCode {
  import opened Wrappers
  import opened SafeZones
  import Strings

  const DO_NOT_EDIT := " Do not edit between" + (" these markers; changes" + (" will be overwritten" + " on recompile"))
  const KEPT := " Your custom code here" + (" is preserved across" + " recompilations")

  function WrapGenerated(content: string, prefix: string): string {
    prefix + " --- " + "AGENTSPEC GENERATED START" + " ---" + "\n" +
    (prefix + DO_NOT_EDIT + "\n" +
     (content + (prefix + " --- " + "AGENTSPEC GENERATED END" + " ---" + "\n")))
  }

  function WrapUserCode(placeholder: string, prefix: string): string {
    prefix + " --- " + "USER CODE START" + " ---" + "\n" +
    (prefix + KEPT + "\n" +
     (placeholder + (prefix + " --- " + "USER CODE END" + " ---" + "\n")))
  }

  // ---- Which lines are markers ----

  ghost predicate Blank(s: string) {
    forall i :: 0 <= i < |s| ==> Strings.IsSpace(s[i])
  }

  /** Text that trimming leaves alone. */
  ghost predicate Tight(s: string) {
    s != "" && !Strings.IsSpace(s[0]) && !Strings.IsSpace(s[|s| - 1])
  }

  /** A comment prefix, such as # or //. */
  ghost predicate GoodPrefix(prefix: string) {
    prefix != "" && !Strings.IsSpace(prefix[0]) && OneLine(prefix)
  }

  lemma {:induction false} TrimLeftBlank(a: string, s: string)
    requires Blank(a) && s != "" && !Strings.IsSpace(s[0])
    ensures Strings.TrimLeft(a + s) == s
    decreases a
  {
    if a == "" {
      assert a + s == s;
    } else {
      assert (a + s)[0] == a[0] && (a + s)[1..] == a[1..] + s;
      TrimLeftBlank(a[1..], s);
    }
  }

  lemma {:induction false} TrimRightBlank(s: string, b: string)
    requires Blank(b) && s != "" && !Strings.IsSpace(s[|s| - 1])
    ensures Strings.TrimRight(s + b) == s
    decreases b
  {
    if b == "" {
      assert s + b == s;
    } else {
      var n := |b| - 1;
      assert (s + b)[|s + b| - 1] == b[n] && (s + b)[..|s + b| - 1] == s + b[..n];
      TrimRightBlank(s, b[..n]);
    }
  }

  lemma TrimBlanks(a: string, s: string, b: string)
    requires Blank(a) && Tight(s) && Blank(b)
    ensures Strings.TrimSpace(a + s + b) == s
  {
    assert a + s + b == a + (s + b) && (s + b)[0] == s[0];
    TrimLeftBlank(a, s + b);
    TrimRightBlank(s, b);
  }

  lemma {:induction false} TrimLeftIs(s: string) returns (a: string)
    ensures Blank(a) && s == a + Strings.TrimLeft(s)
  {
    if s != "" && Strings.IsSpace(s[0]) {
      var rest := TrimLeftIs(s[1..]);
      a := [s[0]] + rest;
    } else {
      a := "";
    }
  }

  lemma {:induction false} TrimRightIs(s: string) returns (b: string)
    ensures Blank(b) && s == Strings.TrimRight(s) + b
  {
    if s != "" && Strings.IsSpace(s[|s| - 1]) {
      var rest := TrimRightIs(s[..|s| - 1]);
      b := rest + [s[|s| - 1]];
    } else {
      b := "";
    }
  }

  /** line is text with nothing but blanks around it. */
  ghost predicate Padded(line: string, text: string) {
    exists a, b :: Blank(a) && Blank(b) && line == a + text + b
  }

  lemma TrimmedExactly(line: string, text: string)
    requires Tight(text)
    ensures Strings.TrimSpace(line) == text <==> Padded(line, text)
  {
    if Strings.TrimSpace(line) == text {
      var a := TrimLeftIs(line);
      var b := TrimRightIs(Strings.TrimLeft(line));
      assert line == a + text + b;
    }
    if Padded(line, text) {
      var a, b :| Blank(a) && Blank(b) && line == a + text + b;
      TrimBlanks(a, text, b);
    }
  }

  lemma MarkerTight(prefix: string, name: string)
    requires GoodPrefix(prefix)
    ensures Tight(prefix + " --- " + name + " ---")
  {
    var m := prefix + " --- " + name + " ---";
    assert m[0] == prefix[0] && m[|m| - 1] == '-';
  }

  /** A line is a marker exactly when it consists of the comment prefix and the marker's words between dashes, blanks
      around it aside. */
  lemma MarkExactly(prefix: string, line: string)
    requires GoodPrefix(prefix)
    ensures MarkOf(prefix, line) == Start(Generated) <==>
              Padded(line, prefix + " --- " + "AGENTSPEC GENERATED START" + " ---")
    ensures MarkOf(prefix, line) == End(Generated) <==>
              Padded(line, prefix + " --- " + "AGENTSPEC GENERATED END" + " ---")
    ensures MarkOf(prefix, line) == Start(User) <==> Padded(line, prefix + " --- " + "USER CODE START" + " ---")
    ensures MarkOf(prefix, line) == End(User) <==> Padded(line, prefix + " --- " + "USER CODE END" + " ---")
    ensures MarkOf(prefix, line) in {Start(Generated), End(Generated), Start(User), End(User), Plain}
  {
    hide Strings.TrimSpace, Padded, Tight;
    var gs, ge := "AGENTSPEC GENERATED START", "AGENTSPEC GENERATED END";
    var us, ue := "USER CODE START", "USER CODE END";
    PaddedMarker(prefix, line, gs);
    PaddedMarker(prefix, line, ge);
    PaddedMarker(prefix, line, us);
    PaddedMarker(prefix, line, ue);
    assert |gs| == 25 && |ge| == 23 && |us| == 15 && |ue| == 13;
  }

  lemma PaddedMarker(prefix: string, line: string, name: string)
    requires GoodPrefix(prefix)
    ensures Strings.TrimSpace(line) == prefix + " --- " + name + " ---" <==>
              Padded(line, prefix + " --- " + name + " ---")
    ensures |prefix + " --- " + name + " ---"| == |prefix| + 9 + |name|
  {
    hide Strings.TrimSpace, Padded, Tight;
    MarkerTight(prefix, name);
    TrimmedExactly(line, prefix + " --- " + name + " ---");
  }

  // ---- Files of wrapped parts ----

  /** A generated part or a place for user code, with its lines. */
  datatype Part = Made(lines: seq<string>) | Own(lines: seq<string>)

  function Wrapped(prefix: string, p: Part): string {
    if p.Made? then WrapGenerated(Text(p.lines), prefix) else WrapUserCode(Text(p.lines), prefix)
  }

  function FileOf(prefix: string, parts: seq<Part>): string {
    if parts == [] then "" else Wrapped(prefix, parts[0]) + FileOf(prefix, parts[1..])
  }

  /** No line is a marker. */
  ghost predicate Clean(prefix: string, parts: seq<Part>) {
    forall i :: 0 <= i < |parts| ==> CleanPart(prefix, parts[i])
  }

  ghost predicate CleanPart(prefix: string, p: Part) {
    forall i :: 0 <= i < |p.lines| ==> OneLine(p.lines[i]) && MarkOf(prefix, p.lines[i]) == Plain
  }

  /** The places for user code, in order. */
  function Owns(parts: seq<Part>): seq<Part> {
    if parts == [] then [] else (if parts[0].Own? then [parts[0]] else []) + Owns(parts[1..])
  }

  /** The parts with the first user parts replaced by those given, as far as they go. */
  function Carried(parts: seq<Part>, olds: seq<Part>): seq<Part> {
    if parts == [] then []
    else if parts[0].Own? && olds != [] then [olds[0]] + Carried(parts[1..], olds[1..])
    else [parts[0]] + Carried(parts[1..], olds)
  }

  function Hint(prefix: string, p: Part): string {
    prefix + if p.Made? then DO_NOT_EDIT else KEPT
  }

  function Opening(prefix: string, p: Part): string {
    prefix + " --- " + (if p.Made? then "AGENTSPEC GENERATED START" else "USER CODE START") + " ---"
  }

  function Closing(prefix: string, p: Part): string {
    prefix + " --- " + (if p.Made? then "AGENTSPEC GENERATED END" else "USER CODE END") + " ---"
  }

  function PartLines(prefix: string, p: Part): seq<string> {
    [Opening(prefix, p)] + ([Hint(prefix, p)] + (p.lines + [Closing(prefix, p)]))
  }

  function FileLines(prefix: string, parts: seq<Part>): seq<string> {
    if parts == [] then [] else PartLines(prefix, parts[0]) + FileLines(prefix, parts[1..])
  }

  lemma PartText(prefix: string, p: Part)
    ensures Text(PartLines(prefix, p)) == Wrapped(prefix, p)
  {
    hide Text;
    var closing := Closing(prefix, p);
    TextOfOne(closing);
    TextAppend(p.lines, [closing]);
    TextCons(Hint(prefix, p), p.lines + [closing]);
    TextCons(Opening(prefix, p), [Hint(prefix, p)] + (p.lines + [closing]));
  }

  lemma {:induction false} FileText(prefix: string, parts: seq<Part>)
    ensures Text(FileLines(prefix, parts)) == FileOf(prefix, parts)
  {
    hide PartLines, Wrapped;
    if parts != [] {
      hide Text;
      PartText(prefix, parts[0]);
      FileText(prefix, parts[1..]);
      TextAppend(PartLines(prefix, parts[0]), FileLines(prefix, parts[1..]));
    }
  }

  lemma HintsAre()
    ensures OneLine(DO_NOT_EDIT) && DO_NOT_EDIT[1] != '-' && !Strings.IsSpace(DO_NOT_EDIT[|DO_NOT_EDIT| - 1])
    ensures OneLine(KEPT) && KEPT[1] != '-' && !Strings.IsSpace(KEPT[|KEPT| - 1])
  {
    OneLineHints();
    var a, b, c, d := " Do not edit between", " these markers; changes", " will be overwritten", " on recompile";
    OneLineJoin(c, d);
    OneLineJoin(b, c + d);
    OneLineJoin(a, b + (c + d));
    var e, f, g := " Your custom code here", " is preserved across", " recompilations";
    OneLineJoin(f, g);
    OneLineJoin(e, f + g);
    assert a[1] == 'D' && e[1] == 'Y' && d[|d| - 1] == 'e' && g[|g| - 1] == 's';
    assert DO_NOT_EDIT == a + (b + (c + d)) && KEPT == e + (f + g);
  }

  lemma OneLineHints()
    ensures OneLine(" Do not edit between") && OneLine(" these markers; changes")
    ensures OneLine(" will be overwritten") && OneLine(" on recompile")
    ensures OneLine(" Your custom code here") && OneLine(" is preserved across") && OneLine(" recompilations")
  {
  }

  lemma OneLineJoin(a: string, b: string)
    requires a != "" && b != "" && OneLine(a) && OneLine(b)
    ensures OneLine(a + b) && (a + b)[|a + b| - 1] == b[|b| - 1] && (|a| > 1 ==> (a + b)[1] == a[1])
  {
  }

  /** Nothing but the dashes makes a marker of a line that starts with the prefix. */
  lemma CommentPlain(prefix: string, text: string)
    requires GoodPrefix(prefix) && |text| >= 2 && OneLine(text) && text[1] != '-'
    requires !Strings.IsSpace(text[|text| - 1])
    ensures MarkOf(prefix, prefix + text) == Plain && OneLine(prefix + text)
  {
    hide Strings.TrimSpace, Strings.IsSpace, Marker;
    var h := prefix + text;
    assert h[0] == prefix[0] && h[|h| - 1] == text[|text| - 1] && h[|prefix| + 1] == text[1];
    assert "" + h + "" == h;
    TrimBlanks("", h, "");
    forall name ensures h != Marker(prefix, name) {
      MarkerDash(prefix, name);
    }
  }

  lemma MarkerDash(prefix: string, name: string)
    ensures |Marker(prefix, name)| > |prefix| + 1 && Marker(prefix, name)[|prefix| + 1] == '-'
  {
  }

  lemma HintPlain(prefix: string, p: Part)
    requires GoodPrefix(prefix)
    ensures MarkOf(prefix, Hint(prefix, p)) == Plain && OneLine(Hint(prefix, p))
  {
    hide MarkOf, OneLine;
    HintsAre();
    CommentPlain(prefix, if p.Made? then DO_NOT_EDIT else KEPT);
  }

  lemma MarkersMark(prefix: string, p: Part)
    requires GoodPrefix(prefix)
    ensures var kind := if p.Made? then Generated else User;
            && MarkOf(prefix, Opening(prefix, p)) == Start(kind) && MarkOf(prefix, Closing(prefix, p)) == End(kind)
            && OneLine(Opening(prefix, p)) && OneLine(Closing(prefix, p))
  {
    hide MarkOf, Strings.TrimSpace, OneLine, Padded;
    MarkerLine(prefix, if p.Made? then "AGENTSPEC GENERATED START" else "USER CODE START");
    MarkerLine(prefix, if p.Made? then "AGENTSPEC GENERATED END" else "USER CODE END");
    NamesOneLine();
    MarkExactly(prefix, Opening(prefix, p));
    MarkExactly(prefix, Closing(prefix, p));
    PaddedSelf(Opening(prefix, p));
    PaddedSelf(Closing(prefix, p));
  }

  lemma NamesOneLine()
    ensures OneLine("AGENTSPEC GENERATED START") && OneLine("AGENTSPEC GENERATED END")
    ensures OneLine("USER CODE START") && OneLine("USER CODE END")
  {
  }

  lemma MarkerLine(prefix: string, name: string)
    requires GoodPrefix(prefix)
    ensures OneLine(name) ==> OneLine(prefix + " --- " + name + " ---")
  {
  }

  lemma PaddedSelf(text: string)
    ensures Padded(text, text)
  {
    var a, b := "", "";
    assert Blank(a) && Blank(b) && text == a + text + b;
  }

  // ---- Parts in front of other lines ----

  lemma {:induction false} PassedOver(prefix: string, s: seq<string>, t: seq<string>, i: nat, repl: seq<seq<string>>)
    requires forall j :: 0 <= j < |s| ==> MarkOf(prefix, s[j]) != Start(User)
    ensures Sections(prefix, None, s + t) == Sections(prefix, None, t)
    ensures Splice(prefix, None, s + t, i, repl) == s + Splice(prefix, None, t, i, repl)
    decreases s
  {
    hide MarkOf;
    if s == [] {
      assert s + t == t;
    } else {
      assert (s + t)[0] == s[0] && (s + t)[1..] == s[1..] + t;
      PassedOver(prefix, s[1..], t, i, repl);
      assert s == [s[0]] + s[1..];
      assert [s[0]] + (s[1..] + Splice(prefix, None, t, i, repl)) == s + Splice(prefix, None, t, i, repl);
    }
  }

  lemma {:induction false} GeneratedCloses(prefix: string, m: seq<string>, t: seq<string>)
    requires m != [] && MarkOf(prefix, m[|m| - 1]) == End(Generated)
    requires forall j :: 0 <= j < |m| - 1 ==> MarkOf(prefix, m[j]) == Plain
    ensures Bracketed(prefix, Generated, m + t) == Bracketed(prefix, Outside, t)
    decreases m
  {
    hide MarkOf;
    assert (m + t)[0] == m[0] && (m + t)[1..] == m[1..] + t;
    if |m| == 1 {
      assert m[1..] + t == t;
    } else {
      GeneratedCloses(prefix, m[1..], t);
    }
  }

  lemma {:induction false} SpliceCloses(prefix: string, cur: seq<string>, m: seq<string>, t: seq<string>, i: nat,
                                        repl: seq<seq<string>>)
    requires m != [] && MarkOf(prefix, m[|m| - 1]) == End(User)
    requires forall j :: 0 <= j < |m| - 1 ==> MarkOf(prefix, m[j]) == Plain
    ensures Splice(prefix, Some(cur), m + t, i, repl) ==
            (if i < |repl| then repl[i] else cur + m) + Splice(prefix, None, t, i + 1, repl)
    decreases m
  {
    hide MarkOf;
    assert (m + t)[0] == m[0] && (m + t)[1..] == m[1..] + t;
    if |m| == 1 {
      assert m[1..] + t == t && cur + [m[0]] == cur + m;
    } else {
      SpliceCloses(prefix, cur + [m[0]], m[1..], t, i, repl);
      assert cur + [m[0]] + m[1..] == cur + m;
    }
  }

  /** What follows the opening marker of a part. */
  ghost function Enclosed(prefix: string, p: Part): seq<string> {
    [Hint(prefix, p)] + (p.lines + [Closing(prefix, p)])
  }

  lemma PartMarks(prefix: string, p: Part)
    requires GoodPrefix(prefix) && CleanPart(prefix, p)
    ensures var kind, m := if p.Made? then Generated else User, Enclosed(prefix, p);
            && PartLines(prefix, p) == [Opening(prefix, p)] + m && MarkOf(prefix, Opening(prefix, p)) == Start(kind)
            && m != [] && MarkOf(prefix, m[|m| - 1]) == End(kind)
            && (forall j :: 0 <= j < |m| - 1 ==> MarkOf(prefix, m[j]) == Plain)
            && Lines(PartLines(prefix, p))
  {
    hide MarkOf, OneLine, Opening, Closing, Hint;
    MarkersMark(prefix, p);
    HintPlain(prefix, p);
    var m := Enclosed(prefix, p);
    assert m[|m| - 1] == Closing(prefix, p);
    forall j | 0 <= j < |m| - 1 ensures MarkOf(prefix, m[j]) == Plain && OneLine(m[j]) {
      assert j > 0 ==> m[j] == p.lines[j - 1];
    }
  }

  lemma MadeThen(prefix: string, p: Part, t: seq<string>, i: nat, repl: seq<seq<string>>)
    requires p.Made? && GoodPrefix(prefix) && CleanPart(prefix, p)
    ensures var s := PartLines(prefix, p);
            && Bracketed(prefix, Outside, s + t) == Bracketed(prefix, Outside, t)
            && Sections(prefix, None, s + t) == Sections(prefix, None, t)
            && Splice(prefix, None, s + t, i, repl) == s + Splice(prefix, None, t, i, repl)
  {
    hide MarkOf, PartLines, Enclosed, Sections, Splice;
    PartMarks(prefix, p);
    var s, m := PartLines(prefix, p), Enclosed(prefix, p);
    assert (s + t)[0] == Opening(prefix, p) && (s + t)[1..] == m + t;
    GeneratedCloses(prefix, m, t);
    PassedOver(prefix, s, t, i, repl);
  }

  lemma OwnThen(prefix: string, p: Part, t: seq<string>, i: nat, repl: seq<seq<string>>)
    requires p.Own? && GoodPrefix(prefix) && CleanPart(prefix, p)
    ensures var s := PartLines(prefix, p);
            && Bracketed(prefix, Outside, s + t) == Bracketed(prefix, Outside, t)
            && Sections(prefix, None, s + t) == [s] + Sections(prefix, None, t)
            && Splice(prefix, None, s + t, i, repl) ==
               (if i < |repl| then repl[i] else s) + Splice(prefix, None, t, i + 1, repl)
  {
    hide MarkOf, PartLines, Enclosed, OneLine, Bracketed, Opening, Sections, Section;
    PartMarks(prefix, p);
    var s, m, open := PartLines(prefix, p), Enclosed(prefix, p), Opening(prefix, p);
    assert (s + t)[0] == open && (s + t)[1..] == m + t;
    MarkedSection(prefix, open, m);
    SectionThen(prefix, s, t);
    SpliceCloses(prefix, [open], m, t, i, repl);
  }

  lemma MarkedSection(prefix: string, open: string, m: seq<string>)
    requires MarkOf(prefix, open) == Start(User) && m != [] && MarkOf(prefix, m[|m| - 1]) == End(User)
    requires (forall j :: 0 <= j < |m| - 1 ==> MarkOf(prefix, m[j]) == Plain) && Lines([open] + m)
    ensures Section(prefix, [open] + m)
  {
    hide MarkOf;
    var s := [open] + m;
    assert s[..|s| - 1] == [open] + m[..|m| - 1] && s[|s| - 1] == m[|m| - 1];
  }

  // ---- Whole files ----

  /** The lines of the user parts. */
  ghost function OwnLines(prefix: string, parts: seq<Part>): seq<seq<string>> {
    if parts == [] then []
    else (if parts[0].Own? then [PartLines(prefix, parts[0])] else []) + OwnLines(prefix, parts[1..])
  }

  lemma {:induction false} FileThen(prefix: string, parts: seq<Part>, t: seq<string>)
    requires GoodPrefix(prefix) && Clean(prefix, parts)
    ensures Bracketed(prefix, Outside, FileLines(prefix, parts) + t) == Bracketed(prefix, Outside, t)
    ensures Sections(prefix, None, FileLines(prefix, parts) + t) ==
            OwnLines(prefix, parts) + Sections(prefix, None, t)
    decreases parts
  {
    hide MarkOf, PartLines, Bracketed, Sections, Splice, CleanPart;
    if parts == [] {
      assert FileLines(prefix, parts) + t == t && [] + Sections(prefix, None, t) == Sections(prefix, None, t);
    } else {
      var p, owns, more := parts[0], OwnLines(prefix, parts[1..]), Sections(prefix, None, t);
      var rest := FileLines(prefix, parts[1..]) + t;
      FileCons(prefix, parts, t);
      FileThen(prefix, parts[1..], t);
      hide FileLines, OwnLines;
      if p.Made? {
        MadeThen(prefix, p, rest, 0, []);
      } else {
        OwnThen(prefix, p, rest, 0, []);
        assert [PartLines(prefix, p)] + owns + more == [PartLines(prefix, p)] + (owns + more);
      }
    }
  }

  lemma FileCons(prefix: string, parts: seq<Part>, t: seq<string>)
    requires parts != []
    ensures FileLines(prefix, parts) + t == PartLines(prefix, parts[0]) + (FileLines(prefix, parts[1..]) + t)
    ensures OwnLines(prefix, parts) ==
            if parts[0].Own? then [PartLines(prefix, parts[0])] + OwnLines(prefix, parts[1..])
            else OwnLines(prefix, parts[1..])
  {
    hide PartLines;
  }

  lemma {:induction false} FileIsLines(prefix: string, parts: seq<Part>)
    requires GoodPrefix(prefix) && Clean(prefix, parts)
    ensures Lines(FileLines(prefix, parts)) && Split(FileOf(prefix, parts)) == FileLines(prefix, parts) + [""]
    decreases parts
  {
    hide MarkOf, PartLines, OneLine, CleanPart, Split, Text, FileOf;
    FilesLines(prefix, parts);
    FileText(prefix, parts);
    SplitOfText(FileLines(prefix, parts));
  }

  lemma {:induction false} FilesLines(prefix: string, parts: seq<Part>)
    requires GoodPrefix(prefix) && Clean(prefix, parts)
    ensures Lines(FileLines(prefix, parts))
    decreases parts
  {
    hide MarkOf, PartLines, OneLine, CleanPart;
    if parts != [] {
      PartMarks(prefix, parts[0]);
      FilesLines(prefix, parts[1..]);
    }
  }

  lemma LastLine(prefix: string)
    ensures MarkOf(prefix, "") == Plain && Bracketed(prefix, Outside, [""]) && Sections(prefix, None, [""]) == []
  {
    assert [""][1..] == [];
  }

  /** A file the compiler wrote is well bracketed, and extracting its user code gives exactly the wrapped user parts. */
  lemma ExtractsWrapped(prefix: string, parts: seq<Part>)
    requires GoodPrefix(prefix) && Clean(prefix, parts)
    ensures WellBracketed(prefix, FileOf(prefix, parts))
    ensures var code, owns := Extract(prefix, FileOf(prefix, parts)), Owns(parts);
            && (forall j :: j in code <==> 0 <= j < |owns|)
            && forall j :: 0 <= j < |owns| ==> code[j] == WrapUserCode(Text(owns[j].lines), prefix)
  {
    hide MarkOf, PartLines, Bracketed, Sections, Split, FileOf, FileLines, Extract, Text, CleanPart, Clean;
    FileIsLines(prefix, parts);
    FileThen(prefix, parts, [""]);
    LastLine(prefix);
    assert OwnLines(prefix, parts) + [] == OwnLines(prefix, parts);
    ExtractIs(prefix, FileOf(prefix, parts));
    OwnTexts(prefix, parts);
  }

  lemma {:induction false} OwnTexts(prefix: string, parts: seq<Part>)
    ensures |OwnLines(prefix, parts)| == |Owns(parts)|
    ensures forall j :: 0 <= j < |Owns(parts)| ==>
              Owns(parts)[j].Own? && OwnLines(prefix, parts)[j] == PartLines(prefix, Owns(parts)[j])
              && Text(OwnLines(prefix, parts)[j]) == WrapUserCode(Text(Owns(parts)[j].lines), prefix)
  {
    hide PartLines, Text, WrapUserCode;
    if parts != [] {
      OwnTexts(prefix, parts[1..]);
      OwnText(prefix, parts[0]);
    }
  }

  lemma OwnText(prefix: string, p: Part)
    ensures p.Own? ==> Text(PartLines(prefix, p)) == WrapUserCode(Text(p.lines), prefix)
  {
    hide PartLines, Text;
    PartText(prefix, p);
  }

  function Drop(olds: seq<Part>, i: nat): seq<Part> {
    if i <= |olds| then olds[i..] else []
  }

  ghost function PartsLines(prefix: string, parts: seq<Part>): seq<seq<string>> {
    seq(|parts|, i requires 0 <= i < |parts| => PartLines(prefix, parts[i]))
  }

  lemma SpliceLast(prefix: string, i: nat, repl: seq<seq<string>>)
    ensures Splice(prefix, None, [""], i, repl) == [""]
  {
    LastLine(prefix);
    hide MarkOf;
    assert [""][1..] == [];
  }

  lemma {:induction false} FileSplices(prefix: string, parts: seq<Part>, i: nat, olds: seq<Part>)
    requires GoodPrefix(prefix) && Clean(prefix, parts)
    ensures Splice(prefix, None, FileLines(prefix, parts) + [""], i, PartsLines(prefix, olds)) ==
            FileLines(prefix, Carried(parts, Drop(olds, i))) + [""]
    decreases parts
  {
    hide MarkOf, PartLines, Bracketed, Sections, Splice, CleanPart;
    var repl := PartsLines(prefix, olds);
    if parts == [] {
      assert FileLines(prefix, parts) + [""] == [""];
      SpliceLast(prefix, i, repl);
    } else {
      var rest := FileLines(prefix, parts[1..]) + [""];
      assert FileLines(prefix, parts) + [""] == PartLines(prefix, parts[0]) + rest;
      if parts[0].Made? {
        MadeThen(prefix, parts[0], rest, i, repl);
        FileSplices(prefix, parts[1..], i, olds);
        Onward(prefix, parts[0], Carried(parts[1..], Drop(olds, i)));
      } else {
        OwnThen(prefix, parts[0], rest, i, repl);
        FileSplices(prefix, parts[1..], i + 1, olds);
        DropNext(olds, i);
        Onward(prefix, if i < |olds| then olds[i] else parts[0], Carried(parts[1..], Drop(olds, i + 1)));
      }
    }
  }

  lemma DropNext(olds: seq<Part>, i: nat)
    ensures i < |olds| ==> Drop(olds, i) != [] && Drop(olds, i)[0] == olds[i] && Drop(olds, i)[1..] == Drop(olds, i + 1)
    ensures i >= |olds| ==> Drop(olds, i) == [] && Drop(olds, i + 1) == []
  {
  }

  lemma Onward(prefix: string, p: Part, parts: seq<Part>)
    ensures PartLines(prefix, p) + (FileLines(prefix, parts) + [""]) == FileLines(prefix, [p] + parts) + [""]
  {
    hide PartLines;
    FileLinesCons(prefix, p, parts);
  }

  lemma FileLinesCons(prefix: string, p: Part, parts: seq<Part>)
    ensures FileLines(prefix, [p] + parts) == PartLines(prefix, p) + FileLines(prefix, parts)
  {
    assert ([p] + parts)[1..] == parts;
  }

  lemma {:induction false} OwnsLines(prefix: string, parts: seq<Part>)
    ensures OwnLines(prefix, parts) == PartsLines(prefix, Owns(parts))
  {
    hide PartLines, Text, WrapUserCode;
    OwnTexts(prefix, parts);
  }

  /** Recompiling replaces each user part of the new file by the user part of the old file in the same place, if there
      is one, and leaves the rest of the text as it is but for one newline at the end. */
  lemma RecompiledText(prefix: string, news: seq<Part>, olds: seq<Part>)
    requires GoodPrefix(prefix) && Clean(prefix, news) && Clean(prefix, olds) && Owns(olds) != []
    ensures Merge(prefix, FileOf(prefix, news), Extract(prefix, FileOf(prefix, olds))) ==
            FileOf(prefix, Carried(news, Owns(olds))) + "\n"
  {
    hide MarkOf, PartLines, Bracketed, Sections, Split, FileOf, FileLines, Extract, Text, CleanPart, Clean, Splice,
         MergeZones, MergeText, Zones, Carried;
    var file := FileOf(prefix, news);
    var code := Extract(prefix, FileOf(prefix, olds));
    ExtractsWrapped(prefix, olds);
    ExtractsWrapped(prefix, news);
    OwnTexts(prefix, olds);
    OwnsLines(prefix, olds);
    assert 0 in code;
    var repl := PartsLines(prefix, Owns(olds));
    MergeTextIs(ZonesOf(prefix, file), 0, code, repl);
    MergeIsSplice(prefix, Outside, None, [], Split(file), 0, repl);
    FileIsLines(prefix, news);
    FileSplices(prefix, news, 0, Owns(olds));
    assert Drop(Owns(olds), 0) == Owns(olds);
    var ls := FileLines(prefix, Carried(news, Owns(olds)));
    assert [] + (ls + [""]) == ls + [""];
    TextAppend(ls, [""]);
    TextOfOne("");
    assert "" + "\n" == "\n";
    FileText(prefix, Carried(news, Owns(olds)));
  }
}
