/** Recompilation that keeps user code: internal/compiler/safezone.go. */
module SafeZones {
  import opened Wrappers
  import Strings

  // ---- Lines ----

  predicate OneLine(line: string) {
    forall i :: 0 <= i < |line| ==> line[i] != '\n'
  }

  predicate Lines(ls: seq<string>) {
    forall i :: 0 <= i < |ls| ==> OneLine(ls[i])
  }

  function LineEnd(s: string): (n: nat)
    ensures n <= |s| && OneLine(s[..n]) && (n < |s| ==> s[n] == '\n')
  {
    if s == "" || s[0] == '\n' then 0 else
      var n := 1 + LineEnd(s[1..]);
      assert s[..n] == [s[0]] + s[1..][..n - 1];
      n
  }

  /** strings.Split(s, "\n"). */
  function Split(s: string): (ls: seq<string>)
    ensures ls != [] && Lines(ls)
    decreases |s|
  {
    var n := LineEnd(s);
    if n == |s| then assert s[..n] == s; [s] else [s[..n]] + Split(s[n + 1..])
  }

  /** Every line written out with a newline. */
  function Text(ls: seq<string>): string {
    if ls == [] then "" else ls[0] + "\n" + Text(ls[1..])
  }

  lemma TextCons(line: string, ls: seq<string>)
    ensures Text([line] + ls) == line + "\n" + Text(ls)
  {
    assert ([line] + ls)[1..] == ls;
  }

  lemma AroundNewline(s: string, n: nat)
    requires n < |s| && s[n] == '\n'
    ensures s[..n] + "\n" + (s[n + 1..] + "\n") == s + "\n"
  {
  }

  lemma {:induction false} TextOfSplit(s: string)
    ensures Text(Split(s)) == s + "\n"
    decreases |s|
  {
    hide Text, LineEnd, OneLine, Lines;
    var n := LineEnd(s);
    if n == |s| {
      TextOfOne(s);
    } else {
      TextOfSplit(s[n + 1..]);
      TextCons(s[..n], Split(s[n + 1..]));
      AroundNewline(s, n);
    }
  }

  lemma TextOfOne(line: string)
    ensures Text([line]) == line + "\n"
  {
    assert line + "\n" + "" == line + "\n";
  }

  lemma {:induction false} LineEndAppend(line: string, rest: string)
    requires OneLine(line)
    ensures LineEnd(line + "\n" + rest) == |line|
    decreases |line|
  {
    var s := line + "\n" + rest;
    if line != "" {
      assert s[1..] == line[1..] + "\n" + rest;
      LineEndAppend(line[1..], rest);
    }
  }

  lemma {:induction false} SplitStep(line: string, rest: string)
    requires OneLine(line)
    ensures Split(line + "\n" + rest) == [line] + Split(rest)
  {
    hide OneLine, Lines;
    var s := line + "\n" + rest;
    LineEndAppend(line, rest);
    assert s[..|line|] == line && s[|line| + 1..] == rest;
  }

  lemma {:induction false} SplitOfText(ls: seq<string>)
    requires Lines(ls)
    ensures Split(Text(ls)) == ls + [""]
  {
    if ls == [] {
      assert Split("") == [""];
    } else {
      hide Split, OneLine;
      SplitStep(ls[0], Text(ls[1..]));
      SplitOfText(ls[1..]);
      assert [ls[0]] + (ls[1..] + [""]) == ls + [""];
    }
  }

  lemma Regroup(x: string, y: string, z: string)
    ensures x + (y + z) == x + y + z
  {
  }

  lemma {:induction false} TextAppend(a: seq<string>, b: seq<string>)
    ensures Text(a + b) == Text(a) + Text(b)
  {
    if a == [] {
      assert a + b == b;
    } else {
      TextAppend(a[1..], b);
      assert (a + b)[1..] == a[1..] + b;
      Regroup(a[0] + "\n", Text(a[1..]), Text(b));
    }
  }

  // ---- Markers ----

  /** `""` in the source is None here. */
  datatype Kind = Outside | Generated | User

  datatype Mark = Start(kind: Kind) | End(kind: Kind) | Plain

  function Marker(prefix: string, name: string): string {
    prefix + " --- " + name + " ---"
  }

  function MarkOf(prefix: string, line: string): Mark {
    var trimmed := Strings.TrimSpace(line);
    if trimmed == Marker(prefix, "AGENTSPEC GENERATED START") then Start(Generated)
    else if trimmed == Marker(prefix, "AGENTSPEC GENERATED END") then End(Generated)
    else if trimmed == Marker(prefix, "USER CODE START") then Start(User)
    else if trimmed == Marker(prefix, "USER CODE END") then End(User)
    else Plain
  }

  // ---- Zones ----

  datatype Zone = Zone(kind: Kind, lines: seq<string>)

  /** The zones still to come when zone k has collected cur and ls is left. */
  function Zones(prefix: string, k: Option<Kind>, cur: seq<string>, ls: seq<string>): seq<Zone>
    decreases ls
  {
    if ls == [] then (if cur == [] then [] else [Zone(if k.Some? then k.value else Outside, cur)]) else
      match MarkOf(prefix, ls[0])
      case Start(kind) =>
        if k.Some? && cur != [] then [Zone(k.value, cur)] + Zones(prefix, Some(kind), [ls[0]], ls[1..])
        else Zones(prefix, Some(kind), cur + [ls[0]], ls[1..])
      case End(kind) => [Zone(kind, cur + [ls[0]])] + Zones(prefix, None, [], ls[1..])
      case Plain => Zones(prefix, Some(if k.None? then Outside else k.value), cur + [ls[0]], ls[1..])
  }

  function ZonesOf(prefix: string, content: string): seq<Zone> {
    Zones(prefix, None, [], Split(content))
  }

  function Flatten(zones: seq<Zone>): seq<string> {
    if zones == [] then [] else zones[0].lines + Flatten(zones[1..])
  }

  lemma FlattenCons(z: Zone, zones: seq<Zone>)
    ensures Flatten([z] + zones) == z.lines + Flatten(zones)
  {
    assert ([z] + zones)[1..] == zones;
  }

  /** Every line is in exactly one zone, in order. */
  lemma {:induction false} ZonesConserve(prefix: string, k: Option<Kind>, cur: seq<string>, ls: seq<string>)
    ensures Flatten(Zones(prefix, k, cur, ls)) == cur + ls
    decreases ls
  {
    hide MarkOf;
    if ls != [] {
      hide Flatten;
      assert cur + [ls[0]] + ls[1..] == cur + ls;
      match MarkOf(prefix, ls[0])
      case Start(kind) =>
        if k.Some? && cur != [] {
          ZonesConserve(prefix, Some(kind), [ls[0]], ls[1..]);
          FlattenCons(Zone(k.value, cur), Zones(prefix, Some(kind), [ls[0]], ls[1..]));
          assert cur + ([ls[0]] + ls[1..]) == cur + ls;
        } else {
          ZonesConserve(prefix, Some(kind), cur + [ls[0]], ls[1..]);
        }
      case End(kind) =>
        ZonesConserve(prefix, None, [], ls[1..]);
        FlattenCons(Zone(kind, cur + [ls[0]]), Zones(prefix, None, [], ls[1..]));
        assert [] + ls[1..] == ls[1..];
      case Plain => ZonesConserve(prefix, Some(if k.None? then Outside else k.value), cur + [ls[0]], ls[1..]);
    }
  }

  /** No zone is empty. */
  lemma {:induction false} ZonesNonEmpty(prefix: string, k: Option<Kind>, cur: seq<string>, ls: seq<string>)
    ensures forall z :: z in Zones(prefix, k, cur, ls) ==> z.lines != []
    decreases ls
  {
    hide MarkOf;
    if ls != [] {
      match MarkOf(prefix, ls[0])
      case Start(kind) =>
        ZonesNonEmpty(prefix, Some(kind), if k.Some? && cur != [] then [ls[0]] else cur + [ls[0]], ls[1..]);
      case End(kind) => ZonesNonEmpty(prefix, None, [], ls[1..]);
      case Plain => ZonesNonEmpty(prefix, Some(if k.None? then Outside else k.value), cur + [ls[0]], ls[1..]);
    }
  }

  /** The zones of a file hold its text, with the newline the splitting dropped. */
  lemma ZonesHoldFile(prefix: string, content: string)
    ensures Flatten(ZonesOf(prefix, content)) == Split(content)
    ensures Text(Flatten(ZonesOf(prefix, content))) == content + "\n"
    ensures forall z :: z in ZonesOf(prefix, content) ==> z.lines != []
  {
    hide Zones, Split, Text, Flatten;
    ZonesConserve(prefix, None, [], Split(content));
    ZonesNonEmpty(prefix, None, [], Split(content));
    TextOfSplit(content);
  }

  /** The line sequences of the user zones. */
  function UserParts(zones: seq<Zone>): seq<seq<string>> {
    if zones == [] then [] else (if zones[0].kind == User then [zones[0].lines] else []) + UserParts(zones[1..])
  }

  // ---- Well-bracketed files and their user sections ----

  /** From inside a zone of kind q, markers alternate properly and nothing stays open. */
  ghost predicate Bracketed(prefix: string, q: Kind, ls: seq<string>)
    decreases ls
  {
    if ls == [] then q == Outside else
      match MarkOf(prefix, ls[0])
      case Start(kind) => q == Outside && Bracketed(prefix, kind, ls[1..])
      case End(kind) => q == kind && Bracketed(prefix, Outside, ls[1..])
      case Plain => Bracketed(prefix, q, ls[1..])
  }

  /** From each user start marker to the next user end marker. */
  ghost function Sections(prefix: string, open: Option<seq<string>>, ls: seq<string>): seq<seq<string>>
    decreases ls
  {
    if ls == [] then [] else
      match open
      case None => Sections(prefix, if MarkOf(prefix, ls[0]) == Start(User) then Some([ls[0]]) else None, ls[1..])
      case Some(cur) =>
        if MarkOf(prefix, ls[0]) == End(User) then [cur + [ls[0]]] + Sections(prefix, None, ls[1..])
        else Sections(prefix, Some(cur + [ls[0]]), ls[1..])
  }

  /** The lines outside user sections. */
  ghost function NonUser(prefix: string, open: bool, ls: seq<string>): seq<string>
    decreases ls
  {
    if ls == [] then []
    else if open then NonUser(prefix, MarkOf(prefix, ls[0]) != End(User), ls[1..])
    else if MarkOf(prefix, ls[0]) == Start(User) then NonUser(prefix, true, ls[1..])
    else [ls[0]] + NonUser(prefix, false, ls[1..])
  }

  /** The parser's state inside a well-bracketed file. */
  ghost predicate Inside(q: Kind, k: Option<Kind>, cur: seq<string>) {
    if k.None? then q == Outside && cur == [] else q == k.value
  }

  ghost function Pending(q: Kind, cur: seq<string>): Option<seq<string>> {
    if q == User then Some(cur) else None
  }

  lemma {:induction false} UserZonesAreSections(prefix: string, q: Kind, k: Option<Kind>, cur: seq<string>,
                                                ls: seq<string>)
    requires Bracketed(prefix, q, ls) && Inside(q, k, cur)
    ensures UserParts(Zones(prefix, k, cur, ls)) == Sections(prefix, Pending(q, cur), ls)
    decreases ls
  {
    hide MarkOf;
    if ls != [] {
      var next := Some(if k.None? then Outside else k.value);
      match MarkOf(prefix, ls[0])
      case Start(kind) =>
        if k.Some? && cur != [] {
          UserZonesAreSections(prefix, kind, Some(kind), [ls[0]], ls[1..]);
        } else {
          assert cur + [ls[0]] == [ls[0]] || k.Some?;
          UserZonesAreSections(prefix, kind, Some(kind), cur + [ls[0]], ls[1..]);
        }
      case End(kind) => UserZonesAreSections(prefix, Outside, None, [], ls[1..]);
      case Plain => UserZonesAreSections(prefix, q, next, cur + [ls[0]], ls[1..]);
    }
  }

  // ---- Merging ----

  /** The lines of ls with the user sections that repl has, counted from i, replaced. */
  ghost function Splice(prefix: string, open: Option<seq<string>>, ls: seq<string>, i: nat,
                        repl: seq<seq<string>>): seq<string>
    decreases ls
  {
    if ls == [] then (if open.Some? then open.value else []) else
      match open
      case None =>
        if MarkOf(prefix, ls[0]) == Start(User) then Splice(prefix, Some([ls[0]]), ls[1..], i, repl)
        else [ls[0]] + Splice(prefix, None, ls[1..], i, repl)
      case Some(cur) =>
        if MarkOf(prefix, ls[0]) == End(User) then
          (if i < |repl| then repl[i] else cur + [ls[0]]) + Splice(prefix, None, ls[1..], i + 1, repl)
        else Splice(prefix, Some(cur + [ls[0]]), ls[1..], i, repl)
  }

  function MergeZones(zones: seq<Zone>, i: nat, repl: seq<seq<string>>): seq<string> {
    if zones == [] then []
    else if zones[0].kind == User then
      (if i < |repl| then repl[i] else zones[0].lines) + MergeZones(zones[1..], i + 1, repl)
    else zones[0].lines + MergeZones(zones[1..], i, repl)
  }

  lemma {:induction false} MergeCons(z: Zone, zones: seq<Zone>, i: nat, repl: seq<seq<string>>)
    ensures MergeZones([z] + zones, i, repl) ==
            if z.kind == User then (if i < |repl| then repl[i] else z.lines) + MergeZones(zones, i + 1, repl)
            else z.lines + MergeZones(zones, i, repl)
  {
    assert ([z] + zones)[1..] == zones;
  }

  ghost predicate Merged(prefix: string, q: Kind, k: Option<Kind>, cur: seq<string>, ls: seq<string>, i: nat,
                         repl: seq<seq<string>>) {
    var merged := MergeZones(Zones(prefix, k, cur, ls), i, repl);
    if q == User then merged == Splice(prefix, Some(cur), ls, i, repl)
    else merged == cur + Splice(prefix, None, ls, i, repl)
  }

  lemma Rejoin(a: seq<string>, b: seq<string>, c: seq<string>)
    ensures a + (b + c) == a + b + c
    ensures [] + a == a
  {
  }

  lemma {:induction false} MergedEmpty(prefix: string, k: Option<Kind>, cur: seq<string>, i: nat,
                                       repl: seq<seq<string>>)
    requires Inside(Outside, k, cur)
    ensures Merged(prefix, Outside, k, cur, [], i, repl)
  {
    if cur != [] {
      MergeCons(Zone(Outside, cur), [], i, repl);
    }
  }

  lemma {:induction false} ZonesStart(prefix: string, kind: Kind, k: Option<Kind>, cur: seq<string>, ls: seq<string>)
    requires ls != [] && MarkOf(prefix, ls[0]) == Start(kind) && Inside(Outside, k, cur)
    ensures var rest := Zones(prefix, Some(kind), [ls[0]], ls[1..]);
            Zones(prefix, k, cur, ls) == if cur == [] then rest else [Zone(Outside, cur)] + rest
  {
    hide MarkOf;
    if cur == [] {
      assert cur + [ls[0]] == [ls[0]];
    }
  }

  lemma {:induction false} SpliceStart(prefix: string, kind: Kind, ls: seq<string>, i: nat, repl: seq<seq<string>>)
    requires ls != [] && MarkOf(prefix, ls[0]) == Start(kind)
    ensures Splice(prefix, None, ls, i, repl) ==
            if kind == User then Splice(prefix, Some([ls[0]]), ls[1..], i, repl)
            else [ls[0]] + Splice(prefix, None, ls[1..], i, repl)
  {
    hide MarkOf;
  }

  lemma {:induction false} MergedStart(prefix: string, kind: Kind, k: Option<Kind>, cur: seq<string>, ls: seq<string>,
                                       i: nat, repl: seq<seq<string>>)
    requires ls != [] && MarkOf(prefix, ls[0]) == Start(kind) && kind != Outside && Inside(Outside, k, cur)
    requires Merged(prefix, kind, Some(kind), [ls[0]], ls[1..], i, repl)
    ensures Merged(prefix, Outside, k, cur, ls, i, repl)
  {
    hide MarkOf, MergeZones, Splice, Zones;
    var rest := Zones(prefix, Some(kind), [ls[0]], ls[1..]);
    ZonesStart(prefix, kind, k, cur, ls);
    SpliceStart(prefix, kind, ls, i, repl);
    MergeCons(Zone(Outside, cur), rest, i, repl);
    Rejoin(Splice(prefix, None, ls, i, repl), [], []);
  }

  lemma {:induction false} ZonesEnd(prefix: string, kind: Kind, k: Option<Kind>, cur: seq<string>, ls: seq<string>)
    requires ls != [] && MarkOf(prefix, ls[0]) == End(kind)
    ensures Zones(prefix, k, cur, ls) == [Zone(kind, cur + [ls[0]])] + Zones(prefix, None, [], ls[1..])
  {
    hide MarkOf;
  }

  lemma {:induction false} SpliceEnd(prefix: string, kind: Kind, cur: seq<string>, ls: seq<string>, i: nat,
                                     repl: seq<seq<string>>)
    requires ls != [] && MarkOf(prefix, ls[0]) == End(kind)
    ensures kind == User ==>
              Splice(prefix, Some(cur), ls, i, repl) ==
              (if i < |repl| then repl[i] else cur + [ls[0]]) + Splice(prefix, None, ls[1..], i + 1, repl)
    ensures Splice(prefix, None, ls, i, repl) == [ls[0]] + Splice(prefix, None, ls[1..], i, repl)
  {
    hide MarkOf;
  }

  lemma {:induction false} MergedEnd(prefix: string, kind: Kind, k: Option<Kind>, cur: seq<string>, ls: seq<string>,
                                     i: nat, repl: seq<seq<string>>)
    requires ls != [] && MarkOf(prefix, ls[0]) == End(kind)
    requires Merged(prefix, Outside, None, [], ls[1..], if kind == User then i + 1 else i, repl)
    ensures Merged(prefix, kind, k, cur, ls, i, repl)
  {
    hide MarkOf, MergeZones, Splice, Zones;
    ZonesEnd(prefix, kind, k, cur, ls);
    MergeCons(Zone(kind, cur + [ls[0]]), Zones(prefix, None, [], ls[1..]), i, repl);
    SpliceEnd(prefix, kind, cur, ls, i, repl);
    var rest := Splice(prefix, None, ls[1..], if kind == User then i + 1 else i, repl);
    Rejoin(rest, [], []);
    Rejoin(cur, [ls[0]], rest);
  }

  lemma {:induction false} ZonesPlain(prefix: string, q: Kind, k: Option<Kind>, cur: seq<string>, ls: seq<string>)
    requires ls != [] && MarkOf(prefix, ls[0]) == Plain && Inside(q, k, cur)
    ensures Zones(prefix, k, cur, ls) == Zones(prefix, Some(q), cur + [ls[0]], ls[1..])
  {
    hide MarkOf;
  }

  lemma {:induction false} SplicePlain(prefix: string, cur: seq<string>, ls: seq<string>, i: nat,
                                       repl: seq<seq<string>>)
    requires ls != [] && MarkOf(prefix, ls[0]) == Plain
    ensures Splice(prefix, Some(cur), ls, i, repl) == Splice(prefix, Some(cur + [ls[0]]), ls[1..], i, repl)
    ensures Splice(prefix, None, ls, i, repl) == [ls[0]] + Splice(prefix, None, ls[1..], i, repl)
  {
    hide MarkOf;
  }

  lemma {:induction false} MergedPlain(prefix: string, q: Kind, k: Option<Kind>, cur: seq<string>, ls: seq<string>,
                                       i: nat, repl: seq<seq<string>>)
    requires ls != [] && MarkOf(prefix, ls[0]) == Plain && Inside(q, k, cur)
    requires Merged(prefix, q, Some(q), cur + [ls[0]], ls[1..], i, repl)
    ensures Merged(prefix, q, k, cur, ls, i, repl)
  {
    hide MarkOf, MergeZones, Splice, Zones;
    ZonesPlain(prefix, q, k, cur, ls);
    SplicePlain(prefix, cur, ls, i, repl);
    Rejoin(cur, [ls[0]], Splice(prefix, None, ls[1..], i, repl));
  }

  lemma {:induction false} MergeIsSplice(prefix: string, q: Kind, k: Option<Kind>, cur: seq<string>, ls: seq<string>,
                                         i: nat, repl: seq<seq<string>>)
    requires Bracketed(prefix, q, ls) && Inside(q, k, cur)
    ensures Merged(prefix, q, k, cur, ls, i, repl)
    decreases ls
  {
    hide Merged;
    if ls == [] {
      MergedEmpty(prefix, k, cur, i, repl);
    } else {
      match MarkOf(prefix, ls[0])
      case Start(kind) =>
        MergeIsSplice(prefix, kind, Some(kind), [ls[0]], ls[1..], i, repl);
        MergedStart(prefix, kind, k, cur, ls, i, repl);
      case End(kind) =>
        MergeIsSplice(prefix, Outside, None, [], ls[1..], if kind == User then i + 1 else i, repl);
        MergedEnd(prefix, kind, k, cur, ls, i, repl);
      case Plain =>
        MergeIsSplice(prefix, q, Some(q), cur + [ls[0]], ls[1..], i, repl);
        MergedPlain(prefix, q, k, cur, ls, i, repl);
    }
  }

  // ---- What merging keeps ----

  ghost predicate OpenSection(prefix: string, cur: seq<string>) {
    && cur != [] && Lines(cur) && MarkOf(prefix, cur[0]) == Start(User)
    && forall i :: 1 <= i < |cur| ==> MarkOf(prefix, cur[i]) == Plain
  }

  ghost predicate Section(prefix: string, s: seq<string>) {
    && |s| >= 2 && OneLine(s[|s| - 1]) && MarkOf(prefix, s[|s| - 1]) == End(User)
    && OpenSection(prefix, s[..|s| - 1])
  }

  ghost predicate AllSections(prefix: string, secs: seq<seq<string>>) {
    forall i :: 0 <= i < |secs| ==> Section(prefix, secs[i])
  }

  lemma {:induction false} ClosesSection(prefix: string, cur: seq<string>, m: seq<string>, t: seq<string>)
    requires m != [] && MarkOf(prefix, m[|m| - 1]) == End(User)
    requires forall i :: 0 <= i < |m| - 1 ==> MarkOf(prefix, m[i]) == Plain
    ensures Bracketed(prefix, User, m + t) == Bracketed(prefix, Outside, t)
    ensures Sections(prefix, Some(cur), m + t) == [cur + m] + Sections(prefix, None, t)
    ensures NonUser(prefix, true, m + t) == NonUser(prefix, false, t)
    decreases m
  {
    hide MarkOf;
    assert (m + t)[1..] == m[1..] + t && (m + t)[0] == m[0];
    if |m| == 1 {
      assert m[1..] + t == t && cur + [m[0]] == cur + m;
    } else {
      ClosesSection(prefix, cur + [m[0]], m[1..], t);
      assert cur + [m[0]] + m[1..] == cur + m;
    }
  }

  lemma SectionThen(prefix: string, s: seq<string>, t: seq<string>)
    requires Section(prefix, s)
    ensures Bracketed(prefix, Outside, s + t) == Bracketed(prefix, Outside, t)
    ensures Sections(prefix, None, s + t) == [s] + Sections(prefix, None, t)
    ensures NonUser(prefix, false, s + t) == NonUser(prefix, false, t)
  {
    hide MarkOf, OneLine;
    var m := s[1..];
    assert forall i :: 0 <= i < |m| - 1 ==> m[i] == s[..|s| - 1][i + 1];
    ClosesSection(prefix, [s[0]], m, t);
    assert (s + t)[1..] == m + t && (s + t)[0] == s[0] == s[..|s| - 1][0];
    assert [s[0]] + m == s;
  }

  lemma {:induction false} SectionsProper(prefix: string, q: Kind, cur: seq<string>, ls: seq<string>)
    requires Bracketed(prefix, q, ls) && Lines(ls) && (q == User ==> OpenSection(prefix, cur))
    ensures AllSections(prefix, Sections(prefix, Pending(q, cur), ls))
    decreases ls
  {
    hide MarkOf, OneLine;
    if ls != [] {
      match MarkOf(prefix, ls[0])
      case Start(kind) => SectionsProper(prefix, kind, [ls[0]], ls[1..]);
      case End(kind) =>
        SectionsProper(prefix, Outside, [], ls[1..]);
        assert (cur + [ls[0]])[..|cur|] == cur;
      case Plain => SectionsProper(prefix, q, cur + [ls[0]], ls[1..]);
    }
  }

  /** secs with those that repl has, counted from i, replaced. */
  ghost function Choose(secs: seq<seq<string>>, i: nat, repl: seq<seq<string>>): (r: seq<seq<string>>)
    ensures |r| == |secs|
    ensures forall j :: 0 <= j < |r| ==> r[j] == if i + j < |repl| then repl[i + j] else secs[j]
  {
    if secs == [] then [] else [if i < |repl| then repl[i] else secs[0]] + Choose(secs[1..], i + 1, repl)
  }

  /** Splicing keeps the brackets and the other lines, and puts the replacements where the sections were. */
  ghost predicate Kept(prefix: string, q: Kind, cur: seq<string>, ls: seq<string>, i: nat, repl: seq<seq<string>>) {
    var sp := Splice(prefix, Pending(q, cur), ls, i, repl);
    && Lines(sp)
    && Bracketed(prefix, if q == User then Outside else q, sp)
    && NonUser(prefix, false, sp) == NonUser(prefix, q == User, ls)
    && Sections(prefix, None, sp) == Choose(Sections(prefix, Pending(q, cur), ls), i, repl)
  }

  lemma {:induction false} KeptLine(prefix: string, q: Kind, next: Kind, ls: seq<string>, i: nat,
                                    repl: seq<seq<string>>)
    requires ls != [] && q != User && next != User && OneLine(ls[0]) && Bracketed(prefix, q, ls)
    requires MarkOf(prefix, ls[0]) == (if q == next then Plain else if q == Outside then Start(next) else End(q))
    requires Kept(prefix, next, [], ls[1..], i, repl)
    ensures Kept(prefix, q, [], ls, i, repl)
  {
    hide MarkOf, OneLine, Choose;
    var sp := Splice(prefix, None, ls[1..], i, repl);
    assert Splice(prefix, None, ls, i, repl) == [ls[0]] + sp;
    assert ([ls[0]] + sp)[1..] == sp;
  }

  lemma {:induction false} KeptEnd(prefix: string, cur: seq<string>, ls: seq<string>, i: nat, repl: seq<seq<string>>)
    requires ls != [] && MarkOf(prefix, ls[0]) == End(User) && OneLine(ls[0])
    requires OpenSection(prefix, cur) && AllSections(prefix, repl)
    requires Kept(prefix, Outside, [], ls[1..], i + 1, repl)
    ensures Kept(prefix, User, cur, ls, i, repl)
  {
    hide MarkOf, OneLine;
    var s := if i < |repl| then repl[i] else cur + [ls[0]];
    assert (cur + [ls[0]])[..|cur|] == cur;
    assert Section(prefix, s);
    var sp := Splice(prefix, None, ls[1..], i + 1, repl);
    SectionThen(prefix, s, sp);
    SectionLines(prefix, s);
    var secs := Sections(prefix, None, ls[1..]);
    assert Sections(prefix, Some(cur), ls) == [cur + [ls[0]]] + secs;
    assert ([cur + [ls[0]]] + secs)[1..] == secs;
  }

  lemma SectionLines(prefix: string, s: seq<string>)
    requires Section(prefix, s)
    ensures Lines(s)
  {
    hide MarkOf, OneLine;
    assert forall i :: 0 <= i < |s| - 1 ==> s[i] == s[..|s| - 1][i];
  }

  lemma {:induction false} SpliceKeeps(prefix: string, q: Kind, cur: seq<string>, ls: seq<string>, i: nat,
                                       repl: seq<seq<string>>)
    requires Bracketed(prefix, q, ls) && Lines(ls) && AllSections(prefix, repl)
    requires if q == User then OpenSection(prefix, cur) else cur == []
    ensures Kept(prefix, q, cur, ls, i, repl)
    decreases ls
  {
    hide MarkOf, OneLine;
    if ls != [] {
      hide Kept;
      match MarkOf(prefix, ls[0])
      case Start(kind) =>
        if kind == User {
          SpliceKeeps(prefix, User, [ls[0]], ls[1..], i, repl);
          KeptStart(prefix, ls, i, repl);
        } else {
          SpliceKeeps(prefix, kind, [], ls[1..], i, repl);
          NotOutside(prefix, ls[0]);
          KeptLine(prefix, Outside, kind, ls, i, repl);
        }
      case End(kind) =>
        if kind == User {
          SpliceKeeps(prefix, Outside, [], ls[1..], i + 1, repl);
          KeptEnd(prefix, cur, ls, i, repl);
        } else {
          SpliceKeeps(prefix, Outside, [], ls[1..], i, repl);
          NotOutside(prefix, ls[0]);
          KeptLine(prefix, kind, Outside, ls, i, repl);
        }
      case Plain =>
        if q == User {
          SpliceKeeps(prefix, User, cur + [ls[0]], ls[1..], i, repl);
          KeptPlain(prefix, cur, ls, i, repl);
        } else {
          SpliceKeeps(prefix, q, [], ls[1..], i, repl);
          KeptLine(prefix, q, q, ls, i, repl);
        }
    }
  }

  lemma NotOutside(prefix: string, line: string)
    ensures MarkOf(prefix, line) != Start(Outside) && MarkOf(prefix, line) != End(Outside)
  {
  }

  lemma {:induction false} KeptStart(prefix: string, ls: seq<string>, i: nat, repl: seq<seq<string>>)
    requires ls != [] && MarkOf(prefix, ls[0]) == Start(User) && Kept(prefix, User, [ls[0]], ls[1..], i, repl)
    ensures Kept(prefix, Outside, [], ls, i, repl)
  {
    hide MarkOf, OneLine, Choose;
  }

  lemma {:induction false} KeptPlain(prefix: string, cur: seq<string>, ls: seq<string>, i: nat, repl: seq<seq<string>>)
    requires ls != [] && MarkOf(prefix, ls[0]) == Plain && Kept(prefix, User, cur + [ls[0]], ls[1..], i, repl)
    ensures Kept(prefix, User, cur, ls, i, repl)
  {
    hide MarkOf, OneLine, Choose;
  }

  // ---- Files ----

  ghost predicate WellBracketed(prefix: string, content: string) {
    Bracketed(prefix, Outside, Split(content))
  }

  ghost function UserSections(prefix: string, content: string): seq<seq<string>> {
    Sections(prefix, None, Split(content))
  }

  ghost function OtherLines(prefix: string, content: string): seq<string> {
    NonUser(prefix, false, Split(content))
  }

  function Extract(prefix: string, content: string): map<int, string> {
    var parts := UserParts(ZonesOf(prefix, content));
    map i | 0 <= i < |parts| :: Text(parts[i])
  }

  function MergeText(zones: seq<Zone>, i: int, code: map<int, string>): string {
    if zones == [] then ""
    else if zones[0].kind == User then
      (if i in code then code[i] else Text(zones[0].lines)) + MergeText(zones[1..], i + 1, code)
    else Text(zones[0].lines) + MergeText(zones[1..], i, code)
  }

  function Merge(prefix: string, newContent: string, code: map<int, string>): string {
    if code == map[] then newContent else MergeText(ZonesOf(prefix, newContent), 0, code)
  }

  lemma {:induction false} MergeTextIs(zones: seq<Zone>, i: nat, code: map<int, string>, repl: seq<seq<string>>)
    requires forall j :: j in code <==> 0 <= j < |repl|
    requires forall j :: 0 <= j < |repl| ==> code[j] == Text(repl[j])
    ensures MergeText(zones, i, code) == Text(MergeZones(zones, i, repl))
    decreases zones
  {
    hide Text;
    if zones == [] {
      EmptyText();
    } else if zones[0].kind == User {
      MergeTextIs(zones[1..], i + 1, code, repl);
      TextAppend(if i < |repl| then repl[i] else zones[0].lines, MergeZones(zones[1..], i + 1, repl));
    } else {
      MergeTextIs(zones[1..], i, code, repl);
      TextAppend(zones[0].lines, MergeZones(zones[1..], i, repl));
    }
  }

  lemma EmptyText()
    ensures Text([]) == ""
  {
  }

  lemma EmptyLine(prefix: string)
    ensures MarkOf(prefix, "") == Plain
  {
    assert Strings.TrimSpace("") == "";
    assert forall name :: |Marker(prefix, name)| > 0;
  }

  /** A final empty line belongs to no user section. */
  lemma {:induction false} TrailingLine(prefix: string, q: Kind, open: Option<seq<string>>, ls: seq<string>)
    requires Bracketed(prefix, q, ls) && open.Some? == (q == User)
    ensures Bracketed(prefix, q, ls + [""])
    ensures Sections(prefix, open, ls + [""]) == Sections(prefix, open, ls)
    ensures NonUser(prefix, open.Some?, ls + [""]) == NonUser(prefix, open.Some?, ls) + [""]
    decreases ls
  {
    hide MarkOf;
    EmptyLine(prefix);
    if ls == [] {
      assert ls + [""] == [""];
    } else {
      assert (ls + [""])[1..] == ls[1..] + [""] && (ls + [""])[0] == ls[0];
      var one := if open.Some? then Some(open.value + [ls[0]]) else None;
      match MarkOf(prefix, ls[0])
      case Start(kind) => TrailingLine(prefix, kind, if kind == User then Some([ls[0]]) else None, ls[1..]);
      case End(kind) => TrailingLine(prefix, Outside, None, ls[1..]);
      case Plain => TrailingLine(prefix, q, one, ls[1..]);
    }
  }

  lemma ExtractIs(prefix: string, content: string)
    requires WellBracketed(prefix, content)
    ensures var secs := UserSections(prefix, content);
            var code := Extract(prefix, content);
            && (forall j :: j in code <==> 0 <= j < |secs|)
            && (forall j :: 0 <= j < |secs| ==> code[j] == Text(secs[j]))
    ensures AllSections(prefix, UserSections(prefix, content))
  {
    hide MarkOf, Bracketed, Sections, Zones, UserParts, Section, Text;
    UserZonesAreSections(prefix, Outside, None, [], Split(content));
    SectionsProper(prefix, Outside, [], Split(content));
  }

  /** After a recompilation the file is well bracketed, has the new file's lines outside user sections, and each
      user section is the old one if there was one. */
  lemma MergePreserves(prefix: string, newContent: string, oldContent: string)
    requires WellBracketed(prefix, newContent) && WellBracketed(prefix, oldContent)
    ensures var merged := Merge(prefix, newContent, Extract(prefix, oldContent));
            && WellBracketed(prefix, merged)
            && UserSections(prefix, merged) ==
               Choose(UserSections(prefix, newContent), 0, UserSections(prefix, oldContent))
            && OtherLines(prefix, merged) == OtherLines(prefix, newContent) +
                 (if UserSections(prefix, oldContent) == [] then [] else [""])
  {
    hide MarkOf, Bracketed, Sections, Zones, Section, Text, MergeText, MergeZones, Splice, NonUser, Split,
         AllSections, UserParts;
    var secs := UserSections(prefix, oldContent);
    var code := Extract(prefix, oldContent);
    ExtractIs(prefix, oldContent);
    if secs == [] {
      assert code == map[];
    } else {
      assert 0 in code;
      var ls := Split(newContent);
      MergeTextIs(ZonesOf(prefix, newContent), 0, code, secs);
      MergeIsSplice(prefix, Outside, None, [], ls, 0, secs);
      SpliceKeeps(prefix, Outside, [], ls, 0, secs);
      var sp := Splice(prefix, None, ls, 0, secs);
      assert [] + sp == sp;
      assert Merge(prefix, newContent, code) == Text(sp);
      SplitOfText(sp);
      TrailingLine(prefix, Outside, None, sp);
    }
  }

  // ---- Any number of recompilations ----

  function Recompile(prefix: string, content: string, news: seq<string>): string
    decreases news
  {
    if news == [] then content else Recompile(prefix, Merge(prefix, news[0], Extract(prefix, content)), news[1..])
  }

  ghost predicate AllWellBracketed(prefix: string, news: seq<string>) {
    forall j :: 0 <= j < |news| ==> WellBracketed(prefix, news[j])
  }

  /** User section i is in the file. */
  ghost predicate Has(prefix: string, content: string, i: nat) {
    i < |UserSections(prefix, content)|
  }

  /** A user section that every new file has a place for is never changed. */
  lemma {:induction false} RecompilePreserves(prefix: string, content: string, news: seq<string>, i: nat)
    requires WellBracketed(prefix, content) && AllWellBracketed(prefix, news)
    requires Has(prefix, content, i) && forall j :: 0 <= j < |news| ==> Has(prefix, news[j], i)
    ensures var last := Recompile(prefix, content, news);
            && WellBracketed(prefix, last) && Has(prefix, last, i)
            && UserSections(prefix, last)[i] == UserSections(prefix, content)[i]
    decreases news
  {
    hide WellBracketed, UserSections, Merge, Extract;
    if news != [] {
      assert WellBracketed(prefix, news[0]) && Has(prefix, news[0], i);
      MergePreserves(prefix, news[0], content);
      RecompilePreserves(prefix, Merge(prefix, news[0], Extract(prefix, content)), news[1..], i);
    }
  }

  /** Both files have the same section i, or neither has one. */
  ghost predicate Agree(prefix: string, a: string, b: string, i: nat) {
    && (Has(prefix, a, i) <==> Has(prefix, b, i))
    && (Has(prefix, a, i) && Has(prefix, b, i) ==> UserSections(prefix, a)[i] == UserSections(prefix, b)[i])
  }

  lemma {:induction false} RecompileAgrees(prefix: string, a: string, b: string, news: seq<string>, i: nat)
    requires WellBracketed(prefix, a) && WellBracketed(prefix, b) && AllWellBracketed(prefix, news)
    requires Agree(prefix, a, b, i)
    ensures Agree(prefix, Recompile(prefix, a, news), Recompile(prefix, b, news), i)
    decreases news
  {
    hide WellBracketed, UserSections, Merge, Extract;
    if news != [] {
      assert WellBracketed(prefix, news[0]);
      MergePreserves(prefix, news[0], a);
      MergePreserves(prefix, news[0], b);
      RecompileAgrees(prefix, Merge(prefix, news[0], Extract(prefix, a)), Merge(prefix, news[0], Extract(prefix, b)),
                      news[1..], i);
    }
  }

  /** Once one new file has no place for section i, what it held before is lost: whatever it was, the final
      section i is the same. */
  lemma {:induction false} DroppedSectionIsLost(prefix: string, a: string, b: string, news: seq<string>, j: nat, i: nat)
    requires WellBracketed(prefix, a) && WellBracketed(prefix, b) && AllWellBracketed(prefix, news)
    requires j < |news| && !Has(prefix, news[j], i)
    ensures Agree(prefix, Recompile(prefix, a, news), Recompile(prefix, b, news), i)
    decreases news
  {
    hide WellBracketed, UserSections, Merge, Extract;
    assert WellBracketed(prefix, news[0]);
    MergePreserves(prefix, news[0], a);
    MergePreserves(prefix, news[0], b);
    var a', b' := Merge(prefix, news[0], Extract(prefix, a)), Merge(prefix, news[0], Extract(prefix, b));
    if j == 0 {
      RecompileAgrees(prefix, a', b', news[1..], i);
    } else {
      DroppedSectionIsLost(prefix, a', b', news[1..], j - 1, i);
    }
  }

  // ---- The loops ----

  datatype SafeZone = SafeZone(kind: Kind, content: string)

  function Written(zones: seq<Zone>): (r: seq<SafeZone>)
    ensures |r| == |zones|
  {
    if zones == [] then [] else [SafeZone(zones[0].kind, Text(zones[0].lines))] + Written(zones[1..])
  }

  lemma WrittenOne(z: Zone, rest: seq<Zone>)
    ensures Written([z] + rest) == [SafeZone(z.kind, Text(z.lines))] + Written(rest)
  {
    hide Text;
    assert ([z] + rest)[1..] == rest;
  }

  lemma TextSnoc(ls: seq<string>, line: string)
    ensures Text(ls + [line]) == Text(ls) + line + "\n"
    ensures Text(ls) == "" <==> ls == []
  {
    TextAppend(ls, [line]);
    assert Text([line]) == line + "\n" + Text([]);
    assert Text(ls) + (line + "\n") == Text(ls) + line + "\n";
  }

  /** What the loop has still to produce. */
  ghost predicate Remaining(prefix: string, content: string, zones: seq<SafeZone>, k: Option<Kind>, cur: seq<string>,
                            ls: seq<string>) {
    Written(ZonesOf(prefix, content)) == zones + Written(Zones(prefix, k, cur, ls))
  }

  lemma RemainingStart(prefix: string, content: string, kind: Kind, zones: seq<SafeZone>, k: Option<Kind>,
                       cur: seq<string>, ls: seq<string>)
    requires ls != [] && MarkOf(prefix, ls[0]) == Start(kind) && Remaining(prefix, content, zones, k, cur, ls)
    ensures if k.Some? && cur != []
            then Remaining(prefix, content, zones + [SafeZone(k.value, Text(cur))], Some(kind), [ls[0]], ls[1..])
            else Remaining(prefix, content, zones, Some(kind), cur + [ls[0]], ls[1..])
  {
    hide MarkOf, Text, ZonesOf, Written;
    if k.Some? && cur != [] {
      WrittenOne(Zone(k.value, cur), Zones(prefix, Some(kind), [ls[0]], ls[1..]));
    }
  }

  lemma RemainingEnd(prefix: string, content: string, kind: Kind, zones: seq<SafeZone>, k: Option<Kind>,
                     cur: seq<string>, ls: seq<string>)
    requires ls != [] && MarkOf(prefix, ls[0]) == End(kind) && Remaining(prefix, content, zones, k, cur, ls)
    ensures Remaining(prefix, content, zones + [SafeZone(kind, Text(cur + [ls[0]]))], None, [], ls[1..])
  {
    hide MarkOf, Text, ZonesOf, Written;
    WrittenOne(Zone(kind, cur + [ls[0]]), Zones(prefix, None, [], ls[1..]));
  }

  lemma RemainingPlain(prefix: string, content: string, zones: seq<SafeZone>, k: Option<Kind>, cur: seq<string>,
                       ls: seq<string>)
    requires ls != [] && MarkOf(prefix, ls[0]) == Plain && Remaining(prefix, content, zones, k, cur, ls)
    ensures Remaining(prefix, content, zones, Some(if k.None? then Outside else k.value), cur + [ls[0]], ls[1..])
  {
    hide MarkOf, ZonesOf, Written;
  }

  lemma RemainingDone(prefix: string, content: string, zones: seq<SafeZone>, k: Option<Kind>, cur: seq<string>)
    requires Remaining(prefix, content, zones, k, cur, [])
    ensures Written(ZonesOf(prefix, content)) ==
            zones + if cur == [] then [] else [SafeZone(if k.Some? then k.value else Outside, Text(cur))]
  {
    hide MarkOf, ZonesOf, Text;
  }

  lemma RemainingAll(prefix: string, content: string)
    ensures Remaining(prefix, content, [], None, [], Split(content))
  {
    hide MarkOf, Written;
  }

  method ParseSafeZones(content: string, prefix: string) returns (zones: seq<SafeZone>)
    ensures zones == Written(ZonesOf(prefix, content))
  {
    hide MarkOf, Text, ZonesOf, Zones, Written, Split, Remaining;
    var lines := Split(content);
    var current, kind := "", None;
    ghost var cur: seq<string> := [];
    zones := [];
    EmptyText();
    RemainingAll(prefix, content);
    var n := 0;
    while n < |lines|
      invariant 0 <= n <= |lines|
      invariant current == Text(cur)
      invariant Remaining(prefix, content, zones, kind, cur, lines[n..])
    {
      var line := lines[n];
      assert lines[n..][0] == line && lines[n..][1..] == lines[n + 1..];
      TextSnoc(cur, line);
      match MarkOf(prefix, line) {
        case Start(k) =>
          RemainingStart(prefix, content, k, zones, kind, cur, lines[n..]);
          if kind.Some? && |current| > 0 {
            zones := zones + [SafeZone(kind.value, current)];
            current, cur := "", [];
            TextSnoc(cur, line);
            assert [] + [line] == [line];
          }
          kind := Some(k);
          current, cur := current + line + "\n", cur + [line];
        case End(k) =>
          RemainingEnd(prefix, content, k, zones, kind, cur, lines[n..]);
          current := current + line + "\n";
          zones := zones + [SafeZone(k, current)];
          current, cur := "", [];
          kind := None;
        case Plain =>
          RemainingPlain(prefix, content, zones, kind, cur, lines[n..]);
          if kind.None? {
            kind := Some(Outside);
          }
          current, cur := current + line + "\n", cur + [line];
      }
      n := n + 1;
    }
    assert lines[n..] == [];
    TextSnoc(cur, "");
    RemainingDone(prefix, content, zones, kind, cur);
    if |current| > 0 {
      zones := zones + [SafeZone(if kind.None? then Outside else kind.value, current)];
    }
  }

  function UserTexts(zones: seq<SafeZone>): seq<string> {
    if zones == [] then []
    else
      var last := zones[|zones| - 1];
      UserTexts(zones[..|zones| - 1]) + (if last.kind == User then [last.content] else [])
  }

  lemma {:induction false} UserTextsAppend(a: seq<SafeZone>, b: seq<SafeZone>)
    ensures UserTexts(a + b) == UserTexts(a) + UserTexts(b)
    decreases b
  {
    if b == [] {
      assert a + b == a;
    } else {
      assert (a + b)[..|a + b| - 1] == a + b[..|b| - 1];
      UserTextsAppend(a, b[..|b| - 1]);
    }
  }

  function Texts(parts: seq<seq<string>>): (r: seq<string>)
    ensures |r| == |parts| && forall i :: 0 <= i < |parts| ==> r[i] == Text(parts[i])
  {
    if parts == [] then [] else [Text(parts[0])] + Texts(parts[1..])
  }

  lemma {:induction false} UserTextsAre(zones: seq<Zone>)
    ensures UserTexts(Written(zones)) == Texts(UserParts(zones))
  {
    hide Text;
    if zones != [] {
      UserTextsAre(zones[1..]);
      UserTextsAppend([SafeZone(zones[0].kind, Text(zones[0].lines))], Written(zones[1..]));
      var parts := if zones[0].kind == User then [zones[0].lines] else [];
      assert UserTexts([SafeZone(zones[0].kind, Text(zones[0].lines))]) == Texts(parts);
      if zones[0].kind == User {
        assert (parts + UserParts(zones[1..]))[1..] == UserParts(zones[1..]);
      }
    }
  }

  /** Section numbers map to texts: the i-th user zone under key i. */
  method ExtractUserCode(content: string, prefix: string) returns (code: map<int, string>)
    ensures code == Extract(prefix, content)
  {
    hide Text, ZonesOf, Written, UserParts;
    var zones := ParseSafeZones(content, prefix);
    UserTextsAre(ZonesOf(prefix, content));
    code := map[];
    var idx, n := 0, 0;
    while n < |zones|
      invariant 0 <= n <= |zones|
      invariant idx == |UserTexts(zones[..n])|
      invariant forall i :: i in code <==> 0 <= i < idx
      invariant forall i :: 0 <= i < idx ==> code[i] == UserTexts(zones[..n])[i]
    {
      assert zones[..n + 1][..n] == zones[..n];
      if zones[n].kind == User {
        code := code[idx := zones[n].content];
        idx := idx + 1;
      }
      n := n + 1;
    }
    assert zones[..n] == zones;
  }

  function Injected(zones: seq<SafeZone>, i: int, code: map<int, string>): string {
    if zones == [] then ""
    else if zones[0].kind == User then
      (if i in code then code[i] else zones[0].content) + Injected(zones[1..], i + 1, code)
    else zones[0].content + Injected(zones[1..], i, code)
  }

  lemma {:induction false} InjectedIs(zones: seq<Zone>, i: int, code: map<int, string>)
    ensures Injected(Written(zones), i, code) == MergeText(zones, i, code)
    decreases zones
  {
    hide Text;
    if zones != [] {
      InjectedIs(zones[1..], if zones[0].kind == User then i + 1 else i, code);
    }
  }

  lemma InjectedStep(zones: seq<SafeZone>, n: nat, i: int, code: map<int, string>)
    requires n < |zones|
    ensures Injected(zones[n..], i, code) ==
            if zones[n].kind == User then
              (if i in code then code[i] else zones[n].content) + Injected(zones[n + 1..], i + 1, code)
            else zones[n].content + Injected(zones[n + 1..], i, code)
  {
    assert zones[n..][0] == zones[n] && zones[n..][1..] == zones[n + 1..];
  }

  lemma InjectedEnds(zones: seq<SafeZone>, i: int, code: map<int, string>)
    ensures Injected(zones[|zones|..], i, code) == ""
    ensures zones[0..] == zones
  {
    assert zones[|zones|..] == [];
  }

  method MergeWithUserCode(newContent: string, prefix: string, code: map<int, string>) returns (result: string)
    ensures result == Merge(prefix, newContent, code)
  {
    hide ZonesOf, Written, MergeText, Injected;
    if code == map[] {
      return newContent;
    }
    var zones := ParseSafeZones(newContent, prefix);
    InjectedIs(ZonesOf(prefix, newContent), 0, code);
    InjectedEnds(zones, 0, code);
    result := "";
    var userIdx, n := 0, 0;
    while n < |zones|
      invariant 0 <= n <= |zones|
      invariant result + Injected(zones[n..], userIdx, code) == Injected(zones, 0, code)
    {
      var z := zones[n];
      InjectedStep(zones, n, userIdx, code);
      if z.kind == User {
        ghost var rest := Injected(zones[n + 1..], userIdx + 1, code);
        if userIdx in code {
          Regroup(result, code[userIdx], rest);
          result := result + code[userIdx];
        } else {
          Regroup(result, z.content, rest);
          result := result + z.content;
        }
        userIdx := userIdx + 1;
      } else {
        Regroup(result, z.content, Injected(zones[n + 1..], userIdx, code));
        result := result + z.content;
      }
      n := n + 1;
    }
    InjectedEnds(zones, userIdx, code);
  }
}
