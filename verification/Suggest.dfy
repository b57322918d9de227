/** The "did you mean" hints of internal/validate/semantic.go. A string is the sequence of its bytes. */
module Suggest {
  import Strings

  // ---- What a number of edits can do ----

  ghost predicate Inserts(a: string, b: string, x: string, c: char, y: string) {
    a == x + y && b == x + [c] + y
  }

  ghost predicate Substitutes(a: string, b: string, x: string, c: char, d: char, y: string) {
    a == x + [c] + y && b == x + [d] + y
  }

  /** b is a with one byte inserted, deleted or replaced. */
  ghost predicate OneEdit(a: string, b: string) {
    || (exists x, c, y :: Inserts(a, b, x, c, y))
    || (exists x, c, y :: Inserts(b, a, x, c, y))
    || (exists x, c, d, y :: Substitutes(a, b, x, c, d, y))
  }

  ghost predicate EditsIn(a: string, b: string, n: nat)
    decreases n
  {
    if n == 0 then a == b else exists m :: OneEdit(a, m) && EditsIn(m, b, n - 1)
  }

  // ---- The recurrence the two rows are filled by ----

  function Min(x: nat, y: nat): nat {
    if x <= y then x else y
  }

  function Init(s: string): string
    requires s != ""
  {
    s[..|s| - 1]
  }

  function Last(s: string): char
    requires s != ""
  {
    s[|s| - 1]
  }

  function Dist(a: string, b: string): nat
    decreases |a| + |b|
  {
    if a == "" then |b| else if b == "" then |a| else
      var cost := if Last(a) == Last(b) then 0 else 1;
      Min(Dist(a, Init(b)) + 1, Min(Dist(Init(a), b) + 1, Dist(Init(a), Init(b)) + cost))
  }

  // ---- Distance is a metric ----

  lemma {:induction false} DistSymmetric(a: string, b: string)
    ensures Dist(a, b) == Dist(b, a)
    decreases |a| + |b|
  {
    if a != "" && b != "" {
      DistSymmetric(a, Init(b));
      DistSymmetric(Init(a), b);
      DistSymmetric(Init(a), Init(b));
    }
  }

  lemma {:induction false} DistZero(a: string, b: string)
    ensures Dist(a, b) == 0 <==> a == b
    decreases |a| + |b|
  {
    if a != "" && b != "" {
      DistZero(Init(a), Init(b));
      assert a == Init(a) + [Last(a)] && b == Init(b) + [Last(b)];
    }
  }

  lemma {:induction false} DistTriangle(a: string, b: string, c: string)
    ensures Dist(a, c) <= Dist(a, b) + Dist(b, c)
    decreases |a| + |b| + |c|
  {
    if a == "" {
      DistLength(b, c);
    } else if c == "" {
      DistLength(a, b);
    } else if b == "" {
      DistUpper(a, c);
    } else {
      if Dist(a, b) == Dist(Init(a), b) + 1 {
        DistTriangle(Init(a), b, c);
      } else if Dist(b, c) == Dist(b, Init(c)) + 1 {
        DistTriangle(a, b, Init(c));
      } else if Dist(a, b) == Dist(a, Init(b)) + 1 {
        if Dist(b, c) == Dist(Init(b), c) + 1 {
          DistTriangle(a, Init(b), c);
        } else {
          DistTriangle(a, Init(b), Init(c));
        }
      } else if Dist(b, c) == Dist(Init(b), c) + 1 {
        DistTriangle(Init(a), Init(b), c);
      } else {
        DistTriangle(Init(a), Init(b), Init(c));
      }
    }
  }

  lemma {:induction false} DistLength(a: string, b: string)
    ensures |a| <= Dist(a, b) + |b| && |b| <= |a| + Dist(a, b)
    decreases |a| + |b|
  {
    if a != "" && b != "" {
      DistLength(a, Init(b));
      DistLength(Init(a), b);
      DistLength(Init(a), Init(b));
    }
  }

  lemma {:induction false} DistUpper(a: string, b: string)
    ensures Dist(a, b) <= |a| + |b|
    decreases |a| + |b|
  {
    if a != "" && b != "" {
      DistUpper(a, Init(b));
    }
  }

  // ---- No fewer edits suffice ----

  lemma {:induction false} InsertCost(x: string, c: char, y: string)
    ensures Dist(x + y, x + [c] + y) <= 1
    decreases |y|
  {
    if y == "" {
      assert x + y == x && x + [c] + y == x + [c] && Init(x + [c]) == x;
      DistZero(x, x);
    } else {
      InsertCost(x, c, Init(y));
      assert Init(x + y) == x + Init(y) && Init(x + [c] + y) == x + [c] + Init(y);
    }
  }

  lemma {:induction false} SubstituteCost(x: string, c: char, d: char, y: string)
    ensures Dist(x + [c] + y, x + [d] + y) <= 1
    decreases |y|
  {
    if y == "" {
      assert x + [c] + y == x + [c] && x + [d] + y == x + [d] && Init(x + [c]) == x && Init(x + [d]) == x;
      DistZero(x, x);
    } else {
      SubstituteCost(x, c, d, Init(y));
      assert Init(x + [c] + y) == x + [c] + Init(y) && Init(x + [d] + y) == x + [d] + Init(y);
    }
  }

  lemma OneEditCost(a: string, b: string)
    requires OneEdit(a, b)
    ensures Dist(a, b) <= 1
  {
    hide Dist;
    if x, c, y :| Inserts(a, b, x, c, y) {
      InsertCost(x, c, y);
    } else if x, c, y :| Inserts(b, a, x, c, y) {
      InsertCost(x, c, y);
      DistSymmetric(a, b);
    } else {
      var x, c, d, y :| Substitutes(a, b, x, c, d, y);
      SubstituteCost(x, c, d, y);
    }
  }

  lemma {:induction false} NoFewerEdits(a: string, b: string, n: nat)
    requires EditsIn(a, b, n)
    ensures Dist(a, b) <= n
    decreases n
  {
    hide Dist, OneEdit;
    if n == 0 {
      DistZero(a, b);
    } else {
      var m :| OneEdit(a, m) && EditsIn(m, b, n - 1);
      NoFewerEdits(m, b, n - 1);
      OneEditCost(a, m);
      DistTriangle(a, m, b);
    }
  }

  // ---- That many edits do suffice ----

  lemma OneEditAppend(a: string, b: string, e: char)
    requires OneEdit(a, b)
    ensures OneEdit(a + [e], b + [e])
  {
    if x, c, y :| Inserts(a, b, x, c, y) {
      assert Inserts(a + [e], b + [e], x, c, y + [e]);
    } else if x, c, y :| Inserts(b, a, x, c, y) {
      assert Inserts(b + [e], a + [e], x, c, y + [e]);
    } else {
      var x, c, d, y :| Substitutes(a, b, x, c, d, y);
      assert Substitutes(a + [e], b + [e], x, c, d, y + [e]);
    }
  }

  lemma {:induction false} EditsAppend(a: string, b: string, n: nat, e: char)
    requires EditsIn(a, b, n)
    ensures EditsIn(a + [e], b + [e], n)
    decreases n
  {
    hide OneEdit;
    if n > 0 {
      var m :| OneEdit(a, m) && EditsIn(m, b, n - 1);
      OneEditAppend(a, m, e);
      EditsAppend(m, b, n - 1, e);
    }
  }

  lemma {:induction false} EditsThen(a: string, m: string, b: string, n: nat)
    requires EditsIn(a, m, n) && OneEdit(m, b)
    ensures EditsIn(a, b, n + 1)
    decreases n
  {
    hide OneEdit;
    if n == 0 {
      assert EditsIn(b, b, 0);
    } else {
      var k :| OneEdit(a, k) && EditsIn(k, m, n - 1);
      EditsThen(k, m, b, n - 1);
    }
  }

  lemma LastInserted(b: string)
    requires b != ""
    ensures OneEdit(Init(b), b) && OneEdit(b, Init(b))
  {
    assert Inserts(Init(b), b, Init(b), Last(b), "");
  }

  lemma LastReplaced(a: string, c: char, d: char)
    ensures OneEdit(a + [c], a + [d])
  {
    assert Substitutes(a + [c], a + [d], a, c, d, "");
  }

  lemma {:induction false} DistStep(a: string, b: string)
    requires a != "" && b != ""
    ensures var cost := if Last(a) == Last(b) then 0 else 1;
            Dist(a, b) == Min(Dist(a, Init(b)) + 1, Min(Dist(Init(a), b) + 1, Dist(Init(a), Init(b)) + cost))
  {
  }

  lemma EditsFrom(a: string, m: string, b: string, n: nat)
    requires OneEdit(a, m) && EditsIn(m, b, n)
    ensures EditsIn(a, b, n + 1)
  {
    hide OneEdit;
  }

  lemma {:induction false} EnoughInsertions(b: string)
    ensures EditsIn("", b, |b|)
  {
    if b != "" {
      hide OneEdit, EditsIn;
      EnoughInsertions(Init(b));
      LastInserted(b);
      EditsThen("", Init(b), b, |b| - 1);
    }
  }

  lemma {:induction false} EnoughDeletions(a: string)
    ensures EditsIn(a, "", |a|)
  {
    if a != "" {
      hide OneEdit, EditsIn;
      EnoughDeletions(Init(a));
      LastInserted(a);
      EditsFrom(a, Init(a), "", |a| - 1);
    }
  }

  lemma {:induction false} EnoughEdits(a: string, b: string)
    ensures EditsIn(a, b, Dist(a, b))
    decreases |a| + |b|
  {
    hide OneEdit, EditsIn;
    if a == "" {
      EnoughInsertions(b);
    } else if b == "" {
      EnoughDeletions(a);
    } else {
      hide Dist;
      DistStep(a, b);
      if Dist(a, b) == Dist(a, Init(b)) + 1 {
        EnoughEdits(a, Init(b));
        LastInserted(b);
        EditsThen(a, Init(b), b, Dist(a, Init(b)));
      } else if Dist(a, b) == Dist(Init(a), b) + 1 {
        EnoughEdits(Init(a), b);
        LastInserted(a);
        EditsFrom(a, Init(a), b, Dist(Init(a), b));
      } else {
        EnoughEdits(Init(a), Init(b));
        LastChanged(a, b, Dist(Init(a), Init(b)));
      }
    }
  }

  lemma LastChanged(a: string, b: string, n: nat)
    requires a != "" && b != "" && EditsIn(Init(a), Init(b), n)
    ensures EditsIn(a, b, n + if Last(a) == Last(b) then 0 else 1)
  {
    hide OneEdit, EditsIn;
    EditsAppend(Init(a), Init(b), n, Last(a));
    assert Init(a) + [Last(a)] == a && Init(b) + [Last(b)] == b;
    if Last(a) != Last(b) {
      LastReplaced(Init(b), Last(a), Last(b));
      EditsThen(a, Init(b) + [Last(a)], b, n);
    }
  }

  /** The distance is the least number of single-byte edits. */
  lemma LeastEdits(a: string, b: string)
    ensures EditsIn(a, b, Dist(a, b))
    ensures forall n: nat :: EditsIn(a, b, n) ==> Dist(a, b) <= n
  {
    hide Dist, EditsIn;
    EnoughEdits(a, b);
    forall n: nat | EditsIn(a, b, n) ensures Dist(a, b) <= n {
      NoFewerEdits(a, b, n);
    }
  }

  // ---- The loops ----

  method FirstRow(lb: nat) returns (prev: array<int>)
    ensures fresh(prev) && prev.Length == lb + 1 && forall k :: 0 <= k <= lb ==> prev[k] == k
  {
    prev := new int[lb + 1];
    var j := 0;
    while j <= lb
      invariant 0 <= j <= lb + 1
      invariant forall k :: 0 <= k < j ==> prev[k] == k
    {
      prev[j] := j;
      j := j + 1;
    }
  }

  ghost predicate IsRow(row: seq<int>, a: string, b: string) {
    |row| == |b| + 1 && forall k :: 0 <= k <= |b| ==> row[k] == Dist(a, b[..k])
  }

  lemma {:induction false} Recurrence(a: string, b: string, i: nat, j: nat)
    requires 1 <= i <= |a| && 1 <= j <= |b|
    ensures var cost := if a[i - 1] == b[j - 1] then 0 else 1;
            Dist(a[..i], b[..j]) ==
            Min(Dist(a[..i], b[..j - 1]) + 1, Min(Dist(a[..i - 1], b[..j]) + 1, Dist(a[..i - 1], b[..j - 1]) + cost))
  {
    hide Dist;
    DistStep(a[..i], b[..j]);
    assert Init(a[..i]) == a[..i - 1] && Init(b[..j]) == b[..j - 1];
  }

  method NextRow(a: string, b: string, i: nat, prev: array<int>, curr: array<int>)
    requires 1 <= i <= |a| && prev != curr && curr.Length == |b| + 1
    requires IsRow(prev[..], a[..i - 1], b)
    modifies curr
    ensures IsRow(curr[..], a[..i], b)
  {
    hide Dist;
    curr[0] := i;
    RowStart(a[..i], b);
    var j := 1;
    while j <= |b|
      invariant 1 <= j <= |b| + 1
      invariant forall k :: 0 <= k < j ==> curr[k] == Dist(a[..i], b[..k])
      invariant IsRow(prev[..], a[..i - 1], b)
    {
      var cost := 1;
      if a[i - 1] == b[j - 1] {
        cost := 0;
      }
      Recurrence(a, b, i, j);
      assert prev[..][j] == prev[j] && prev[..][j - 1] == prev[j - 1];
      var best := if prev[j] + 1 <= prev[j - 1] + cost then prev[j] + 1 else prev[j - 1] + cost;
      curr[j] := if curr[j - 1] + 1 <= best then curr[j - 1] + 1 else best;
      j := j + 1;
    }
  }

  lemma RowStart(a: string, b: string)
    ensures Dist(a, b[..0]) == |a|
  {
  }

  method Levenshtein(a: string, b: string) returns (d: nat)
    ensures d == Dist(a, b)
  {
    if |a| == 0 {
      return |b|;
    }
    if |b| == 0 {
      return |a|;
    }
    var prev := FirstRow(|b|);
    var curr := new int[|b| + 1];
    assert IsRow(prev[..], a[..0], b);
    var i := 1;
    while i <= |a|
      invariant 1 <= i <= |a| + 1
      invariant fresh(prev) && fresh(curr) && prev != curr && curr.Length == |b| + 1
      invariant IsRow(prev[..], a[..i - 1], b)
    {
      hide Dist;
      NextRow(a, b, i, prev, curr);
      prev, curr := curr, prev;
      i := i + 1;
    }
    assert a[..i - 1] == a && b[..|b|] == b;
    assert prev[..][|b|] == Dist(a, b);
    d := prev[|b|];
  }

  // ---- Hints ----

  datatype Hint = NoHint | DidYouMean(name: string) | Available(names: seq<string>)

  /** n is the closest name; among equally close ones the least. */
  ghost predicate IsClosest(name: string, names: seq<string>, n: string) {
    && n in names
    && forall m :: m in names ==>
         Dist(name, n) < Dist(name, m) || (Dist(name, n) == Dist(name, m) && (n == m || Strings.Less(n, m)))
  }

  lemma EmptyDist(name: string)
    ensures Dist(name, "") == |name|
  {
  }

  /** Some name other than the empty one is within half the length. */
  ghost predicate Near(name: string, available: set<string>) {
    exists n :: n in available && n != "" && Dist(name, n) <= |name| / 2
  }

  /** The search loop, from a bound to beat: the first of the nearest names below it. */
  method Nearest(name: string, names: seq<string>, bound: nat) returns (best: string, bestDist: nat)
    ensures bestDist <= bound && forall k :: 0 <= k < |names| ==> bestDist <= Dist(name, names[k])
    ensures bestDist == bound ==> best == ""
    ensures bestDist < bound ==> IsFirst(name, names, |names|, best, bestDist)
  {
    hide Dist;
    best, bestDist := "", bound;
    var i := 0;
    while i < |names|
      invariant 0 <= i <= |names|
      invariant bestDist <= bound
      invariant forall k :: 0 <= k < i ==> bestDist <= Dist(name, names[k])
      invariant bestDist < bound ==> IsFirst(name, names, i, best, bestDist)
      invariant bestDist == bound ==> best == ""
    {
      var d := Levenshtein(name, names[i]);
      if d < bestDist {
        bestDist := d;
        best := names[i];
      }
      i := i + 1;
    }
  }

  /** best is the first of names at distance d, and every name before it is farther. */
  ghost predicate IsFirst(name: string, names: seq<string>, n: nat, best: string, d: nat)
    requires n <= |names|
  {
    exists k ::
      0 <= k < n && names[k] == best && Dist(name, best) == d && forall j :: 0 <= j < k ==> d < Dist(name, names[j])
  }

  lemma FirstIsClosest(name: string, names: seq<string>, best: string, d: nat)
    requires Strings.Ascending(names) && IsFirst(name, names, |names|, best, d)
    requires forall k :: 0 <= k < |names| ==> d <= Dist(name, names[k])
    ensures IsClosest(name, names, best)
  {
    hide Dist, Strings.Less;
    var k :| 0 <= k < |names| && names[k] == best && Dist(name, best) == d
             && forall j :: 0 <= j < k ==> d < Dist(name, names[j]);
    forall m | m in names
      ensures Dist(name, best) < Dist(name, m) ||
              (Dist(name, best) == Dist(name, m) && (best == m || Strings.Less(best, m)))
    {
      var j :| 0 <= j < |names| && names[j] == m;
    }
  }

  lemma FarFromAll(name: string, names: seq<string>, available: set<string>)
    requires forall n :: n in available ==> n in names
    requires name == "" || forall k :: 0 <= k < |names| ==> |name| / 2 < Dist(name, names[k])
    ensures !Near(name, available)
  {
    hide Dist;
    forall n | n in available && n != "" ensures |name| / 2 < Dist(name, n) {
      if name == "" {
        DistZero(name, n);
      } else {
        var k :| 0 <= k < |names| && names[k] == n;
      }
    }
  }

  method SuggestName(name: string, available: set<string>) returns (hint: Hint)
    ensures hint.NoHint? <==> available == {}
    ensures hint.DidYouMean? <==> Near(name, available)
    ensures hint.DidYouMean? ==>
              IsClosest(name, Strings.Listing(available), hint.name) && Dist(name, hint.name) <= |name| / 2
    ensures hint.Available? ==> hint.names == Strings.Listing(available)
  {
    hide Dist, Strings.Less, IsClosest, Strings.Listing;
    if available == {} {
      return NoHint;
    }
    var names := Strings.SortedKeys(available);
    Strings.AscendingUnique(names, Strings.Listing(available));
    var best, bestDist := Nearest(name, names, |name| / 2 + 1);
    EmptyDist(name);
    if best != "" {
      assert best in available;
      FirstIsClosest(name, names, best, bestDist);
      hint := DidYouMean(best);
    } else {
      hint := Available(names);
      if bestDist == 0 {
        DistZero(name, "");
      }
      FarFromAll(name, names, available);
    }
  }
}
