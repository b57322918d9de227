/** Byte-wise string order and the in-place insertion sort that dag.go and plan.go both use. */
module Strings {

  /** Go's `<` on strings. */
  predicate Less(a: string, b: string) {
    b != [] && (a == [] || a[0] < b[0] || (a[0] == b[0] && Less(a[1..], b[1..])))
  }

  lemma {:induction false} LessIrreflexive(a: string)
    ensures !Less(a, a)
  {
    if a != [] {
      LessIrreflexive(a[1..]);
    }
  }

  /** The order of the dictionary: the first difference decides, and a prefix comes before what it is a prefix of. */
  lemma {:induction false} LessExactly(a: string, b: string)
    ensures Less(a, b) <==> exists k: nat :: FirstDifference(a, b, k)
  {
    if a != [] && b != [] && a[0] == b[0] {
      LessExactly(a[1..], b[1..]);
      if k: nat :| FirstDifference(a[1..], b[1..], k) {
        assert a == [a[0]] + a[1..] && b == [b[0]] + b[1..];
        assert a[..k + 1] == [a[0]] + a[1..][..k] && b[..k + 1] == [b[0]] + b[1..][..k];
        assert FirstDifference(a, b, k + 1);
      }
      if k: nat :| FirstDifference(a, b, k) {
        assert k > 0;
        assert a[1..][..k - 1] == a[..k][1..] && b[1..][..k - 1] == b[..k][1..];
        assert FirstDifference(a[1..], b[1..], k - 1);
      }
    } else {
      assert a == [] && b != [] ==> FirstDifference(a, b, 0);
      assert a != [] && b != [] && a[0] < b[0] ==> FirstDifference(a, b, 0);
    }
  }

  /** a and b agree before k, where a ends or has the smaller character. */
  ghost predicate FirstDifference(a: string, b: string, k: nat) {
    k <= |a| && k < |b| && a[..k] == b[..k] && (k == |a| || a[k] < b[k])
  }

  lemma {:induction false} LessTransitive(a: string, b: string, c: string)
    requires Less(a, b) && Less(b, c)
    ensures Less(a, c)
  {
    if a != [] && a[0] == b[0] == c[0] {
      LessTransitive(a[1..], b[1..], c[1..]);
    }
  }

  lemma {:induction false} LessConnected(a: string, b: string)
    requires a != b
    ensures Less(a, b) || Less(b, a)
  {
    if a != [] && b != [] && a[0] == b[0] {
      assert a == [a[0]] + a[1..] && b == [b[0]] + b[1..];
      LessConnected(a[1..], b[1..]);
    }
  }

  ghost predicate WeakOrder<T(!new)>(lt: (T, T) -> bool) {
    && (forall x :: !lt(x, x))
    && (forall x, y, z :: lt(x, y) && lt(y, z) ==> lt(x, z))
    && (forall x, y, z :: lt(x, z) ==> lt(x, y) || lt(y, z))
  }

  lemma LessWeakOrder()
    ensures WeakOrder(Less)
  {
    forall x ensures !Less(x, x) {
      LessIrreflexive(x);
    }
    forall x, y, z | Less(x, y) && Less(y, z) ensures Less(x, z) {
      LessTransitive(x, y, z);
    }
    forall x, y, z | Less(x, z) ensures Less(x, y) || Less(y, z) {
      if x != y && !Less(x, y) {
        LessConnected(x, y);
        LessTransitive(y, x, z);
      }
    }
  }

  ghost predicate SortedBy<T>(s: seq<T>, lt: (T, T) -> bool) {
    forall i, j :: 0 <= i < j < |s| ==> !lt(s[j], s[i])
  }

  /** s is sorted apart from the element at j, which belongs before everything after it. */
  ghost predicate SortedExcept<T>(s: seq<T>, j: nat, lt: (T, T) -> bool) {
    && (forall p, q :: 0 <= p < q < |s| && p != j && q != j ==> !lt(s[q], s[p]))
    && (forall q :: j < q < |s| && j < |s| ==> lt(s[j], s[q]))
  }

  function Swapped<T>(s: seq<T>, j: nat): seq<T>
    requires 0 < j < |s|
  {
    s[j := s[j - 1]][j - 1 := s[j]]
  }

  lemma SwapKeeps<T(!new)>(s: seq<T>, j: nat, lt: (T, T) -> bool)
    requires WeakOrder(lt) && 0 < j < |s| && SortedExcept(s, j, lt) && lt(s[j], s[j - 1])
    ensures SortedExcept(Swapped(s, j), j - 1, lt)
  {
    var t := Swapped(s, j);
    forall p, q | 0 <= p < q < |t| && p != j - 1 && q != j - 1 ensures !lt(t[q], t[p]) {
      if p == j {
        assert t[p] == s[j - 1] && t[q] == s[q];
      } else if q == j {
        assert t[q] == s[j - 1] && t[p] == s[p];
      }
    }
  }

  lemma SettledSorted<T(!new)>(s: seq<T>, j: nat, lt: (T, T) -> bool)
    requires WeakOrder(lt) && j < |s| && SortedExcept(s, j, lt)
    requires j > 0 ==> !lt(s[j], s[j - 1])
    ensures SortedBy(s, lt)
  {
    forall p, q | 0 <= p < q < |s| ensures !lt(s[q], s[p]) {
      if q == j && p < j - 1 {
        assert !lt(s[j - 1], s[p]);
      }
    }
  }

  lemma SwapMultiset<T>(s: seq<T>, j: nat)
    requires 0 < j < |s|
    ensures multiset(Swapped(s, j)) == multiset(s)
  {
  }

  /** The inner loop: sinks a[i] into the sorted prefix before it. */
  method Sink<T(!new)>(a: array<T>, i: nat, lt: (T, T) -> bool)
    requires WeakOrder(lt) && i < a.Length && SortedBy(a[..i], lt)
    modifies a
    ensures SortedBy(a[..i + 1], lt)
    ensures a[i + 1..] == old(a[i + 1..])
    ensures multiset(a[..]) == multiset(old(a[..]))
  {
    hide WeakOrder, SortedBy;
    var j: nat := i;
    assert a[..i + 1][..i] == a[..i];
    StartSink(a[..i + 1], i, lt);
    while j > 0 && lt(a[j], a[j - 1])
      invariant j <= i
      invariant SortedExcept(a[..i + 1], j, lt)
      invariant a[i + 1..] == old(a[i + 1..])
      invariant multiset(a[..]) == multiset(old(a[..]))
    {
      ghost var s, all := a[..i + 1], a[..];
      SwapKeeps(s, j, lt);
      SwapMultiset(all, j);
      a[j], a[j - 1] := a[j - 1], a[j];
      assert a[..i + 1] == Swapped(s, j);
      assert a[..] == Swapped(all, j);
      j := j - 1;
    }
    SettledSorted(a[..i + 1], j, lt);
  }

  lemma StartSink<T>(s: seq<T>, i: nat, lt: (T, T) -> bool)
    requires |s| == i + 1 && SortedBy(s[..i], lt)
    ensures SortedExcept(s, i, lt)
  {
    assert forall k :: 0 <= k < i ==> s[k] == s[..i][k];
  }

  method InsertionSort<T(!new)>(a: array<T>, lt: (T, T) -> bool)
    requires WeakOrder(lt)
    modifies a
    ensures SortedBy(a[..], lt)
    ensures multiset(a[..]) == multiset(old(a[..]))
  {
    hide WeakOrder;
    var i := 1;
    while i < a.Length
      invariant 1 <= i
      invariant SortedBy(a[..if i <= a.Length then i else a.Length], lt)
      invariant multiset(a[..]) == multiset(old(a[..]))
    {
      Sink(a, i, lt);
      i := i + 1;
    }
    assert a[..a.Length] == a[..];
  }

  /** sortStrings of dag.go: sorted, and the same strings as often. */
  method SortStrings(a: array<string>)
    modifies a
    ensures SortedBy(a[..], Less)
    ensures multiset(a[..]) == multiset(old(a[..]))
  {
    LessWeakOrder();
    InsertionSort(a, Less);
  }

  /** Strictly increasing, so in particular without repetition. */
  ghost predicate Ascending(s: seq<string>) {
    forall i, j :: 0 <= i < j < |s| ==> Less(s[i], s[j])
  }

  ghost predicate SameElements(s: seq<string>, t: seq<string>) {
    forall x :: x in s <==> x in t
  }

  /** A set of strings has one strictly increasing listing. */
  lemma {:induction false} AscendingUnique(s: seq<string>, t: seq<string>)
    requires Ascending(s) && Ascending(t) && SameElements(s, t)
    ensures s == t
  {
    assert |s| > 0 ==> s[0] in t;
    assert |t| > 0 ==> t[0] in s;
    if s != [] {
      LeastFirst(s, t);
      forall x ensures x in s[1..] <==> x in t[1..] {
        TailMembers(s, x);
        TailMembers(t, x);
      }
      AscendingUnique(s[1..], t[1..]);
      assert s == [s[0]] + s[1..] && t == [t[0]] + t[1..];
    }
  }

  lemma LeastFirst(s: seq<string>, t: seq<string>)
    requires Ascending(s) && Ascending(t) && s != [] && t != [] && s[0] in t && t[0] in s
    ensures s[0] == t[0]
  {
    if s[0] != t[0] {
      LessTransitive(s[0], t[0], s[0]);
      LessIrreflexive(s[0]);
    }
  }

  lemma TailMembers(s: seq<string>, x: string)
    requires Ascending(s) && s != []
    ensures x in s[1..] <==> x in s && x != s[0]
  {
    LessIrreflexive(s[0]);
    assert s == [s[0]] + s[1..];
  }

  lemma SortedAscending(s: seq<string>)
    requires SortedBy(s, Less) && forall i, j :: 0 <= i < j < |s| ==> s[i] != s[j]
    ensures Ascending(s)
  {
    forall i, j | 0 <= i < j < |s| ensures Less(s[i], s[j]) {
      LessConnected(s[i], s[j]);
    }
  }

  ghost predicate NoRepeats(s: seq<string>) {
    forall x :: multiset(s)[x] <= 1
  }

  lemma {:induction false} RepeatCounts<T>(s: seq<T>, i: nat, j: nat)
    requires i < j < |s| && s[i] == s[j]
    ensures multiset(s)[s[i]] >= 2
  {
    assert s == s[..j] + s[j..];
    assert s[i] in s[..j] && s[j] in s[j..];
    assert multiset(s) == multiset(s[..j]) + multiset(s[j..]);
  }

  /** No element stands at two places. */
  ghost predicate Unique<T>(s: seq<T>) {
    forall i, j :: 0 <= i < j < |s| ==> s[i] != s[j]
  }

  lemma {:induction false} UniqueSize<T>(xs: seq<T>)
    requires Unique(xs)
    ensures |set x | x in xs| == |xs|
  {
    if xs != [] {
      var n := |xs| - 1;
      UniqueSize(xs[..n]);
      assert xs == xs[..n] + [xs[n]] && xs[n] !in xs[..n];
      assert (set x | x in xs) == (set x | x in xs[..n]) + {xs[n]};
    }
  }

  lemma {:induction false} UniqueCounts<T>(s: seq<T>, x: T)
    requires Unique(s)
    ensures multiset(s)[x] <= 1
  {
    if s != [] {
      var n := |s| - 1;
      UniqueCounts(s[..n], x);
      assert s == s[..n] + [s[n]];
      if x == s[n] {
        assert forall i :: 0 <= i < n ==> s[..n][i] == s[i] != x;
      }
    }
  }

  lemma PermutedMembers<T>(a: seq<T>, b: seq<T>)
    requires multiset(a) == multiset(b)
    ensures |a| == |b| && forall x :: x in a <==> x in b
  {
    assert |multiset(a)| == |a| && |multiset(b)| == |b|;
    assert forall x :: (x in a <==> x in multiset(a)) && (x in b <==> x in multiset(b));
  }

  lemma PermutedUnique<T>(a: seq<T>, b: seq<T>)
    requires Unique(a) && multiset(a) == multiset(b)
    ensures Unique(b) && |a| == |b|
    ensures forall i :: 0 <= i < |b| ==> b[i] in a
    ensures forall i :: 0 <= i < |a| ==> a[i] in b
  {
    forall i | 0 <= i < |b| ensures b[i] in a {
      assert b[i] in multiset(b);
    }
    forall i | 0 <= i < |a| ensures a[i] in b {
      assert a[i] in multiset(a);
    }
    forall i, j | 0 <= i < j < |b| ensures b[i] != b[j] {
      UniqueCounts(a, b[i]);
      if b[i] == b[j] {
        RepeatCounts(b, i, j);
      }
    }
    assert |multiset(a)| == |a| && |multiset(b)| == |b|;
  }

  /** Sorting a list without repetitions gives the one increasing listing of its elements. */
  method SortDistinct(s: seq<string>) returns (t: seq<string>)
    requires NoRepeats(s)
    ensures Ascending(t) && SameElements(s, t) && |t| == |s|
  {
    var a := new string[|s|](i requires 0 <= i < |s| => s[i]);
    assert a[..] == s;
    SortStrings(a);
    t := a[..];
    forall x ensures x in s <==> x in t {
      assert x in s <==> x in multiset(s);
      assert x in t <==> x in multiset(t);
    }
    forall i, j | 0 <= i < j < |t| ensures t[i] != t[j] {
      if t[i] == t[j] {
        RepeatCounts(t, i, j);
      }
    }
    SortedAscending(t);
    assert |multiset(t)| == |t| && |multiset(s)| == |s|;
  }

  /** The keys of a Go map, collected in whatever order and then sorted. */
  method SortedKeys(keys: set<string>) returns (s: seq<string>)
    ensures Ascending(s) && forall x :: x in s <==> x in keys
  {
    var rest := keys;
    s := [];
    while rest != {}
      invariant rest <= keys
      invariant NoRepeats(s) && forall x :: x in s <==> x in keys - rest
      decreases |rest|
    {
      var k :| k in rest;
      assert k !in s && (k in multiset(s) <==> k in s);
      s := s + [k];
      rest := rest - {k};
    }
    s := SortDistinct(s);
  }

  ghost predicate IsLeast(x: string, keys: set<string>) {
    x in keys && forall y :: y in keys && y != x ==> Less(x, y)
  }

  lemma {:induction false} LeastExists(keys: set<string>) returns (x: string)
    requires keys != {}
    ensures IsLeast(x, keys)
    decreases keys
  {
    var y :| y in keys;
    if keys == {y} {
      x := y;
    } else {
      var rest := keys - {y};
      assert keys == rest + {y};
      x := LeastExists(rest);
      LessConnected(x, y);
      if Less(y, x) {
        forall z | z in rest && z != x ensures Less(y, z) {
          LessTransitive(y, x, z);
        }
        x := y;
      }
    }
  }

  lemma LeastWitness(keys: set<string>)
    requires keys != {}
    ensures exists x :: IsLeast(x, keys)
  {
    var x := LeastExists(keys);
  }

  /** The increasing listing of a set of strings. */
  ghost function Listing(keys: set<string>): (s: seq<string>)
    ensures Ascending(s) && forall x :: x in s <==> x in keys
    decreases keys
  {
    if keys == {} then [] else
      LeastWitness(keys);
      var x :| IsLeast(x, keys);
      assert keys == {x} + (keys - {x});
      [x] + Listing(keys - {x})
  }

  /** unicode.IsSpace. */
  predicate IsSpace(c: char) {
    var n := c as int;
    9 <= n <= 13 || n == 32 || n == 0x85 || n == 0xA0 || n == 0x1680 || 0x2000 <= n <= 0x200A ||
    n == 0x2028 || n == 0x2029 || n == 0x202F || n == 0x205F || n == 0x3000
  }

  function TrimLeft(s: string): string {
    if s != "" && IsSpace(s[0]) then TrimLeft(s[1..]) else s
  }

  function TrimRight(s: string): string {
    if s != "" && IsSpace(s[|s| - 1]) then TrimRight(s[..|s| - 1]) else s
  }

  /** strings.TrimSpace. */
  function TrimSpace(s: string): string {
    TrimRight(TrimLeft(s))
  }
}
