/**
  The order `Array.prototype.sort()` puts strings in when no comparator is
  given: lexicographic by character code, a proper prefix first. The keys
  sorted here are the output of encodeURIComponent, which is ASCII, so the
  UTF-16 code units that JavaScript compares are the characters themselves.
*/
module KeySort {

  /** a comes strictly before b. */
  predicate Below(a: string, b: string)
    decreases |a|
  {
    if a == [] then b != []
    else if b == [] then false
    else a[0] < b[0] || (a[0] == b[0] && Below(a[1..], b[1..]))
  }

  /** a comes before b or is b. */
  predicate NotAbove(a: string, b: string) {
    a == b || Below(a, b)
  }

  lemma {:induction false} BelowIrreflexive(a: string)
    ensures !Below(a, a)
    decreases |a|
  {
    if a != [] {
      BelowIrreflexive(a[1..]);
    }
  }

  lemma {:induction false} BelowTransitive(a: string, b: string, c: string)
    requires Below(a, b) && Below(b, c)
    ensures Below(a, c)
    decreases |a|
  {
    if a != [] && a[0] == b[0] && b[0] == c[0] {
      BelowTransitive(a[1..], b[1..], c[1..]);
    }
  }

  /** Two different strings are ordered one way or the other. */
  lemma {:induction false} BelowTotal(a: string, b: string)
    requires a != b
    ensures Below(a, b) || Below(b, a)
    decreases |a|
  {
    if a != [] && b != [] && a[0] == b[0] {
      assert a == [a[0]] + a[1..] && b == [b[0]] + b[1..];
      BelowTotal(a[1..], b[1..]);
    }
  }

  lemma NotAboveTransitive(a: string, b: string, c: string)
    requires NotAbove(a, b) && NotAbove(b, c)
    ensures NotAbove(a, c)
  {
    if a != b && b != c {
      BelowTransitive(a, b, c);
    }
  }

  lemma NotAboveAntisymmetric(a: string, b: string)
    requires NotAbove(a, b) && NotAbove(b, a)
    ensures a == b
  {
    if a != b {
      BelowTransitive(a, b, a);
      BelowIrreflexive(a);
    }
  }

  /** Every element is at or before every later one. */
  predicate Sorted(s: seq<string>) {
    forall i, j :: 0 <= i < j < |s| ==> NotAbove(s[i], s[j])
  }

  /** The reference order: insertion of x into a sorted sequence. */
  function InsertSorted(x: string, s: seq<string>): (r: seq<string>)
    requires Sorted(s)
    ensures Sorted(r)
    ensures multiset(r) == multiset(s) + multiset{x}
  {
    if s == [] then [x]
    else if NotAbove(x, s[0]) then
      FrontStaysSorted(x, s);
      [x] + s
    else
      var t := InsertSorted(x, s[1..]);
      HeadStaysSorted(x, s, t);
      [s[0]] + t
  }

  /** When x goes after the head, the head stays in front of the rest with x inserted. */
  lemma HeadStaysSorted(x: string, s: seq<string>, t: seq<string>)
    requires Sorted(s) && s != [] && !NotAbove(x, s[0])
    requires Sorted(t) && multiset(t) == multiset(s[1..]) + multiset{x}
    ensures Sorted([s[0]] + t)
    ensures multiset([s[0]] + t) == multiset(s) + multiset{x}
  {
    NotAboveFlips(x, s[0]);
    forall j | 0 <= j < |t| ensures NotAbove(s[0], t[j]) {
      assert t[j] in multiset(t);
      if t[j] != x {
        var k :| 1 <= k < |s| && s[k] == t[j];
      }
    }
    assert s == [s[0]] + s[1..];
  }

  /** A string at or before the head of a sorted sequence can go in front of it. */
  lemma FrontStaysSorted(x: string, s: seq<string>)
    requires Sorted(s) && s != [] && NotAbove(x, s[0])
    ensures Sorted([x] + s)
  {
    forall j | 0 <= j < |s| ensures NotAbove(x, s[j]) {
      if j > 0 { NotAboveTransitive(x, s[0], s[j]); }
    }
  }

  /** The order is total: a string not at or before another comes after it. */
  lemma NotAboveFlips(a: string, b: string)
    requires !NotAbove(a, b)
    ensures Below(b, a)
  {
    BelowTotal(a, b);
  }

  /** The reference sort. */
  function SortStrings(s: seq<string>): (r: seq<string>)
    ensures Sorted(r)
    ensures multiset(r) == multiset(s)
  {
    if s == [] then []
    else
      assert s == s[..|s| - 1] + [s[|s| - 1]];
      InsertSorted(s[|s| - 1], SortStrings(s[..|s| - 1]))
  }

  /** A sorted sequence starts with its least element. */
  lemma HeadIsLeast(s: seq<string>, x: string)
    requires Sorted(s) && x in multiset(s)
    ensures NotAbove(s[0], x)
  {
    var i :| 0 <= i < |s| && s[i] == x;
  }

  lemma TailSorted(s: seq<string>)
    requires Sorted(s) && s != []
    ensures Sorted(s[1..])
  {
    forall i, j | 0 <= i < j < |s[1..]| ensures NotAbove(s[1..][i], s[1..][j]) {
      assert s[1..][i] == s[i + 1] && s[1..][j] == s[j + 1];
    }
  }

  /** Sorting leaves no choice: two sorted arrangements of the same strings are equal. */
  lemma {:induction false} SortedUnique(a: seq<string>, b: seq<string>)
    requires Sorted(a) && Sorted(b) && multiset(a) == multiset(b)
    ensures a == b
    decreases |a|
  {
    if a != [] {
      assert a[0] in multiset(a);
      assert b != [];
      assert b[0] in multiset(b);
      HeadIsLeast(a, b[0]);
      HeadIsLeast(b, a[0]);
      NotAboveAntisymmetric(a[0], b[0]);
      assert a == [a[0]] + a[1..] && b == [b[0]] + b[1..];
      assert multiset(a) == multiset{a[0]} + multiset(a[1..]);
      assert multiset(b) == multiset{b[0]} + multiset(b[1..]);
      assert multiset(a[1..]) == multiset(a) - multiset{a[0]};
      assert multiset(b[1..]) == multiset(b) - multiset{b[0]};
      TailSorted(a);
      TailSorted(b);
      SortedUnique(a[1..], b[1..]);
    }
  }

  /** `arr.sort()`, as insertion sort by adjacent swaps. */
  method SortInPlace(a: array<string>)
    modifies a
    ensures Sorted(a[..])
    ensures multiset(a[..]) == multiset(old(a[..]))
  {
    if a.Length == 0 { return; }
    var i := 1;
    while i < a.Length
      invariant 1 <= i <= a.Length
      invariant OrderedBefore(a[..], i)
      invariant multiset(a[..]) == multiset(old(a[..]))
    {
      Sink(a, i);
      i := i + 1;
    }
  }

  /** The first n elements of s are in order. */
  predicate OrderedBefore(s: seq<string>, n: nat)
    requires n <= |s|
  {
    forall k, l :: 0 <= k < l < n ==> NotAbove(s[k], s[l])
  }

  /**
    The state of the sinking loop: apart from the moving element at j, s[..i+1]
    is in order; the moving element is below everything after it; and its two
    neighbours are in order with each other.
  */
  predicate Sinking(s: seq<string>, i: nat, j: nat)
    requires j <= i < |s|
  {
    (forall k, l :: 0 <= k < l <= i && k != j && l != j ==> NotAbove(s[k], s[l]))
    && (forall l :: j < l <= i ==> Below(s[j], s[l]))
    && (0 < j < i ==> NotAbove(s[j - 1], s[j + 1]))
  }

  /** Moves a[i] down into the sorted prefix a[..i]. */
  method Sink(a: array<string>, i: nat)
    modifies a
    requires i < a.Length
    requires OrderedBefore(a[..], i)
    ensures OrderedBefore(a[..], i + 1)
    ensures multiset(a[..]) == multiset(old(a[..]))
  {
    var j := i;
    SinkStarts(a[..], i);
    while j > 0 && Below(a[j], a[j - 1])
      invariant 0 <= j <= i
      invariant Sinking(a[..], i, j)
      invariant multiset(a[..]) == multiset(old(a[..]))
    {
      ghost var s := a[..];
      assert s[j] == a[j] && s[j - 1] == a[j - 1];
      a[j - 1], a[j] := a[j], a[j - 1];
      assert a[..] == Swapped(s, j);
      SinkStep(s, i, j);
      j := j - 1;
    }
    assert j > 0 ==> a[..][j] == a[j] && a[..][j - 1] == a[j - 1];
    SunkInPlace(a[..], i, j);
  }

  lemma SinkStarts(s: seq<string>, i: nat)
    requires i < |s| && OrderedBefore(s, i)
    ensures Sinking(s, i, i)
  {
  }

  /** Where the sinking stops, the prefix up to i is in order. */
  lemma SunkInPlace(s: seq<string>, i: nat, j: nat)
    requires j <= i < |s|
    requires Sinking(s, i, j)
    requires !(j > 0 && Below(s[j], s[j - 1]))
    ensures OrderedBefore(s, i + 1)
  {
    if j > 0 && s[j - 1] != s[j] {
      BelowTotal(s[j - 1], s[j]);
    }
    forall k, l | 0 <= k < l <= i ensures NotAbove(s[k], s[l]) {
      if l == j && k < j - 1 {
        NotAboveTransitive(s[k], s[j - 1], s[j]);
      } else if k < j < l {
        NotAboveTransitive(s[k], s[j - 1], s[j]);
        NotAboveTransitive(s[k], s[j], s[l]);
      }
    }
  }

  /** s with positions j - 1 and j exchanged. */
  function Swapped(s: seq<string>, j: nat): (r: seq<string>)
    requires 0 < j < |s|
    ensures |r| == |s| && multiset(r) == multiset(s)
  {
    s[j - 1 := s[j]][j := s[j - 1]]
  }

  /** One swap of the sinking loop keeps its invariant. */
  lemma SinkStep(s: seq<string>, i: nat, j: nat)
    requires 0 < j <= i < |s|
    requires Sinking(s, i, j) && Below(s[j], s[j - 1])
    ensures Sinking(Swapped(s, j), i, j - 1)
  {
    var r := Swapped(s, j);
    assert r[j - 1] == s[j] && r[j] == s[j - 1];
    assert forall l :: 0 <= l < |s| && l != j - 1 && l != j ==> r[l] == s[l];
  }
}
