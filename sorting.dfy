/** The order JavaScript's default `Array.prototype.sort` puts strings in:
    lexicographic comparison of their code units. The sort itself belongs to
    the runtime; it is specified here by a reference insertion sort, together
    with the fact that a sorted permutation is unique, so every correct sort
    gives the same sequence. */
module Sorting {

  /** `a` sorts no later than `b`. */
  predicate LexLe(a: string, b: string)
    decreases |a|
  {
    a == [] || (b != [] && (a[0] < b[0] || (a[0] == b[0] && LexLe(a[1..], b[1..]))))
  }

  lemma {:induction false} LexLeTotal(a: string, b: string)
    ensures LexLe(a, b) || LexLe(b, a)
    decreases |a|
  {
    if a != [] && b != [] && a[0] == b[0] { LexLeTotal(a[1..], b[1..]); }
  }

  lemma {:induction false} LexLeAntisymmetric(a: string, b: string)
    requires LexLe(a, b) && LexLe(b, a)
    ensures a == b
    decreases |a|
  {
    if a != [] {
      LexLeAntisymmetric(a[1..], b[1..]);
      assert a == [a[0]] + a[1..] && b == [b[0]] + b[1..];
    }
  }

  lemma {:induction false} LexLeTransitive(a: string, b: string, c: string)
    requires LexLe(a, b) && LexLe(b, c)
    ensures LexLe(a, c)
    decreases |a|
  {
    if a != [] && a[0] == b[0] && b[0] == c[0] { LexLeTransitive(a[1..], b[1..], c[1..]); }
  }

  predicate Sorted(s: seq<string>) {
    forall i, j :: 0 <= i < j < |s| ==> LexLe(s[i], s[j])
  }

  /** `x` placed before the first element it sorts before. */
  function Insert(x: string, s: seq<string>): (r: seq<string>)
    requires Sorted(s)
    ensures Sorted(r) && multiset(r) == multiset(s) + multiset{x}
  {
    if s == [] then [x]
    else if LexLe(x, s[0]) then
      assert forall j :: 0 <= j < |s| ==> LexLe(x, s[j]) by {
        forall j | 0 <= j < |s| ensures LexLe(x, s[j]) {
          if j > 0 { LexLeTransitive(x, s[0], s[j]); }
        }
      }
      [x] + s
    else
      var t := Insert(x, s[1..]);
      LexLeTotal(x, s[0]);
      assert s == [s[0]] + s[1..];
      LowerBoundKept(s[0], t, s[1..], x);
      [s[0]] + t
  }

  /** A lower bound of `u` and of `x` bounds every permutation of `u` with `x`
      added. */
  lemma LowerBoundKept(y: string, t: seq<string>, u: seq<string>, x: string)
    requires multiset(t) == multiset(u) + multiset{x}
    requires LexLe(y, x) && forall j :: 0 <= j < |u| ==> LexLe(y, u[j])
    ensures forall j :: 0 <= j < |t| ==> LexLe(y, t[j])
  {
    forall j | 0 <= j < |t| ensures LexLe(y, t[j]) {
      assert t[j] in multiset(t);
      if t[j] != x {
        assert t[j] in multiset(u);
        var k :| 0 <= k < |u| && u[k] == t[j];
      }
    }
  }

  /** The reference sort: a sorted permutation of its input. */
  function Sort(s: seq<string>): (r: seq<string>)
    ensures Sorted(r) && multiset(r) == multiset(s)
  {
    if s == [] then [] else
      assert s == s[..|s| - 1] + [s[|s| - 1]];
      Insert(s[|s| - 1], Sort(s[..|s| - 1]))
  }

  /** The first element of a sorted sequence sorts no later than any of its
      elements. */
  lemma HeadIsLeast(s: seq<string>, x: string)
    requires Sorted(s) && x in s
    ensures LexLe(s[0], x)
  {
    var k :| 0 <= k < |s| && s[k] == x;
    if k == 0 { LexLeReflexive(x); }
  }

  lemma {:induction false} LexLeReflexive(a: string)
    ensures LexLe(a, a)
    decreases |a|
  {
    if a != [] { LexLeReflexive(a[1..]); }
  }

  lemma TailSorted(s: seq<string>)
    requires Sorted(s) && s != []
    ensures Sorted(s[1..])
  {
    forall i, j | 0 <= i < j < |s| - 1 ensures LexLe(s[1..][i], s[1..][j]) {
      assert s[1..][i] == s[i + 1] && s[1..][j] == s[j + 1];
    }
  }

  lemma TailMultiset(s: seq<string>)
    requires s != []
    ensures multiset(s[1..]) == multiset(s) - multiset{s[0]}
  {
    assert s == [s[0]] + s[1..];
  }

  /** Two sorted sequences with the same elements are equal: any correct sort
      agrees with `Sort`. */
  lemma {:induction false} SortedUnique(a: seq<string>, b: seq<string>)
    requires Sorted(a) && Sorted(b) && multiset(a) == multiset(b)
    ensures a == b
    decreases |a|
  {
    if a != [] {
      assert |b| == |a| by { assert |multiset(b)| == |multiset(a)|; }
      assert a[0] in multiset(b) && b[0] in multiset(a);
      HeadIsLeast(b, a[0]);
      HeadIsLeast(a, b[0]);
      LexLeAntisymmetric(a[0], b[0]);
      TailMultiset(a);
      TailMultiset(b);
      TailSorted(a);
      TailSorted(b);
      SortedUnique(a[1..], b[1..]);
      assert a == [a[0]] + a[1..] && b == [b[0]] + b[1..];
    }
  }

  /** Sorting a sorted sequence leaves it as it is. */
  lemma SortIdempotent(s: seq<string>)
    requires Sorted(s)
    ensures Sort(s) == s
  {
    SortedUnique(Sort(s), s);
  }

  /** The sort depends only on the elements, not on the order they came in. */
  lemma SortOrderIndependent(a: seq<string>, b: seq<string>)
    requires multiset(a) == multiset(b)
    ensures Sort(a) == Sort(b)
  {
    SortedUnique(Sort(a), Sort(b));
  }

  /** Names with a common prefix compare as their remainders do. */
  lemma {:induction false} LexLeCommonPrefix(p: string, x: string, y: string)
    requires LexLe(x, y)
    ensures LexLe(p + x, p + y)
    decreases |p|
  {
    if p != [] {
      assert (p + x)[1..] == p[1..] + x && (p + y)[1..] == p[1..] + y;
      LexLeCommonPrefix(p[1..], x, y);
      assert (p + x)[0] == p[0] == (p + y)[0];
    } else {
      assert p + x == x && p + y == y;
    }
  }

  /** Three names given in the order last, first, middle sort back into
      order. */
  lemma SortThree(a: string, b: string, c: string)
    requires LexLe(a, b) && LexLe(b, c)
    ensures Sort([c, a, b]) == [a, b, c]
  {
    LexLeTransitive(a, b, c);
    assert Sorted([a, b, c]);
    assert multiset([c, a, b]) == multiset([a, b, c]);
    SortedUnique(Sort([c, a, b]), [a, b, c]);
  }

  /** Zero-padded volume numbers sort in volume order. */
  lemma VolumeNamesSorted()
    ensures LexLe("n.7z.001", "n.7z.002") && LexLe("n.7z.002", "n.7z.003")
  {
    var p := "n.7z.00";
    LexLeCommonPrefix(p, "1", "2");
    LexLeCommonPrefix(p, "2", "3");
    assert p + "1" == "n.7z.001" && p + "2" == "n.7z.002" && p + "3" == "n.7z.003";
  }

  /** Volume names enumerated out of order come back in volume order. */
  lemma Example()
    ensures Sort(["n.7z.003", "n.7z.001", "n.7z.002"]) == ["n.7z.001", "n.7z.002", "n.7z.003"]
  {
    VolumeNamesSorted();
    SortThree("n.7z.001", "n.7z.002", "n.7z.003");
  }
}
