/** Sorting by a strict total order: whatever algorithm the library uses, there is one result. */
module Sorting {
  ghost predicate StrictTotalOrder<T(!new)>(less: (T, T) -> bool) {
    && (forall x :: !less(x, x))
    && (forall x, y, z :: less(x, y) && less(y, z) ==> less(x, z))
    && (forall x, y :: x != y ==> less(x, y) || less(y, x))
  }

  predicate Sorted<T>(less: (T, T) -> bool, s: seq<T>) {
    forall i, j | 0 <= i < j < |s| :: !less(s[j], s[i])
  }

  function Insert<T(==)>(less: (T, T) -> bool, s: seq<T>, x: T): seq<T> {
    if s == [] || !less(x, s[|s| - 1]) then s + [x]
    else Insert(less, s[..|s| - 1], x) + [s[|s| - 1]]
  }

  function Sort<T(==)>(less: (T, T) -> bool, s: seq<T>): seq<T> {
    if s == [] then [] else Insert(less, Sort(less, s[..|s| - 1]), s[|s| - 1])
  }

  lemma Asymmetric<T(!new)>(less: (T, T) -> bool, x: T, y: T)
    requires StrictTotalOrder(less) && less(x, y)
    ensures !less(y, x)
  {
  }

  /** What is not below `y` is not below anything that `y` is not above. */
  lemma NotLessTrans<T(!new)>(less: (T, T) -> bool, x: T, y: T, z: T)
    requires StrictTotalOrder(less) && !less(x, y) && !less(y, z)
    ensures !less(x, z)
  {
    assert y == z || less(z, y);
    assert less(x, z) && less(z, y) ==> less(x, y);
  }

  lemma {:induction false} InsertSorted<T(!new)>(less: (T, T) -> bool, s: seq<T>, x: T)
    requires StrictTotalOrder(less) && Sorted(less, s)
    ensures Sorted(less, Insert(less, s, x))
    ensures multiset(Insert(less, s, x)) == multiset(s) + multiset{x}
    decreases |s|, 1
  {
    hide StrictTotalOrder;
    if s != [] {
      var n := |s| - 1;
      assert s == s[..n] + [s[n]];
      if less(x, s[n]) {
        InsertBelow(less, s, x);
      } else {
        forall i | 0 <= i < n ensures !less(x, s[i]) { NotLessTrans(less, x, s[n], s[i]); }
      }
    }
  }

  lemma {:induction false} InsertBelow<T(!new)>(less: (T, T) -> bool, s: seq<T>, x: T)
    requires StrictTotalOrder(less) && Sorted(less, s)
    requires s != [] && less(x, s[|s| - 1])
    ensures Sorted(less, Insert(less, s, x))
    ensures multiset(Insert(less, s, x)) == multiset(s) + multiset{x}
    decreases |s|, 0
  {
    hide StrictTotalOrder, Sorted;
    var n := |s| - 1;
    var t := Insert(less, s[..n], x);
    assert s == s[..n] + [s[n]];
    SortedPrefix(less, s, n);
    InsertSorted(less, s[..n], x);
    Asymmetric(less, x, s[n]);
    forall i | 0 <= i < |t| ensures !less(s[n], t[i]) {
      assert t[i] in multiset(t);
      if t[i] != x {
        assert t[i] in multiset(s[..n]);
        var j :| 0 <= j < n && s[j] == t[i];
        LastNotLess(less, s, j);
      }
    }
    SortedSnoc(less, t, s[n]);
  }

  lemma LastNotLess<T>(less: (T, T) -> bool, s: seq<T>, j: nat)
    requires Sorted(less, s) && j < |s| - 1
    ensures !less(s[|s| - 1], s[j])
  {
  }

  lemma {:induction false} SortSorts<T(!new)>(less: (T, T) -> bool, s: seq<T>)
    requires StrictTotalOrder(less)
    ensures Sorted(less, Sort(less, s)) && multiset(Sort(less, s)) == multiset(s)
  {
    hide StrictTotalOrder;
    if s != [] {
      var n := |s| - 1;
      SortSorts(less, s[..n]);
      InsertSorted(less, Sort(less, s[..n]), s[n]);
      assert s == s[..n] + [s[n]];
    }
  }

  lemma SortedPrefix<T>(less: (T, T) -> bool, s: seq<T>, n: nat)
    requires Sorted(less, s) && n <= |s|
    ensures Sorted(less, s[..n])
  {
  }

  lemma SortedSnoc<T>(less: (T, T) -> bool, s: seq<T>, x: T)
    requires Sorted(less, s) && forall i | 0 <= i < |s| :: !less(x, s[i])
    ensures Sorted(less, s + [x])
  {
  }

  lemma DropLast<T>(s: seq<T>)
    requires s != []
    ensures multiset(s[..|s| - 1]) == multiset(s) - multiset{s[|s| - 1]}
    ensures s == s[..|s| - 1] + [s[|s| - 1]]
  {
    assert s == s[..|s| - 1] + [s[|s| - 1]];
  }

  /** Two sorted arrangements of the same elements are the same list: stability cannot matter. */
  lemma {:induction false} SortedUnique<T(!new)>(less: (T, T) -> bool, s: seq<T>, t: seq<T>)
    requires StrictTotalOrder(less)
    requires Sorted(less, s) && Sorted(less, t) && multiset(s) == multiset(t)
    ensures s == t
  {
    hide StrictTotalOrder, Sorted;
    assert |multiset(s)| == |multiset(t)|;
    if s != [] {
      var n := |s| - 1;
      LastIsGreatest(less, s, t);
      DropLast(s);
      DropLast(t);
      SortedPrefix(less, s, n);
      SortedPrefix(less, t, n);
      SortedUnique(less, s[..n], t[..n]);
    }
  }

  lemma LastIsGreatest<T(!new)>(less: (T, T) -> bool, s: seq<T>, t: seq<T>)
    requires StrictTotalOrder(less) && s != [] && |s| == |t|
    requires Sorted(less, s) && Sorted(less, t) && multiset(s) == multiset(t)
    ensures s[|s| - 1] == t[|t| - 1]
  {
    var x, y := s[|s| - 1], t[|t| - 1];
    assert x in multiset(t) && y in multiset(s);
    var i :| 0 <= i < |t| && t[i] == x;
    var j :| 0 <= j < |s| && s[j] == y;
    assert !less(y, x) && !less(x, y);
  }

  /** The library's sort: in place, and not necessarily stable. */
  method SortSlice<T(!new,==)>(a: array<T>, less: (T, T) -> bool)
    requires StrictTotalOrder(less)
    modifies a
    ensures Sorted(less, a[..]) && multiset(a[..]) == old(multiset(a[..]))
  {
    hide StrictTotalOrder, Sort;
    var sorted := Sort(less, a[..]);
    SortSorts(less, a[..]);
    assert |multiset(sorted)| == |multiset(a[..])|;
    for i := 0 to a.Length
      invariant |sorted| == a.Length && a[..i] == sorted[..i]
    {
      a[i] := sorted[i];
    }
    assert a[..] == sorted;
  }

  /** Go's `<` on strings: lexicographic, by bytes. */
  predicate StringLess(a: string, b: string) {
    b != "" && (a == "" || a[0] < b[0] || (a[0] == b[0] && StringLess(a[1..], b[1..])))
  }

  /** `a` is a proper beginning of `b`, or has the smaller character at the first place where they differ. */
  ghost predicate Lexicographic(a: string, b: string) {
    exists k: nat ::
      && k <= |a| && k < |b| && a[..k] == b[..k]
      && (k == |a| || a[k] < b[k])
  }

  lemma {:induction false} LessDiffers(a: string, b: string) returns (k: nat)
    requires StringLess(a, b)
    ensures k <= |a| && k < |b| && a[..k] == b[..k] && (k == |a| || a[k] < b[k])
  {
    if a == "" || a[0] < b[0] {
      k := 0;
    } else {
      k := LessDiffers(a[1..], b[1..]);
      assert a[..k + 1] == [a[0]] + a[1..][..k] && b[..k + 1] == [b[0]] + b[1..][..k];
      k := k + 1;
    }
  }

  lemma {:induction false} DiffersLess(a: string, b: string, k: nat)
    requires k <= |a| && k < |b| && a[..k] == b[..k] && (k == |a| || a[k] < b[k])
    ensures StringLess(a, b)
  {
    if k > 0 {
      assert a[0] == a[..k][0] == b[..k][0] == b[0];
      assert a[1..][..k - 1] == a[..k][1..] && b[1..][..k - 1] == b[..k][1..];
      DiffersLess(a[1..], b[1..], k - 1);
    }
  }

  lemma StringLessIff(a: string, b: string)
    ensures StringLess(a, b) <==> Lexicographic(a, b)
  {
    if StringLess(a, b) { var _ := LessDiffers(a, b); }
    if Lexicographic(a, b) {
      var k: nat :| k <= |a| && k < |b| && a[..k] == b[..k] && (k == |a| || a[k] < b[k]);
      DiffersLess(a, b, k);
    }
  }

  lemma {:induction false} StringLessTrans(a: string, b: string, c: string)
    requires StringLess(a, b) && StringLess(b, c)
    ensures StringLess(a, c)
  {
    if a != "" && a[0] == b[0] == c[0] { StringLessTrans(a[1..], b[1..], c[1..]); }
  }

  lemma {:induction false} StringLessTotal(a: string, b: string)
    ensures a == b ==> !StringLess(a, b)
    ensures a != b ==> StringLess(a, b) != StringLess(b, a)
  {
    if a != "" && b != "" && a[0] == b[0] {
      StringLessTotal(a[1..], b[1..]);
      assert a == [a[0]] + a[1..] && b == [b[0]] + b[1..];
    }
  }

  lemma StringLessOrder()
    ensures StrictTotalOrder(StringLess)
  {
    forall a: string, b: string, c: string | StringLess(a, b) && StringLess(b, c) ensures StringLess(a, c) {
      StringLessTrans(a, b, c);
    }
    forall a: string, b: string ensures a == b ==> !StringLess(a, b)
      ensures a != b ==> StringLess(a, b) || StringLess(b, a)
    {
      StringLessTotal(a, b);
    }
  }
}
