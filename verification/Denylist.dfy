/** Deny lists on values: how the list is compiled to a tree, and what deleting by it removes. */
module Denylist {
  import opened Json

  // ---- What the code computes

  /** One listed path entered into the tree; a nil node means that everything under it goes. */
  function Enter(t: Fields, p: Path): Fields
    decreases |p|
  {
    if p == [] then t
    else if |p| == 1 then t[p[0] := Null]
    else if p[0] !in t then t[p[0] := Object(Enter(map[], p[1..]))]
    else if t[p[0]] == Null then t
    else if t[p[0]].Object? then t[p[0] := Object(Enter(t[p[0]].fields, p[1..]))]
    else t[p[0] := Null]
  }

  function Compile(list: seq<Path>): Fields {
    if list == [] then map[] else Enter(Compile(list[..|list| - 1]), list[|list| - 1])
  }

  /** What is left of a value; only objects lose anything. */
  function Deleted(t: Fields, v: Value): Value
    decreases v
  {
    if !v.Object? then v
    else
      Object(map k | k in v.fields && !(k in t && t[k] == Null) ::
               if k in t && t[k].Object? then Deleted(t[k].fields, v.fields[k]) else v.fields[k])
  }

  /** Deleting key by key: which keys stay, and with what. */
  lemma DeletedKeys(t: Fields, v: Value)
    ensures !v.Object? ==> Deleted(t, v) == v
    ensures v.Object? ==> Deleted(t, v).Object? && Deleted(t, v).fields.Keys <= v.fields.Keys
    ensures v.Object? ==> forall k | k in v.fields :: k in Deleted(t, v).fields <==> !(k in t && t[k] == Null)
    ensures v.Object? ==> forall k | k in Deleted(t, v).fields ::
      Deleted(t, v).fields[k] == if k in t && t[k].Object? then Deleted(t[k].fields, v.fields[k]) else v.fields[k]
  {
  }

  // ---- The shape of the tree

  /** Every node is nil or an object of such nodes. */
  predicate NilOrObject(v: Value) {
    v == Null || (v.Object? && forall k | k in v.fields :: NilOrObject(v.fields[k]))
  }

  /** The branch for any other node is never taken, and the cast of a node to a map never fails. */
  lemma {:induction false} EnterShape(t: Fields, p: Path)
    requires NilOrObject(Object(t))
    ensures NilOrObject(Object(Enter(t, p)))
    decreases |p|
  {
    if |p| > 1 {
      if p[0] !in t { EnterShape(map[], p[1..]); }
      else if t[p[0]].Object? { EnterShape(t[p[0]].fields, p[1..]); }
    }
  }

  lemma {:induction false} CompileShape(list: seq<Path>)
    ensures NilOrObject(Object(Compile(list)))
  {
    if list != [] {
      CompileShape(list[..|list| - 1]);
      EnterShape(Compile(list[..|list| - 1]), list[|list| - 1]);
    }
  }

  // ---- Which paths the tree denies

  /** Some node on the way along `p` is nil. */
  predicate Denied(t: Fields, p: Path)
    decreases |p|
  {
    p != [] && p[0] in t && (t[p[0]] == Null || (t[p[0]].Object? && Denied(t[p[0]].fields, p[1..])))
  }

  lemma {:induction false} EnterDenies(t: Fields, p: Path, q: Path)
    requires NilOrObject(Object(t)) && p != []
    ensures Denied(Enter(t, p), q) <==> Denied(t, q) || p <= q
    decreases |p|
  {
    if q != [] && q[0] == p[0] {
      assert p == [p[0]] + p[1..] && q == [q[0]] + q[1..];
      assert p <= q <==> p[1..] <= q[1..];
      if |p| > 1 {
        if p[0] !in t { EnterDenies(map[], p[1..], q[1..]); }
        else if t[p[0]].Object? { EnterDenies(t[p[0]].fields, p[1..], q[1..]); }
      }
    }
  }

  /** Some listed path leads to `q`. */
  predicate Listed(list: seq<Path>, q: Path) {
    exists i | 0 <= i < |list| :: list[i] <= q
  }

  /** Some listed path goes through `q`. */
  predicate Ahead(list: seq<Path>, q: Path) {
    exists i | 0 <= i < |list| :: q <= list[i]
  }

  lemma ListedSnoc(list: seq<Path>, last: Path, q: Path)
    ensures Listed(list + [last], q) <==> Listed(list, q) || last <= q
    ensures Ahead(list + [last], q) <==> Ahead(list, q) || q <= last
  {
    var all := list + [last];
    assert all[|list|] == last && forall i | 0 <= i < |list| :: all[i] == list[i];
    if i :| 0 <= i < |list| && list[i] <= q { assert all[i] <= q; }
    if i :| 0 <= i < |list| && q <= list[i] { assert q <= all[i]; }
  }

  /** The compiled tree denies exactly the paths with a listed prefix: order and duplicates are irrelevant. */
  lemma {:induction false} DeniesListed(list: seq<Path>, q: Path)
    requires Proper(list)
    ensures Denied(Compile(list), q) <==> Listed(list, q)
  {
    if list != [] {
      var n := |list| - 1;
      var before, last := list[..n], list[n];
      assert list == before + [last];
      DeniesListed(before, q);
      CompileShape(before);
      EnterDenies(Compile(before), last, q);
      ListedSnoc(before, last, q);
    }
  }

  lemma {:induction false} EnterReaches(t: Fields, p: Path, q: Path)
    requires Has(Object(Enter(t, p)), q)
    ensures Has(Object(t), q) || q <= p
    decreases |p|
  {
    if p != [] && q != [] && q[0] == p[0] {
      assert p == [p[0]] + p[1..] && q == [q[0]] + q[1..];
      assert q <= p <==> q[1..] <= p[1..];
      assert Has(Enter(t, p)[p[0]], q[1..]);
      if |p| > 1 && p[0] !in t {
        EnterReaches(map[], p[1..], q[1..]);
      } else if |p| > 1 && t[p[0]].Object? {
        EnterReaches(t[p[0]].fields, p[1..], q[1..]);
        assert Has(t[p[0]], q[1..]) ==> Has(Object(t), q);
      }
    }
  }

  /** The compiled tree has nodes only on the way to listed paths. */
  lemma {:induction false} ReachesListed(list: seq<Path>, q: Path)
    requires q != [] && Has(Object(Compile(list)), q)
    ensures Ahead(list, q)
  {
    if list != [] {
      var n := |list| - 1;
      var before, last := list[..n], list[n];
      assert list == before + [last];
      EnterReaches(Compile(before), last, q);
      if !(q <= last) { ReachesListed(before, q); }
      ListedSnoc(before, last, q);
    }
  }

  // ---- What deleting removes

  /** Deleting removes exactly the denied paths; a value that is no object stays what it was. */
  lemma {:induction false} RemovesExactly(t: Fields, v: Value, p: Path)
    requires NilOrObject(Object(t))
    ensures Has(Deleted(t, v), p) <==> Has(v, p) && !Denied(t, p)
    ensures Has(Deleted(t, v), p) && !At(v, p).value.Object? ==> At(Deleted(t, v), p) == At(v, p)
    decreases |p|
  {
    if p != [] && v.Object? && p[0] in v.fields && p[0] in t && t[p[0]].Object? {
      RemovesExactly(t[p[0]].fields, v.fields[p[0]], p[1..]);
    }
  }

  /** A value that no listed path goes through is kept as a whole. */
  lemma {:induction false} Untouched(t: Fields, v: Value, p: Path)
    requires NilOrObject(Object(t))
    requires Has(Deleted(t, v), p) && !Has(Object(t), p)
    ensures At(Deleted(t, v), p) == At(v, p)
    decreases |p|
  {
    if v.Object? && p[0] in t && t[p[0]].Object? {
      Untouched(t[p[0]].fields, v.fields[p[0]], p[1..]);
    }
  }

  /**
    End to end: a deny list removes exactly the paths that continue a listed path, whatever the order of the
    list and however often it repeats itself; and a value that no listed path goes through is unchanged.
   */
  lemma DenylistKeeps(list: seq<Path>, v: Value, p: Path)
    requires Proper(list)
    ensures Has(Deleted(Compile(list), v), p) <==> Has(v, p) && !Listed(list, p)
    ensures Has(v, p) && !Listed(list, p) && !At(v, p).value.Object? ==> At(Deleted(Compile(list), v), p) == At(v, p)
    ensures p != [] && Has(v, p) && !Listed(list, p) && !Ahead(list, p) ==> At(Deleted(Compile(list), v), p) == At(v, p)
  {
    var t := Compile(list);
    CompileShape(list);
    DeniesListed(list, p);
    RemovesExactly(t, v, p);
    if p != [] && Has(v, p) && !Listed(list, p) && !Ahead(list, p) {
      if Has(Object(t), p) { ReachesListed(list, p); }
      Untouched(t, v, p);
    }
  }
}
