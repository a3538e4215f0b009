/** Allow lists on values: how the list is compiled to a trie, and what pruning by it keeps. */
module Allowlist {
  import opened Wrappers
  import opened Json

  const TRUE_MARK: Value := Scalar("true")

  // ---- What the code computes

  /** The map under a key; a fresh one where there is none. */
  function Below(t: Fields, k: string): Fields {
    if k in t && t[k].Object? then t[k].fields else map[]
  }

  /** One listed path entered into the trie; what it meets on its way that is no object is replaced. */
  function Enter(t: Fields, p: Path): Fields
    requires p != []
    decreases |p|
  {
    if |p| == 1 then t[p[0] := TRUE_MARK]
    else t[p[0] := Object(Enter(Below(t, p[0]), p[1..]))]
  }

  /** The whole list, in order. */
  function Compile(list: seq<Path>): Fields
    requires Proper(list)
  {
    if list == [] then map[] else Enter(Compile(list[..|list| - 1]), list[|list| - 1])
  }

  predicate Kept(t: Fields, k: string, v: Value)
    decreases v, 1
  {
    k in t && (t[k].Object? ==> v.Object? && Pruned(t[k].fields, v) != Object(map[]))
  }

  /** What is left of an object. */
  function Pruned(t: Fields, v: Value): (r: Value)
    requires v.Object?
    ensures r.Object?
    decreases v, 0
  {
    Object(map k | k in v.fields && Kept(t, k, v.fields[k]) ::
             if t[k].Object? then Pruned(t[k].fields, v.fields[k]) else v.fields[k])
  }

  /** The map at the end of a path, fresh maps being put in wherever there is none. */
  function Down(t: Fields, q: Path): Fields
    decreases |q|
  {
    if q == [] then t else Down(Below(t, q[0]), q[1..])
  }

  /** The trie with another map at the end of a path. */
  function Graft(t: Fields, q: Path, w: Fields): Fields
    decreases |q|
  {
    if q == [] then w else t[q[0] := Object(Graft(Below(t, q[0]), q[1..], w))]
  }

  lemma {:induction false} DownSnoc(t: Fields, q: Path, k: string)
    ensures Down(t, q + [k]) == Below(Down(t, q), k)
    decreases |q|
  {
    if q == [] {
      assert Down(Below(t, k), []) == Below(t, k);
    } else {
      DownSnoc(Below(t, q[0]), q[1..], k);
      assert (q + [k])[1..] == q[1..] + [k];
    }
  }

  /** Walking down and marking the last key is entering the path. */
  lemma {:induction false} GraftMark(t: Fields, q: Path, k: string)
    ensures Graft(t, q, Down(t, q)[k := TRUE_MARK]) == Enter(t, q + [k])
    decreases |q|
  {
    if q != [] {
      GraftMark(Below(t, q[0]), q[1..], k);
      assert (q + [k])[1..] == q[1..] + [k];
    }
  }

  /** Pruning key by key: which keys stay, and with what. */
  lemma PrunedKeys(t: Fields, v: Value)
    requires v.Object?
    ensures Pruned(t, v).fields.Keys <= v.fields.Keys * t.Keys
    ensures forall k | k in t && k in v.fields ::
      if t[k].Object? then
        k in Pruned(t, v).fields <==> v.fields[k].Object? && Pruned(t[k].fields, v.fields[k]) != Object(map[])
      else
        k in Pruned(t, v).fields
    ensures forall k | k in Pruned(t, v).fields ::
      Pruned(t, v).fields[k] == if t[k].Object? then Pruned(t[k].fields, v.fields[k]) else v.fields[k]
  {
  }

  // ---- Which paths the trie allows

  /** The path of a mark. */
  predicate IsLeaf(t: Fields, p: Path)
    decreases |p|
  {
    p != [] && p[0] in t &&
    if |p| == 1 then !t[p[0]].Object? else t[p[0]].Object? && IsLeaf(t[p[0]].fields, p[1..])
  }

  lemma {:induction false} EnterLeaves(t: Fields, p: Path, q: Path)
    requires p != []
    ensures IsLeaf(Enter(t, p), q) <==> q == p || (IsLeaf(t, q) && !Comparable(p, q))
    decreases |p|
  {
    if |p| > 1 && |q| > 1 && q[0] == p[0] {
      var sub := Below(t, p[0]);
      EnterLeaves(sub, p[1..], q[1..]);
      ComparableTail(p, q);
      assert q == p <==> q[1..] == p[1..] by { assert q == [q[0]] + q[1..] && p == [p[0]] + p[1..]; }
      if IsLeaf(sub, q[1..]) && !(p[0] in t && t[p[0]].Object?) { assert false; }
    } else if q != [] && q[0] == p[0] {
      assert |p| == 1 ==> p == [p[0]];
      assert |q| == 1 ==> q == [q[0]];
    }
  }

  lemma ComparableTail(p: Path, q: Path)
    requires p != [] && q != [] && p[0] == q[0]
    ensures Comparable(p, q) <==> Comparable(p[1..], q[1..])
  {
    assert p == [p[0]] + p[1..] && q == [q[0]] + q[1..];
    assert p[1..] <= q[1..] ==> p <= q;
    assert q[1..] <= p[1..] ==> q <= p;
  }

  /** The listed paths in force: no later path of the list continues them, cuts them short or repeats them. */
  predicate InForce(list: seq<Path>, p: Path) {
    exists i | 0 <= i < |list| :: list[i] == p && forall j | i < j < |list| :: !Comparable(list[j], p)
  }

  /** The compiled trie allows exactly the listed paths in force. */
  lemma {:induction false} LeavesInForce(list: seq<Path>, q: Path)
    requires Proper(list)
    ensures IsLeaf(Compile(list), q) <==> InForce(list, q)
  {
    if list != [] {
      var n := |list| - 1;
      var before, last := list[..n], list[n];
      assert list == before + [last];
      assert Proper(before);
      LeavesInForce(before, q);
      EnterLeaves(Compile(before), last, q);
      if InForce(before, q) && !Comparable(last, q) {
        var i :| 0 <= i < n && before[i] == q && forall j | i < j < n :: !Comparable(before[j], q);
        assert list[i] == q && forall j | i < j < |list| :: !Comparable(list[j], q);
      }
      if InForce(list, q) {
        var i :| 0 <= i < |list| && list[i] == q && forall j | i < j < |list| :: !Comparable(list[j], q);
        if i < n {
          assert before[i] == q && forall j | i < j < n :: before[j] == list[j];
          assert !Comparable(list[n], q);
        }
      }
    }
  }

  // ---- What pruning keeps

  lemma LeafCons(t: Fields, k: string, l: Path)
    ensures IsLeaf(t, [k] + l) <==> k in t && if l == [] then !t[k].Object? else t[k].Object? && IsLeaf(t[k].fields, l)
  {
    assert ([k] + l)[1..] == l;
  }

  lemma HasCons(v: Value, k: string, l: Path)
    ensures At(v, [k] + l) == if v.Object? && k in v.fields then At(v.fields[k], l) else None
  {
    assert ([k] + l)[1..] == l;
  }

  /** Some allowed leaf exists in the data. */
  ghost predicate Hit(t: Fields, v: Value, l: Path) {
    IsLeaf(t, l) && Has(v, l)
  }

  /** Something is left exactly when some allowed leaf exists in the data. */
  lemma {:induction false} SomethingLeft(t: Fields, v: Value)
    requires v.Object?
    ensures Pruned(t, v) != Object(map[]) <==> exists l :: Hit(t, v, l)
    decreases v
  {
    var r := Pruned(t, v);
    if k :| k in r.fields {
      assert Kept(t, k, v.fields[k]) && [k] + [] == [k];
      if t[k].Object? {
        SomethingLeft(t[k].fields, v.fields[k]);
        var l :| Hit(t[k].fields, v.fields[k], l);
        LeafCons(t, k, l);
        HasCons(v, k, l);
        assert Hit(t, v, [k] + l);
      } else {
        LeafCons(t, k, []);
        HasCons(v, k, []);
        assert Hit(t, v, [k]);
      }
    }
    if l :| Hit(t, v, l) {
      var k := l[0];
      assert Has(v.fields[k], l[1..]);
      if |l| > 1 {
        assert l[1..] != [] && v.fields[k].Object?;
        assert Hit(t[k].fields, v.fields[k], l[1..]);
        SomethingLeft(t[k].fields, v.fields[k]);
      }
      assert Kept(t, k, v.fields[k]);
      assert k in r.fields;
    }
  }

  /** `p` continues or leads to an allowed leaf that exists in the data. */
  ghost predicate Allowed(t: Fields, v: Value, p: Path) {
    exists l :: Hit(t, v, l) && Comparable(l, p)
  }

  lemma AllowedCons(t: Fields, v: Value, k: string, p: Path)
    requires v.Object?
    ensures Allowed(t, v, [k] + p) <==>
              && k in t && k in v.fields
              && if t[k].Object? then Allowed(t[k].fields, v.fields[k], p) else true
  {
    if l :| Hit(t, v, l) && Comparable(l, [k] + p) {
      assert l == [l[0]] + l[1..] && l[0] == k;
      LeafCons(t, k, l[1..]);
      HasCons(v, k, l[1..]);
      ComparableTail(l, [k] + p);
      assert ([k] + p)[1..] == p;
      if t[k].Object? { assert Hit(t[k].fields, v.fields[k], l[1..]) && Comparable(l[1..], p); }
    }
    if k in t && k in v.fields {
      if !t[k].Object? {
        LeafCons(t, k, []);
        HasCons(v, k, []);
        assert [k] + [] == [k];
        assert Hit(t, v, [k]) && [k] <= [k] + p;
      } else if l :| Hit(t[k].fields, v.fields[k], l) && Comparable(l, p) {
        LeafCons(t, k, l);
        HasCons(v, k, l);
        ComparableTail([k] + l, [k] + p);
        assert ([k] + l)[1..] == l && ([k] + p)[1..] == p;
        assert Hit(t, v, [k] + l);
      }
    }
  }

  /**
    Pruning keeps exactly the paths of the data that are comparable with some allowed leaf that exists in
    the data. Kept values are unchanged: all of them below such a leaf, and everything that is no object.
   */
  lemma {:induction false} KeepsExactly(t: Fields, v: Value, p: Path)
    requires v.Object? && p != []
    ensures Has(Pruned(t, v), p) <==> Has(v, p) && Allowed(t, v, p)
    ensures Has(Pruned(t, v), p) && !At(v, p).value.Object? ==> At(Pruned(t, v), p) == At(v, p)
    ensures Has(Pruned(t, v), p) && (exists l :: Hit(t, v, l) && l <= p) ==> At(Pruned(t, v), p) == At(v, p)
    decreases |p|
  {
    var k, rest, r := p[0], p[1..], Pruned(t, v);
    assert p == [k] + rest;
    AllowedCons(t, v, k, rest);
    HasCons(v, k, rest);
    HasCons(r, k, rest);
    if k in v.fields && k in t && t[k].Object? {
      var t', v' := t[k].fields, v.fields[k];
      if v'.Object? {
        SomethingLeft(t', v');
        if rest == [] {
          AnyLeafAllowsRoot(t', v');
        } else {
          KeepsExactly(t', v', rest);
          if Allowed(t', v', rest) { var l :| Hit(t', v', l) && Comparable(l, rest); assert Hit(t', v', l); }
        }
        if l :| Hit(t, v, l) && l <= p {
          assert l == [k] + l[1..];
          LeafCons(t, k, l[1..]);
          HasCons(v, k, l[1..]);
          assert Hit(t', v', l[1..]) && l[1..] <= rest;
        }
      } else {
        NoLeafInside(t', v', rest);
      }
    }
  }

  lemma AnyLeafAllowsRoot(t: Fields, v: Value)
    ensures Allowed(t, v, []) <==> exists l :: Hit(t, v, l)
  {
    if l :| Hit(t, v, l) { assert Comparable(l, []); }
  }

  lemma NoLeafInside(t: Fields, v: Value, p: Path)
    requires !v.Object?
    ensures !Allowed(t, v, p)
  {
  }

  /** `p` continues or leads to a listed path that is in force and exists in the data. */
  ghost predicate Listed(list: seq<Path>, v: Value, p: Path) {
    exists l :: Comparable(l, p) && InForce(list, l) && Has(v, l)
  }

  /** End to end: what an allow list keeps of an object, path by path, and as it was. */
  lemma AllowlistKeeps(list: seq<Path>, v: Value, p: Path)
    requires Proper(list) && v.Object? && p != []
    ensures var r := Pruned(Compile(list), v);
            && (Has(r, p) <==> Has(v, p) && Listed(list, v, p))
            && (Has(r, p) && !At(v, p).value.Object? ==> At(r, p) == At(v, p))
            && (Has(r, p) && (exists l :: l <= p && InForce(list, l) && Has(v, l)) ==> At(r, p) == At(v, p))
  {
    var t := Compile(list);
    KeepsExactly(t, v, p);
    forall l
      ensures Hit(t, v, l) <==> InForce(list, l) && Has(v, l)
    {
      LeavesInForce(list, l);
    }
    hide Pruned, InForce, IsLeaf, Has, At;
    if l :| Hit(t, v, l) && Comparable(l, p) { assert Comparable(l, p) && InForce(list, l) && Has(v, l); }
    if l :| Comparable(l, p) && InForce(list, l) && Has(v, l) { assert Hit(t, v, l); }
    if l :| l <= p && InForce(list, l) && Has(v, l) { assert Hit(t, v, l); }
  }
}
