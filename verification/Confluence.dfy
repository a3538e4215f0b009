/**
  The result of a merge as a function of what the backends answered, not of when they answered: which
  parts of it every arrival order agrees on, and exactly when all of it is agreed on.
 */
module Confluence {
  import opened Wrappers
  import opened Json
  import opened Merging

  predicate SameArrivals(xs: seq<Outcome>, ys: seq<Outcome>) {
    multiset(xs) == multiset(ys)
  }

  lemma {:induction false} CountSuccesses(xs: seq<Outcome>, r: Response)
    ensures multiset(Successes(xs))[Some(r)] == multiset(xs)[Got(r)]
  {
    if xs == [] { assert Successes(xs) == []; }
    hide Successes;
    if xs != [] {
      var n := |xs| - 1;
      CountSuccesses(xs[..n], r);
      assert xs == xs[..n] + [xs[n]];
      assert multiset(xs) == multiset(xs[..n]) + multiset{xs[n]};
      SuccessesSnoc(xs[..n], xs[n], r);
    }
  }

  lemma SuccessesSnoc(xs: seq<Outcome>, x: Outcome, r: Response)
    ensures multiset(Successes(xs + [x]))[Some(r)] == multiset(Successes(xs))[Some(r)] + if x == Got(r) then 1 else 0
  {
    assert (xs + [x])[..|xs|] == xs;
  }

  lemma ErrorsSnoc(xs: seq<Outcome>, x: Outcome, e: Error)
    ensures multiset(Errors(xs + [x]))[e]
         == multiset(Errors(xs))[e] + if x == Failed(e) || (x == Missing && e == NullResult) then 1 else 0
  {
    assert (xs + [x])[..|xs|] == xs;
  }

  lemma {:induction false} CountErrors(xs: seq<Outcome>, e: Error)
    ensures multiset(Errors(xs))[e]
         == multiset(xs)[Failed(e)] + if e == NullResult then multiset(xs)[Missing] else 0
  {
    if xs == [] { assert Errors(xs) == []; }
    hide Errors;
    if xs != [] {
      var n := |xs| - 1;
      CountErrors(xs[..n], e);
      assert xs == xs[..n] + [xs[n]];
      assert multiset(xs) == multiset(xs[..n]) + multiset{xs[n]};
      ErrorsSnoc(xs[..n], xs[n], e);
    }
  }

  lemma SplitPermutes(xs: seq<Outcome>, ys: seq<Outcome>)
    requires SameArrivals(xs, ys)
    ensures multiset(Successes(xs)) == multiset(Successes(ys))
    ensures multiset(Errors(xs)) == multiset(Errors(ys))
    ensures |xs| == |ys| && Merges(xs) == Merges(ys) && |Errors(xs)| == |Errors(ys)|
  {
    assert |multiset(xs)| == |multiset(ys)|;
    var sx, sy := Successes(xs), Successes(ys);
    forall part | part in multiset(sx) || part in multiset(sy)
      ensures multiset(sx)[part] == multiset(sy)[part]
    {
      assert part in sx || part in sy;
      CountSuccesses(xs, part.value);
      CountSuccesses(ys, part.value);
    }
    forall e ensures multiset(Errors(xs))[e] == multiset(Errors(ys))[e] {
      CountErrors(xs, e);
      CountErrors(ys, e);
    }
    assert multiset(sx) == multiset(sy);
    assert multiset(Errors(xs)) == multiset(Errors(ys));
    assert |multiset(sx)| == |multiset(sy)| && |multiset(Errors(xs))| == |multiset(Errors(ys))|;
  }

  lemma {:induction false} UnionAt(parts: seq<Option<Response>>, k: string)
    ensures k in Union(parts) <==> exists part <- parts :: k in DataOf(part)
    ensures k in Union(parts) ==> exists part <- parts :: k in DataOf(part) && Union(parts)[k] == DataOf(part)[k]
  {
    if parts != [] {
      var n := |parts| - 1;
      UnionAt(parts[..n], k);
      assert parts == parts[..n] + [parts[n]];
      assert parts[n] in parts;
      assert forall part <- parts[..n] :: part in parts;
    }
  }

  /** The merged data, with a nil map read as an empty one. */
  function Data(m: Merged): Fields {
    DataOf(m.response)
  }

  lemma DataIsUnion(total: int, xs: seq<Outcome>)
    ensures Data(MergeAll(total, xs)) == Union(Successes(xs))
  {
    FoldInvariant(total, xs);
  }

  lemma SameMembers(xs: seq<Outcome>, ys: seq<Outcome>)
    requires SameArrivals(xs, ys)
    ensures forall o :: o in xs <==> o in ys
    ensures Clean(xs) <==> Clean(ys)
  {
    assert forall o :: o in xs <==> o in multiset(xs);
    assert forall o :: o in ys <==> o in multiset(ys);
    assert |multiset(xs)| == |multiset(ys)|;
  }

  lemma SameKeys(total: int, xs: seq<Outcome>, ys: seq<Outcome>)
    requires SameArrivals(xs, ys)
    ensures Data(MergeAll(total, xs)).Keys == Data(MergeAll(total, ys)).Keys
  {
    SplitPermutes(xs, ys);
    DataIsUnion(total, xs);
    DataIsUnion(total, ys);
    var sx, sy := Successes(xs), Successes(ys);
    forall k: string ensures k in Union(sx) <==> k in Union(sy) {
      UnionAt(sx, k);
      UnionAt(sy, k);
      assert forall part :: part in sx <==> part in multiset(sx);
      assert forall part :: part in sy <==> part in multiset(sy);
    }
  }

  /** Whether there is a response at all, and whether its data map is nil. */
  lemma ShapeOf(total: int, xs: seq<Outcome>)
    ensures var m := MergeAll(total, xs);
            && m.errs == Errors(xs)
            && (m.response.Some? <==> Merges(xs) != 0)
            && (Merges(xs) == 1 ==> m.response.value.data == Successes(xs)[0].value.data)
            && (Merges(xs) >= 2 ==> m.response.value.data.Some?)
  {
    FoldInvariant(total, xs);
  }

  lemma OnlyOne<T>(s: seq<T>, t: seq<T>)
    requires |s| == 1 && multiset(s) == multiset(t)
    ensures s == t
  {
    assert |multiset(s)| == |multiset(t)|;
    assert t[0] in multiset(s) && s == [s[0]];
  }

  lemma SameErrors(total: int, xs: seq<Outcome>, ys: seq<Outcome>)
    requires SameArrivals(xs, ys)
    ensures multiset(MergeAll(total, xs).errs) == multiset(MergeAll(total, ys).errs)
    ensures |MergeAll(total, xs).errs| == |MergeAll(total, ys).errs|
  {
    SplitPermutes(xs, ys);
    ShapeOf(total, xs);
    ShapeOf(total, ys);
  }

  lemma SameShape(total: int, xs: seq<Outcome>, ys: seq<Outcome>)
    requires SameArrivals(xs, ys)
    ensures MergeAll(total, xs).response.Some? <==> MergeAll(total, ys).response.Some?
    ensures MergeAll(total, xs).response.Some? ==>
              (MergeAll(total, xs).response.value.data.Some? <==> MergeAll(total, ys).response.value.data.Some?)
  {
    SplitPermutes(xs, ys);
    ShapeOf(total, xs);
    ShapeOf(total, ys);
    if Merges(xs) == 1 { OnlyOne(Successes(xs), Successes(ys)); }
  }

  /** Two results that differ at most in the values of shared keys and in the order of the errors. */
  predicate Alike(m: Merged, m': Merged) {
    && multiset(m.errs) == multiset(m'.errs)
    && |m.errs| == |m'.errs|
    && (m.response.Some? <==> m'.response.Some?)
    && (m.response.Some? ==>
          && m.response.value.complete == m'.response.value.complete
          && (m.response.value.data.Some? <==> m'.response.value.data.Some?))
    && Data(m).Keys == Data(m').Keys
  }

  /**
    Every arrival order yields a response or none alike, with the same keys, the same completeness flag
    and the same errors up to order.
   */
  lemma OrderDoesNotMatter(total: int, xs: seq<Outcome>, ys: seq<Outcome>)
    requires SameArrivals(xs, ys) && |xs| <= total
    ensures Alike(MergeAll(total, xs), MergeAll(total, ys))
  {
    SameErrors(total, xs, ys);
    SameShape(total, xs, ys);
    SameKeys(total, xs, ys);
    SameMembers(xs, ys);
    assert |xs| == |ys| by { assert |multiset(xs)| == |multiset(ys)|; }
    if MergeAll(total, xs).response.Some? {
      CompleteIff(total, xs);
      CompleteIff(total, ys);
    }
  }

  predicate Agree(r: Response, r': Response, k: string) {
    k in DataOf(Some(r)) && k in DataOf(Some(r')) ==> DataOf(Some(r))[k] == DataOf(Some(r'))[k]
  }

  /** No two responses give one key different values; disjoint key sets are the usual case. */
  predicate Compatible(xs: seq<Outcome>) {
    forall i, j, k | 0 <= i < |xs| && 0 <= j < |xs| && xs[i].Got? && xs[j].Got? && k in DataOf(Some(xs[i].response)) ::
      Agree(xs[i].response, xs[j].response, k)
  }

  lemma SuccessMember(xs: seq<Outcome>, part: Option<Response>)
    requires part in Successes(xs)
    ensures part.Some? && Got(part.value) in xs
  {
    assert part in multiset(Successes(xs));
    CountSuccesses(xs, part.value);
    assert Got(part.value) in multiset(xs);
  }

  lemma CompatibleData(total: int, xs: seq<Outcome>, ys: seq<Outcome>)
    requires SameArrivals(xs, ys) && |xs| <= total && Compatible(xs)
    ensures Data(MergeAll(total, xs)) == Data(MergeAll(total, ys))
  {
    OrderDoesNotMatter(total, xs, ys);
    SplitPermutes(xs, ys);
    DataIsUnion(total, xs);
    DataIsUnion(total, ys);
    var u, v := Union(Successes(xs)), Union(Successes(ys));
    forall k | k in u ensures u[k] == v[k] {
      UnionAt(Successes(xs), k);
      UnionAt(Successes(ys), k);
      var p :| p in Successes(xs) && k in DataOf(p) && u[k] == DataOf(p)[k];
      var q :| q in Successes(ys) && k in DataOf(q) && v[k] == DataOf(q)[k];
      SuccessMember(xs, p);
      SuccessMember(ys, q);
      assert Got(q.value) in multiset(xs);
      var i :| 0 <= i < |xs| && xs[i] == Got(p.value);
      var j :| 0 <= j < |xs| && xs[j] == Got(q.value);
      assert Agree(xs[i].response, xs[j].response, k);
    }
  }

  /** Delay arrival `i` until all others are in. */
  function Delay(xs: seq<Outcome>, i: nat): (ys: seq<Outcome>)
    requires i < |xs|
    ensures SameArrivals(ys, xs)
  {
    assert xs == xs[..i] + [xs[i]] + xs[i + 1..];
    xs[..i] + xs[i + 1..] + [xs[i]]
  }

  /** Whoever comes last wins each of its keys. */
  lemma LastWins(total: int, xs: seq<Outcome>, i: nat, k: string)
    requires i < |xs| <= total && xs[i].Got? && k in DataOf(Some(xs[i].response))
    ensures k in Data(MergeAll(total, Delay(xs, i)))
    ensures Data(MergeAll(total, Delay(xs, i)))[k] == DataOf(Some(xs[i].response))[k]
  {
    var ys := Delay(xs, i);
    assert |ys| == |xs|;
    DataIsUnion(total, ys);
    UnionSnoc(Successes(ys[..|ys| - 1]), Some(xs[i].response));
  }

  /** All arrival orders give the same data exactly when no two responses disagree on a key. */
  lemma DataOrderIndependentIff(total: int, xs: seq<Outcome>)
    requires |xs| <= total
    ensures Compatible(xs)
       <==> forall ys | SameArrivals(ys, xs) :: Data(MergeAll(total, ys)) == Data(MergeAll(total, xs))
  {
    if Compatible(xs) {
      forall ys | SameArrivals(ys, xs) ensures Data(MergeAll(total, ys)) == Data(MergeAll(total, xs)) {
        CompatibleData(total, xs, ys);
      }
    } else {
      var i, j, k :| 0 <= i < |xs| && 0 <= j < |xs| && xs[i].Got? && xs[j].Got? && k in DataOf(Some(xs[i].response))
                     && !Agree(xs[i].response, xs[j].response, k);
      LastWins(total, xs, i, k);
      LastWins(total, xs, j, k);
      assert SameArrivals(Delay(xs, i), xs) && SameArrivals(Delay(xs, j), xs);
    }
  }
}
