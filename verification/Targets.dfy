/** Picking the part of a response that the configuration names. */
module Targets {
  import opened Wrappers
  import opened Json
  import opened Paths
  import opened Trees

  lemma {:induction false} AtSnoc(v: Value, p: Path, k: string)
    ensures At(v, p + [k]) == if Has(v, p) then At(At(v, p).value, [k]) else None
    decreases |p|
  {
    if p != [] && v.Object? && p[0] in v.fields {
      AtSnoc(v.fields[p[0]], p[1..], k);
      assert (p + [k])[1..] == p[1..] + [k];
    } else if p == [] {
      assert [] + [k] == [k];
    }
  }

  /** Nothing is found past a value that is not there, is no object or is an empty one. */
  lemma {:induction false} NothingBelow(v: Value, p: Path, q: Path)
    requires p < q && (Has(v, p) && At(v, p).value.Object? ==> At(v, p).value.fields == map[])
    ensures !Has(v, q)
    decreases |p|
  {
    if p == [] {
      assert !(v.Object? && q[0] in v.fields);
    } else if v.Object? && p[0] in v.fields {
      assert q[0] == p[0];
      NothingBelow(v.fields[p[0]], p[1..], q[1..]);
    }
  }

  /**
    Walks down the maps of the response. The data becomes the object at the target; where there is no object,
    on the way or at its end, a fresh empty map.
   */
  method ExtractTarget(target: string, data: Node, ghost all: set<Node>, ghost v: Value)
    returns (extracted: Node, ghost more: set<Node>)
    requires data.path == [] && Shows(Sub(data), [], all, v)
    ensures all <= more && fresh(more - all)
    ensures if Has(v, Split(target)) && At(v, Split(target)).value.Object? then
              extracted in all && Shows(Sub(extracted), extracted.path, all, At(v, Split(target)).value)
            else
              fresh(extracted) && extracted.fields == map[] && Shows(Sub(extracted), extracted.path, more, Object(map[]))
  {
    hide Shows, Split;
    extracted, more := data, all;
    Level(Sub(data), [], all, v);
    var parts := Split(target);
    ghost var w := v;
    for i := 0 to |parts|
      invariant more == all
      invariant At(v, parts[..i]) == Some(w)
      invariant extracted.path == parts[..i] && Shows(Sub(extracted), extracted.path, all, w)
    {
      ghost var here := parts[..i + 1];
      assert here == parts[..i] + [parts[i]];
      AtSnoc(v, parts[..i], parts[i]);
      Level(Sub(extracted), extracted.path, all, w);
      if parts[i] in extracted.fields && extracted.fields[parts[i]].Sub? {
        Level(extracted.fields[parts[i]], here, all, w.fields[parts[i]]);
        extracted := extracted.fields[parts[i]].node;
        w := w.fields[parts[i]];
      } else {
        if parts[i] in extracted.fields { Level(extracted.fields[parts[i]], here, all, w.fields[parts[i]]); }
        if here < parts { NothingBelow(v, here, parts); } else { assert here == parts; }
        extracted := new Node([]);
        more := all + {extracted};
        Whole(extracted, more, map[]);
        return;
      }
    }
    assert parts[..|parts|] == parts;
    Level(Sub(extracted), extracted.path, all, w);
  }
}
