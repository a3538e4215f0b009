/**
  Trees of Go maps on the heap: decoded response bodies and the compiled filters. Every map of a tree is
  found at one place only, which its ghost `path` records; a value that is no map is a leaf.
 */
module Trees {
  import opened Json

  datatype Item = Leaf(value: Value) | Sub(node: Node)

  class Node {
    var fields: map<string, Item>
    ghost const path: Path

    constructor (ghost path: Path)
      ensures fields == map[] && this.path == path
    {
      fields := map[];
      this.path := path;
    }

    /** `m[k] = item` leaves what the other keys show as it was. */
    method Put(k: string, item: Item, ghost all: set<Node>)
      modifies this
      ensures fields == old(fields)[k := item]
      ensures forall k', f | k' != k && old(Settled(this, all, k', f)) :: Settled(this, all, k', f)
    {
      hide Shows;
      BranchesApart(all, path);
      fields := fields[k := item];
    }

    /** `delete(m, k)` leaves what the other keys show as it was. */
    method Delete(k: string, ghost all: set<Node>)
      modifies this
      ensures fields == old(fields) - {k}
      ensures forall k', f | k' != k && old(Settled(this, all, k', f)) :: Settled(this, all, k', f)
    {
      hide Shows;
      BranchesApart(all, path);
      fields := fields - {k};
    }
  }

  /** The maps of `all` that hang at `path` or below it. */
  ghost function Under(all: set<Node>, path: Path): set<Node> {
    set n | n in all && path <= n.path
  }

  /** The tree starting at `it`, made of maps of `all`, stands for the value `v`. */
  ghost predicate Shows(it: Item, path: Path, all: set<Node>, v: Value)
    reads Under(all, path)
    decreases v
  {
    match it
    case Leaf(value) => v == value && !v.Object?
    case Sub(n) =>
      && n in all && n.path == path
      && v.Object? && n.fields.Keys == v.fields.Keys
      && forall k | k in v.fields :: Shows(n.fields[k], path + [k], all, v.fields[k])
  }

  /** What hangs under two different keys of a map has no map in common, nor the map itself. */
  lemma BranchesApart(all: set<Node>, path: Path)
    ensures forall k, k' | k != k' :: Under(all, path + [k]) !! Under(all, path + [k'])
    ensures forall k :: Under(all, path + [k]) <= Under(all, path)
    ensures forall k, n | n in Under(all, path + [k]) :: n.path != path
  {
    forall k, k' | k != k'
      ensures Under(all, path + [k]) !! Under(all, path + [k'])
    {
      forall n | n in Under(all, path + [k])
        ensures n !in Under(all, path + [k'])
      {
        assert n.path[|path|] == (path + [k])[|path|] == k;
        assert (path + [k'])[|path|] == k';
      }
    }
  }

  lemma BranchInside(all: set<Node>, path: Path, k: string)
    ensures Under(all, path + [k]) <= Under(all, path)
  {
  }

  /** A tree may be looked at inside a larger set of maps. */
  lemma {:induction false} ShowsMore(it: Item, path: Path, all: set<Node>, more: set<Node>, v: Value)
    requires all <= more && Shows(it, path, all, v)
    ensures Shows(it, path, more, v)
    decreases v
  {
    if it.Sub? {
      forall k | k in v.fields
        ensures Shows(it.node.fields[k], path + [k], more, v.fields[k])
      {
        ShowsMore(it.node.fields[k], path + [k], all, more, v.fields[k]);
      }
    }
  }

  /** One level of a tree: a map is a map, and its keys and the trees under them are those of the value. */
  lemma Level(it: Item, path: Path, all: set<Node>, v: Value)
    requires Shows(it, path, all, v)
    ensures it.Sub? <==> v.Object?
    ensures it.Sub? ==> it.node in all && it.node.path == path && it.node.fields.Keys == v.fields.Keys
    ensures it.Sub? ==> forall k | k in v.fields :: Shows(it.node.fields[k], path + [k], all, v.fields[k])
    ensures it.Leaf? ==> it.value == v
  {
  }

  lemma Whole(n: Node, all: set<Node>, v: Fields)
    requires n in all && n.fields.Keys == v.Keys
    requires forall k | k in v :: Shows(n.fields[k], n.path + [k], all, v[k])
    ensures Shows(Sub(n), n.path, all, Object(v))
  {
  }

  /** `k` and its subtree are as `left` says: gone, or showing the value found there. */
  ghost predicate Settled(d: Node, all: set<Node>, k: string, left: Fields)
    reads d, Under(all, d.path + [k])
  {
    if k in left then k in d.fields && Shows(d.fields[k], d.path + [k], all, left[k]) else k !in d.fields
  }

  lemma AllSettled(d: Node, all: set<Node>, left: Fields)
    requires d in all && forall k :: Settled(d, all, k, left)
    ensures Shows(Sub(d), d.path, all, Object(left))
  {
    forall k
      ensures k in d.fields <==> k in left
      ensures k in left ==> Shows(d.fields[k], d.path + [k], all, left[k])
    {
      assert Settled(d, all, k, left);
    }
    Whole(d, all, left);
  }

  lemma SettledMore(d: Node, all: set<Node>, more: set<Node>, k: string, left: Fields)
    requires all <= more && Settled(d, all, k, left)
    ensures Settled(d, more, k, left)
  {
    if k in left { ShowsMore(d.fields[k], d.path + [k], all, more, left[k]); }
  }

  lemma Settles(d: Node, all: set<Node>, v: Fields)
    requires Shows(Sub(d), d.path, all, Object(v))
    ensures d in all && forall k :: Settled(d, all, k, v)
  {
  }

  lemma LeafShows(all: set<Node>, path: Path, v: Value)
    requires !v.Object?
    ensures Shows(Leaf(v), path, all, v)
  {
  }

  /** Key `n` of `d` now shows something else, perhaps with new maps; every other key is as it was. */
  lemma OneKeyChanged(d: Node, all: set<Node>, more: set<Node>, n: string, before: Fields, v: Value)
    requires d in all && all <= more
    requires forall k | k != n :: Settled(d, all, k, before)
    requires n in d.fields && Shows(d.fields[n], d.path + [n], more, v)
    ensures Shows(Sub(d), d.path, more, Object(before[n := v]))
  {
    var after := before[n := v];
    forall k
      ensures Settled(d, more, k, after)
    {
      if k != n { SettledMore(d, all, more, k, before); }
    }
    AllSettled(d, more, after);
  }
}
