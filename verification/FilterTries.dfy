/** The filters as the code builds them: compiling a list into maps on the heap. */
module FilterTries {
  import opened Json
  import opened Paths
  import opened Trees
  import Allowlist
  import Denylist
  import PruneMaps

  /** The listed strings, taken apart at their dots. */
  function Keys(list: seq<string>): (paths: seq<Path>)
    ensures |paths| == |list| && forall i | 0 <= i < |list| :: paths[i] != []
  {
    seq(|list|, i requires 0 <= i < |list| => Split(list[i]))
  }

  // ---- Deny lists

  /** Enters `path` into the tree; the branch for a node that is neither nil nor a map is never taken. */
  method BuildDenyTree(path: seq<string>, tree: Node, ghost maps: set<Node>,
          ghost t: Fields) returns (ghost more: set<Node>)
    requires Shows(Sub(tree), tree.path, maps, Object(t)) && Denylist.NilOrObject(Object(t))
    modifies Under(maps, tree.path)
    ensures maps <= more && fresh(more - maps)
    ensures Shows(Sub(tree), tree.path, more, Object(Denylist.Enter(t, path)))
    decreases |path|, 1
  {
    hide Shows;
    more := maps;
    if |path| == 0 { return; }
    var n := path[0];
    Settles(tree, maps, t);
    assert Settled(tree, maps, n, t);
    BranchesApart(maps, tree.path);
    if |path| == 1 {
      LeafShows(maps, tree.path + [n], Null);
      tree.Put(n, Leaf(Null), maps);
      OneKeyChanged(tree, maps, more, n, t, Null);
    } else if n in tree.fields {
      var k := tree.fields[n];
      Level(k, tree.path + [n], maps, t[n]);
      if k == Leaf(Null) { return; }
      assert Denylist.NilOrObject(t[n]);
      more := BuildDenyTree(path[1..], k.node, maps, t[n].fields);
      OneKeyChanged(tree, maps, more, n, t, Object(Denylist.Enter(t[n].fields, path[1..])));
    } else {
      more := NewBranch(path, tree, maps, t);
    }
  }

  /** The last branch above: the key is not there, and neither is anything under it. */
  method NewBranch(path: seq<string>, tree: Node, ghost maps: set<Node>,
          ghost t: Fields) returns (ghost more: set<Node>)
    requires |path| > 1 && Shows(Sub(tree), tree.path, maps, Object(t))
    modifies tree
    ensures maps <= more && fresh(more - maps)
    ensures Shows(Sub(tree), tree.path, more, Object(t[path[0] := Object(Denylist.Enter(map[], path[1..]))]))
    decreases |path|, 0
  {
    hide Shows, Denylist.Enter;
    var n := path[0];
    assert Under(maps, tree.path) <= maps;
    var childTree := new Node(tree.path + [n]);
    Settles(tree, maps, t);
    tree.Put(n, Sub(childTree), maps);
    assert forall k | k != n :: Settled(tree, maps, k, t) && Under(maps, tree.path + [k]) <= maps;
    Whole(childTree, {childTree}, map[]);
    more := BuildDenyTree(path[1..], childTree, {childTree}, map[]);
    ShowsMore(Sub(childTree), childTree.path, more, maps + more, Object(Denylist.Enter(map[], path[1..])));
    more := maps + more;
    OneKeyChanged(tree, maps, more, n, t, Object(Denylist.Enter(map[], path[1..])));
  }

  /** The whole deny list, compiled once for all responses. */
  method NewDenylistingFilter(blacklist: seq<string>) returns (bl: Node, ghost maps: set<Node>)
    ensures fresh(maps) && Shows(Sub(bl), bl.path, maps, Object(Denylist.Compile(Keys(blacklist))))
  {
    hide Shows;
    ghost var paths := Keys(blacklist);
    bl := new Node([]);
    maps := {bl};
    Whole(bl, maps, map[]);
    for i := 0 to |blacklist|
      invariant fresh(maps)
      invariant Shows(Sub(bl), bl.path, maps, Object(Denylist.Compile(paths[..i])))
    {
      var keys := Split(blacklist[i]);
      Denylist.CompileShape(paths[..i]);
      assert paths[..i + 1][..i] == paths[..i];
      maps := BuildDenyTree(keys, bl, maps, Denylist.Compile(paths[..i]));
    }
    assert paths[..|blacklist|] == paths;
  }

  /** A deny list applied to the data of a response. */
  method Denylisting(blacklist: seq<string>, data: Node, ghost all: set<Node>, ghost v: Value)
    requires Shows(Sub(data), [], all, v)
    modifies all
    ensures Shows(Sub(data), [], all, Denylist.Deleted(Denylist.Compile(Keys(blacklist)), v))
  {
    hide Shows;
    var bl, maps := NewDenylistingFilter(blacklist);
    Denylist.CompileShape(Keys(blacklist));
    PruneMaps.RecDelete(bl, Sub(data), [], maps, all, Denylist.Compile(Keys(blacklist)), v);
  }

  // ---- Allow lists

  /** The maps of `all` that do not hang at `end` or below it. */
  ghost function Outside(all: set<Node>, end: Path): set<Node> {
    set n | n in all && !(end <= n.path)
  }

  lemma OffTheWay(all: set<Node>, path: Path, q: Path)
    requires q != []
    ensures path + [q[0]] + q[1..] == path + q
    ensures forall n | n in all && n.path == path :: n in Outside(all, path + q)
    ensures forall k | k != q[0] :: Under(all, path + [k]) <= Outside(all, path + q)
  {
    assert [q[0]] + q[1..] == q;
    forall k, n | k != q[0] && n in Under(all, path + [k])
      ensures n in Outside(all, path + q)
    {
      assert n.path[|path|] == (path + [k])[|path|] == k;
      assert (path + q)[|path|] == q[0];
    }
  }

  /**
    The maps met on the way from `spine[0]` along `q`: off that way they show what `t` says. What hangs at
    the end of the way is left open.
   */
  ghost predicate Spine(spine: seq<Node>, path: Path, all: set<Node>, t: Fields, q: Path)
    reads Outside(all, path + q)
    decreases |q|
  {
    && |spine| == |q| + 1
    && spine[0] in all && spine[0].path == path
    && (q == [] ||
        (OffTheWay(all, path, q);
         && q[0] in spine[0].fields && spine[0].fields[q[0]] == Sub(spine[1])
         && (forall k | k != q[0] :: Settled(spine[0], all, k, t))
         && Spine(spine[1..], path + [q[0]], all, Allowlist.Below(t, q[0]), q[1..])))
  }

  lemma {:induction false} SpineMore(spine: seq<Node>, path: Path, all: set<Node>, more: set<Node>, t: Fields, q: Path)
    requires all <= more && Spine(spine, path, all, t, q)
    ensures Spine(spine, path, more, t, q)
    decreases |q|
  {
    hide Shows, Settled;
    if q != [] {
      forall k | k != q[0]
        ensures Settled(spine[0], more, k, t)
      {
        SettledMore(spine[0], all, more, k, t);
      }
      SpineMore(spine[1..], path + [q[0]], all, more, Allowlist.Below(t, q[0]), q[1..]);
    }
  }

  /** One step further down. */
  lemma {:induction false} SpineSnoc(spine: seq<Node>, path: Path, all: set<Node>, t: Fields, q: Path,
          k: string, c: Node)
    requires Spine(spine, path, all, t, q) && c in all && c.path == path + q + [k]
    requires spine[|q|].path == path + q && k in spine[|q|].fields && spine[|q|].fields[k] == Sub(c)
    requires forall k' | k' != k :: Settled(spine[|q|], all, k', Allowlist.Down(t, q))
    ensures Spine(spine + [c], path, all, t, q + [k])
    decreases |q|
  {
    hide Shows, Settled;
    if q != [] {
      assert (q + [k])[1..] == q[1..] + [k] && (spine + [c])[1..] == spine[1..] + [c];
      assert path + [q[0]] + q[1..] == path + q && spine[1..][|q| - 1] == spine[|q|];
      assert Allowlist.Down(t, q) == Allowlist.Down(Allowlist.Below(t, q[0]), q[1..]);
      SpineSnoc(spine[1..], path + [q[0]], all, Allowlist.Below(t, q[0]), q[1..], k, c);
    } else {
      assert path + [] == path && path + [k] + [] == path + [k];
      assert Spine([c], path + [k], all, Allowlist.Below(t, k), []);
      assert (spine + [c])[1..] == [c] && q + [k] == [k] && [k][1..] == [];
      assert Allowlist.Down(t, q) == t;
    }
  }

  /** With the map at the end showing `w`, the whole trie shows `w` in its place. */
  lemma {:induction false} SpineShows(spine: seq<Node>, path: Path, all: set<Node>, t: Fields, q: Path, w: Fields)
    requires Spine(spine, path, all, t, q) && Shows(Sub(spine[|q|]), path + q, all, Object(w))
    ensures Shows(Sub(spine[0]), path, all, Object(Allowlist.Graft(t, q, w)))
    decreases |q|
  {
    hide Shows, Settled;
    if q == [] {
      assert path + [] == path;
    } else {
      assert path + [q[0]] + q[1..] == path + q;
      var below := Allowlist.Below(t, q[0]);
      SpineShows(spine[1..], path + [q[0]], all, below, q[1..], w);
      OneKeyChanged(spine[0], all, all, q[0], t, Object(Allowlist.Graft(below, q[1..], w)));
    }
  }

  /** The way along `q` from the root of the trie to its map `p`, which shows what `t` has there. */
  ghost predicate Along(spine: seq<Node>, root: Node, p: Node, all: set<Node>, t: Fields, q: Path)
    reads all
  {
    && Spine(spine, [], all, t, q)
    && spine[0] == root && spine[|q|] == p
    && p in all && p.path == q && Shows(Sub(p), q, all, Object(Allowlist.Down(t, q)))
  }

  lemma AlongStart(root: Node, all: set<Node>, t: Fields)
    requires root.path == [] && Shows(Sub(root), [], all, Object(t))
    ensures Along([root], root, root, all, t, [])
  {
  }

  lemma AlongLevel(spine: seq<Node>, root: Node, p: Node, all: set<Node>, t: Fields, q: Path, k: string)
    requires Along(spine, root, p, all, t, q)
    ensures |spine| == |q| + 1 && Spine(spine, [], all, t, q) && spine[0] == root && spine[|q|] == p
    ensures p in all && p.path == q && Shows(Sub(p), q, all, Object(Allowlist.Down(t, q)))
    ensures forall k' :: Settled(p, all, k', Allowlist.Down(t, q))
    ensures k in p.fields && p.fields[k].Sub? ==>
              var c := p.fields[k].node;
              c in all && c.path == q + [k] && Shows(Sub(c), q + [k], all, Object(Allowlist.Below(Allowlist.Down(t, q), k)))
    ensures k !in p.fields || !p.fields[k].Sub? ==> Allowlist.Below(Allowlist.Down(t, q), k) == map[]
  {
    var here := Allowlist.Down(t, q);
    Settles(p, all, here);
    Level(Sub(p), q, all, Object(here));
    if k in here { Level(p.fields[k], q + [k], all, here[k]); }
  }

  lemma AlongSnoc(spine: seq<Node>, root: Node, all: set<Node>, more: set<Node>, t: Fields, q: Path, k: string, c: Node)
    requires all <= more && Spine(spine, [], all, t, q) && spine[0] == root && spine[|q|] in all && spine[|q|].path == q
    requires k in spine[|q|].fields && spine[|q|].fields[k] == Sub(c)
    requires c in more && c.path == q + [k]
    requires forall k' | k' != k :: Settled(spine[|q|], all, k', Allowlist.Down(t, q))
    requires Shows(Sub(c), q + [k], more, Object(Allowlist.Below(Allowlist.Down(t, q), k)))
    ensures Along(spine + [c], root, c, more, t, q + [k])
  {
    hide Shows, Settled;
    SpineMore(spine, [], all, more, t, q);
    forall k' | k' != k
      ensures Settled(spine[|q|], more, k', Allowlist.Down(t, q))
    {
      SettledMore(spine[|q|], all, more, k', Allowlist.Down(t, q));
    }
    assert [] + q == q;
    SpineSnoc(spine, [], more, t, q, k, c);
    Allowlist.DownSnoc(t, q, k);
  }

  /** One turn of the second loop below: a fresh map under `k`, in place of whatever was there. */
  method Deepen(p: Node, k: string, ghost root: Node, ghost maps: set<Node>, ghost spine: seq<Node>,
          ghost t: Fields, ghost q: Path)
    returns (c: Node, ghost more: set<Node>, ghost longer: seq<Node>)
    requires Along(spine, root, p, maps, t, q)
    requires k !in p.fields || !p.fields[k].Sub?
    modifies p
    ensures fresh(c) && more == maps + {c} && c.fields == map[]
    ensures Along(longer, root, c, more, t, q + [k])
  {
    hide Shows, Settled, Spine, Allowlist.Down, Allowlist.Below;
    c := new Node(q + [k]);
    Whole(c, {c}, map[]);
    AlongLevel(spine, root, p, maps, t, q, k);
    assert [] + q == q && p !in Outside(maps, [] + q);
    p.Put(k, Sub(c), maps);
    assert Spine(spine, [], maps, t, q);
    ShowsMore(Sub(c), c.path, {c}, maps + {c}, Object(map[]));
    AlongSnoc(spine, root, maps, maps + {c}, t, q, k, c);
    more, longer := maps + {c}, spine + [c];
  }

  /** The map at the end of `fields`: first down the maps there are, then through fresh ones. */
  method BuildDictPath(accumulator: Node, fields: seq<string>, ghost maps: set<Node>, ghost t: Fields)
    returns (p: Node, ghost more: set<Node>, ghost spine: seq<Node>)
    requires accumulator.path == [] && Shows(Sub(accumulator), [], maps, Object(t))
    modifies maps
    ensures maps <= more && fresh(more - maps)
    ensures Along(spine, accumulator, p, more, t, fields)
  {
    hide *;
    p, more, spine := accumulator, maps, [accumulator];
    AlongStart(accumulator, maps, t);
    AlongLevel(spine, accumulator, p, maps, t, [], "");
    var fIdx := 0;
    while fIdx < |fields|
      invariant 0 <= fIdx <= |fields|
      invariant p in maps && Along(spine, accumulator, p, maps, t, fields[..fIdx])
    {
      var k := fields[fIdx];
      AlongLevel(spine, accumulator, p, maps, t, fields[..fIdx], k);
      if k !in p.fields || !p.fields[k].Sub? { break; }
      var c := p.fields[k].node;
      AlongSnoc(spine, accumulator, maps, maps, t, fields[..fIdx], k, c);
      assert fields[..fIdx + 1] == fields[..fIdx] + [k];
      p, spine, fIdx := c, spine + [c], fIdx + 1;
    }
    while fIdx < |fields|
      invariant 0 <= fIdx <= |fields|
      invariant maps <= more && fresh(more - maps)
      invariant p in more && Along(spine, accumulator, p, more, t, fields[..fIdx])
      invariant fIdx < |fields| ==> fields[fIdx] !in p.fields || !p.fields[fields[fIdx]].Sub?
    {
      assert fields[..fIdx + 1] == fields[..fIdx] + [fields[fIdx]];
      p, more, spine := Deepen(p, fields[fIdx], accumulator, more, spine, t, fields[..fIdx]);
      fIdx := fIdx + 1;
    }
    assert fields[..|fields|] == fields;
  }

  /** One listed path entered into the trie. */
  method EnterPath(wlDict: Node, wlFields: seq<string>, ghost maps: set<Node>,
          ghost t: Fields) returns (ghost more: set<Node>)
    requires wlFields != [] && wlDict.path == [] && Shows(Sub(wlDict), [], maps, Object(t))
    modifies maps
    ensures maps <= more && fresh(more - maps)
    ensures Shows(Sub(wlDict), [], more, Object(Allowlist.Enter(t, wlFields)))
  {
    hide Shows, Settled, Spine, Allowlist.Down, Allowlist.Graft, Allowlist.Enter;
    var last := |wlFields| - 1;
    ghost var q := wlFields[..last];
    ghost var spine;
    var d;
    d, more, spine := BuildDictPath(wlDict, wlFields[..last], maps, t);
    AlongLevel(spine, wlDict, d, more, t, q, wlFields[last]);
    assert [] + q == q && d !in Outside(more, [] + q);
    LeafShows(more, d.path + [wlFields[last]], Allowlist.TRUE_MARK);
    d.Put(wlFields[last], Leaf(Allowlist.TRUE_MARK), more);
    OneKeyChanged(d, more, more, wlFields[last], Allowlist.Down(t, q), Allowlist.TRUE_MARK);
    SpineShows(spine, [], more, t, q, Allowlist.Down(t, q)[wlFields[last] := Allowlist.TRUE_MARK]);
    Allowlist.GraftMark(t, q, wlFields[last]);
    assert q + [wlFields[last]] == wlFields;
  }

  /** The whole allow list, compiled once for all responses. */
  method NewAllowlistingFilter(list: seq<string>) returns (wlDict: Node, ghost maps: set<Node>)
    ensures fresh(maps) && wlDict.path == []
    ensures Shows(Sub(wlDict), [], maps, Object(Allowlist.Compile(Keys(list))))
  {
    hide Shows;
    ghost var paths := Keys(list);
    wlDict := new Node([]);
    maps := {wlDict};
    Whole(wlDict, maps, map[]);
    for i := 0 to |list|
      invariant fresh(maps)
      invariant Shows(Sub(wlDict), [], maps, Object(Allowlist.Compile(paths[..i])))
    {
      var wlFields := Split(list[i]);
      assert paths[..i + 1][..i] == paths[..i];
      maps := EnterPath(wlDict, wlFields, maps, Allowlist.Compile(paths[..i]));
    }
    assert paths[..|list|] == paths;
  }

  /** An allow list applied to the data of a response; when nothing is left, the clean-up finds nothing to do. */
  method Allowlisting(list: seq<string>, data: Node, ghost all: set<Node>, ghost v: Value)
    requires data.path == [] && Shows(Sub(data), [], all, v)
    modifies all
    ensures Shows(Sub(data), [], all, Allowlist.Pruned(Allowlist.Compile(Keys(list)), v))
  {
    hide Shows, Allowlist.Pruned, Allowlist.Compile;
    Level(Sub(data), [], all, v);
    var wlDict, maps := NewAllowlistingFilter(list);
    var canDelete := PruneMaps.AllowlistPrune(wlDict, data, maps, all, Allowlist.Compile(Keys(list)), v);
    if canDelete {
      Level(Sub(data), [], all, Object(map[]));
      assert data.fields == map[];
      CleanUp(data);
      Whole(data, all, map[]);
    }
  }

  /** `for k := range m { delete(m, k) }` */
  method CleanUp(m: Node)
    modifies m
    ensures m.fields == map[]
  {
    var keys := m.fields.Keys;
    while keys != {}
      invariant m.fields.Keys == keys
      decreases keys
    {
      var k :| k in keys;
      keys := keys - {k};
      m.fields := m.fields - {k};
    }
  }
}
