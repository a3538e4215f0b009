/** The filters as the code runs them: pruning the maps of a response in place. */
module PruneMaps {
  import opened Json
  import opened Trees
  import Allowlist
  import Denylist

  /** Prunes `d` by the compiled allow list `wl`, and says whether nothing is left of it. */
  method AllowlistPrune(wl: Node, d: Node, ghost trie: set<Node>, ghost data: set<Node>, ghost t: Fields,
          ghost v: Value)
    returns (canDelete: bool)
    requires trie !! data
    requires Shows(Sub(wl), wl.path, trie, Object(t)) && Shows(Sub(d), d.path, data, v)
    modifies Under(data, d.path)
    ensures Shows(Sub(d), d.path, data, Allowlist.Pruned(t, v))
    ensures canDelete <==> Allowlist.Pruned(t, v) == Object(map[])
    decreases v, 1
  {
    hide Shows, Allowlist.Pruned, Allowlist.Kept;
    Level(Sub(d), d.path, data, v);
    ghost var left := Allowlist.Pruned(t, v).fields;
    Allowlist.PrunedKeys(t, v);
    assert Under(trie, wl.path) !! Under(data, d.path);
    canDelete := true;
    var keys := d.fields.Keys;
    while keys != {}
      invariant keys <= v.fields.Keys
      invariant forall k | k in keys :: Settled(d, data, k, v.fields)
      invariant forall k | k !in keys :: Settled(d, data, k, left)
      invariant Shows(Sub(wl), wl.path, trie, Object(t))
      invariant canDelete <==> forall k | k in left :: k in keys
      decreases keys
    {
      var k :| k in keys;
      keys := keys - {k};
      BranchInside(data, d.path, k);
      var deleteSibling := PruneKey(wl, d, k, trie, data, t, v);
      if !deleteSibling { canDelete := false; }
    }
    AllSettled(d, data, left);
  }

  /** One turn of the loop above: key `k` of `d` is deleted, or its map is pruned, or it is left as it is. */
  method PruneKey(wl: Node, d: Node, k: string, ghost trie: set<Node>, ghost data: set<Node>, ghost t: Fields,
          ghost v: Value)
    returns (deleteSibling: bool)
    requires trie !! data
    requires Shows(Sub(wl), wl.path, trie, Object(t))
    requires v.Object? && k in v.fields && d in data && Settled(d, data, k, v.fields)
    modifies d, Under(data, d.path + [k])
    ensures deleteSibling <==> k !in Allowlist.Pruned(t, v).fields
    ensures d.fields == if deleteSibling then old(d.fields) - {k} else old(d.fields)
    ensures Settled(d, data, k, Allowlist.Pruned(t, v).fields)
    ensures forall k', m | k' != k && old(Settled(d, data, k', m)) :: Settled(d, data, k', m)
    decreases v, 0
  {
    hide Shows, Allowlist.Pruned, Allowlist.Kept;
    Allowlist.PrunedKeys(t, v);
    BranchesApart(data, d.path);
    Level(Sub(wl), wl.path, trie, Object(t));
    Level(d.fields[k], d.path + [k], data, v.fields[k]);
    deleteSibling := true;
    if k in wl.fields {
      var sub := wl.fields[k];
      Level(sub, wl.path + [k], trie, t[k]);
      if sub.Sub? {
        if d.fields[k].Sub? {
          var empty := AllowlistPrune(sub.node, d.fields[k].node, trie, data, t[k].fields, v.fields[k]);
          if !empty { deleteSibling := false; }
        }
      } else {
        deleteSibling := false;
      }
    }
    if deleteSibling { d.Delete(k, data); }
  }

  /** Deletes from the map `it`, if it is one, what the compiled deny list `ref` says. */
  method RecDelete(ref: Node, it: Item, ghost path: Path, ghost trie: set<Node>, ghost data: set<Node>,
          ghost t: Fields, ghost v: Value)
    requires trie !! data
    requires Shows(Sub(ref), ref.path, trie, Object(t)) && Denylist.NilOrObject(Object(t))
    requires Shows(it, path, data, v)
    modifies Under(data, path)
    ensures Shows(it, path, data, Denylist.Deleted(t, v))
    decreases v, 1
  {
    hide Shows, Denylist.Deleted, Denylist.NilOrObject;
    Level(it, path, data, v);
    if it.Leaf? {
      Denylist.DeletedKeys(t, v);
      return;
    }
    var m := it.node;
    Settles(m, data, v.fields);
    Denylist.DeletedKeys(t, v);
    ghost var left := Denylist.Deleted(t, v).fields;
    Level(Sub(ref), ref.path, trie, Object(t));
    assert Under(trie, ref.path) !! Under(data, path);
    var keys := ref.fields.Keys;
    while keys != {}
      invariant keys <= t.Keys
      invariant forall k | k in keys :: Settled(m, data, k, v.fields)
      invariant forall k | k !in keys :: Settled(m, data, k, left)
      invariant Shows(Sub(ref), ref.path, trie, Object(t))
      decreases keys
    {
      var rk :| rk in keys;
      keys := keys - {rk};
      BranchInside(data, path, rk);
      DeleteKey(ref, m, rk, trie, data, t, v);
    }
    AllSettled(m, data, left);
  }

  /** One turn of the loop above. The cast of a node that is not nil to a map cannot fail. */
  method DeleteKey(ref: Node, m: Node, rk: string, ghost trie: set<Node>, ghost data: set<Node>,
          ghost t: Fields, ghost v: Value)
    requires trie !! data
    requires Shows(Sub(ref), ref.path, trie, Object(t)) && Denylist.NilOrObject(Object(t)) && rk in ref.fields
    requires v.Object? && m in data && Settled(m, data, rk, v.fields)
    modifies m, Under(data, m.path + [rk])
    ensures Settled(m, data, rk, Denylist.Deleted(t, v).fields)
    ensures forall k, f | k != rk && old(Settled(m, data, k, f)) :: Settled(m, data, k, f)
    decreases v, 0
  {
    hide Shows, Denylist.Deleted;
    Denylist.DeletedKeys(t, v);
    BranchesApart(data, m.path);
    Level(Sub(ref), ref.path, trie, Object(t));
    var rv := ref.fields[rk];
    Level(rv, ref.path + [rk], trie, t[rk]);
    if rk !in m.fields { return; }
    if rv == Leaf(Null) {
      m.Delete(rk, data);
      return;
    }
    assert t[rk].Object? && Denylist.NilOrObject(t[rk]);
    RecDelete(rv.node, m.fields[rk], m.path + [rk], trie, data, t[rk].fields, v.fields[rk]);
  }
}
