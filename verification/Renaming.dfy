/** Field renaming: a loop over a map, in an order that Go leaves open, editing the data it looks at. */
module Renaming {
  import opened Paths
  import opened Seqs
  import opened Trees
  import opened Visits

  /** The configured names, cut at their first dot. */
  method Sanitize(names: map<string, string>) returns (mapping: map<string, string>)
    ensures mapping.Keys == names.Keys
    ensures forall k | k in names ::
      && '.' !in mapping[k] && mapping[k] <= names[k]
      && (mapping[k] == names[k] || names[k][|mapping[k]|] == '.')
  {
    mapping := map[];
    var rest := names.Keys;
    while rest != {}
      invariant rest <= names.Keys && mapping.Keys == names.Keys - rest
      invariant forall k | k in mapping ::
        && '.' !in mapping[k] && mapping[k] <= names[k]
        && (mapping[k] == names[k] || names[k][|mapping[k]|] == '.')
      decreases rest
    {
      var i :| i in rest;
      rest := rest - {i};
      var v := Split(names[i]);
      FirstPart(names[i]);
      mapping := mapping[i := v[0]];
    }
  }

  // ---- What the loop computes

  /** One turn. A key that is its own new name is dropped. */
  function Turn<V>(data: map<string, V>, k: string, n: string): map<string, V> {
    if k in data then data[n := data[k]] - {k} else data
  }

  predicate Known(order: seq<string>, mapping: map<string, string>) {
    forall i | 0 <= i < |order| :: order[i] in mapping
  }

  function Run<V>(data: map<string, V>, mapping: map<string, string>, order: seq<string>): map<string, V>
    requires Known(order, mapping)
  {
    if order == [] then data
    else
      var n := |order| - 1;
      assert Known(order[..n], mapping);
      Turn(Run(data, mapping, order[..n]), order[n], mapping[order[n]])
  }

  /** The loop, whatever order the map is visited in. */
  method Rename(data: Node, mapping: map<string, string>) returns (ghost order: seq<string>)
    modifies data
    ensures Orders(order, mapping.Keys) && Known(order, mapping)
    ensures data.fields == Run(old(data.fields), mapping, order)
    ensures Clean(old(data.fields), mapping) ==> IsRenaming(old(data.fields), mapping, data.fields)
  {
    order := [];
    var rest := mapping.Keys;
    while rest != {}
      invariant rest <= mapping.Keys && Orders(order, mapping.Keys - rest) && Known(order, mapping)
      invariant data.fields == Run(old(data.fields), mapping, order)
      decreases rest
    {
      var formerKey :| formerKey in rest;
      OrdersSnoc(order, mapping.Keys - rest, formerKey);
      rest := rest - {formerKey};
      var newKey := mapping[formerKey];
      if formerKey in data.fields {
        var v := data.fields[formerKey];
        data.fields := data.fields[newKey := v];
        data.fields := data.fields - {formerKey};
      }
      assert mapping.Keys - rest == (mapping.Keys - (rest + {formerKey})) + {formerKey};
      assert (order + [formerKey])[..|order|] == order;
      order := order + [formerKey];
    }
    hide *;
    assert mapping.Keys - rest == mapping.Keys;
    if Clean(old(data.fields), mapping) {
      CleanRenames(old(data.fields), mapping, order);
      RenamesMeans(old(data.fields), mapping, order);
    }
  }

  // ---- What renaming is for

  predicate Present<V>(data: map<string, V>, mapping: map<string, string>, k: string) {
    k in mapping && k in data
  }

  /** `j` is the new name of some key of the data. */
  ghost predicate NewName<V>(data: map<string, V>, mapping: map<string, string>, j: string) {
    exists k :: Present(data, mapping, k) && mapping[k] == j
  }

  /** `r` is `data` without the old keys, and with each old value under its new name. */
  ghost predicate IsRenaming<V>(data: map<string, V>, mapping: map<string, string>, r: map<string, V>) {
    && (forall k | Present(data, mapping, k) :: mapping[k] in r && r[mapping[k]] == data[k])
    && (forall j | !NewName(data, mapping, j) :: j in r <==> j in data && j !in mapping)
    && (forall j | j in r && !NewName(data, mapping, j) :: r[j] == data[j])
  }

  /** No two maps are. */
  lemma RenamingUnique<V>(data: map<string, V>, mapping: map<string, string>, r: map<string, V>, r': map<string, V>)
    requires IsRenaming(data, mapping, r) && IsRenaming(data, mapping, r')
    ensures r == r'
  {
    forall j
      ensures j in r <==> j in r'
      ensures j in r && j in r' ==> r[j] == r'[j]
    {
      if NewName(data, mapping, j) {
        var k :| Present(data, mapping, k) && mapping[k] == j;
      }
    }
  }

  /** No new name in use is a name to be replaced itself, and names shared by several keys get one value. */
  ghost predicate Clean<V>(data: map<string, V>, mapping: map<string, string>) {
    && (forall k | Present(data, mapping, k) :: mapping[k] !in mapping)
    && (forall k, k' | Present(data, mapping, k) && Present(data, mapping, k') && mapping[k] == mapping[k'] ::
          data[k] == data[k'])
  }

  /** The keys visited so far have moved, the others have not. */
  ghost predicate Moved<V>(data: map<string, V>, mapping: map<string, string>, done: set<string>, r: map<string, V>) {
    && (forall k | Present(data, mapping, k) && k in done :: mapping[k] in r && r[mapping[k]] == data[k])
    && (forall j | j in data && j !in done :: j in r)
    && (forall j | j in r ::
          (j in data && j !in done && r[j] == data[j])
          || exists k :: Present(data, mapping, k) && k in done && mapping[k] == j)
  }

  lemma {:induction false} RunMoves<V>(data: map<string, V>, mapping: map<string, string>, order: seq<string>)
    requires Clean(data, mapping) && Known(order, mapping)
    requires Distinct(order)
    ensures Moved(data, mapping, Elements(order), Run(data, mapping, order))
  {
    if order != [] {
      var n := |order| - 1;
      var before, k := order[..n], order[n];
      RunMoves(data, mapping, before);
      assert forall i | 0 <= i < n :: before[i] == order[i] != k;
      assert k !in Elements(before);
      assert order == before + [k];
      ElementsSnoc(before, k);
      hide Moved, Clean, Elements;
      TurnMoves(data, mapping, Elements(before), Run(data, mapping, before), k);
    }
  }

  lemma TurnMoves<V>(data: map<string, V>, mapping: map<string, string>, done: set<string>, r: map<string, V>,
          k: string)
    requires Clean(data, mapping) && Moved(data, mapping, done, r)
    requires k in mapping && k !in done
    ensures Moved(data, mapping, done + {k}, Turn(r, k, mapping[k]))
  {
    assert k in r <==> k in data;
    assert k in r ==> r[k] == data[k];
    var r' := Turn(r, k, mapping[k]);
    forall j | j in r' && !(j in data && j !in done + {k} && r'[j] == data[j])
      ensures exists k' :: Present(data, mapping, k') && k' in done + {k} && mapping[k'] == j
    {
      if k in r && j == mapping[k] {
        assert Present(data, mapping, k);
      } else {
        var k' :| Present(data, mapping, k') && k' in done && mapping[k'] == j;
        assert k' in done + {k};
      }
    }
  }

  ghost predicate Renames<V>(data: map<string, V>, mapping: map<string, string>, order: seq<string>) {
    Known(order, mapping) && IsRenaming(data, mapping, Run(data, mapping, order))
  }

  lemma CleanRenames<V>(data: map<string, V>, mapping: map<string, string>, order: seq<string>)
    requires Clean(data, mapping) && Orders(order, mapping.Keys)
    ensures Renames(data, mapping, order)
  {
    forall i | 0 <= i < |order|
      ensures order[i] in mapping
    {
      InElements(order, i);
    }
    RunMoves(data, mapping, order);
  }

  lemma RenamesMeans<V>(data: map<string, V>, mapping: map<string, string>, order: seq<string>)
    requires Renames(data, mapping, order)
    ensures Known(order, mapping) && IsRenaming(data, mapping, Run(data, mapping, order))
  {
  }

  lemma LastIsGone<V>(data: map<string, V>, mapping: map<string, string>, order: seq<string>)
    requires Known(order, mapping) && order != []
    ensures order[|order| - 1] !in Run(data, mapping, order)
  {
  }

  /**
    Every order of the map gives the intended renaming if and only if no new name in use is a key of the
    mapping itself and keys that share a new name hold equal values.
   */
  lemma RenamesIff<V>(data: map<string, V>, mapping: map<string, string>)
    ensures (forall order | Orders(order, mapping.Keys) :: Renames(data, mapping, order)) <==> Clean(data, mapping)
  {
    if Clean(data, mapping) {
      forall order | Orders(order, mapping.Keys)
        ensures Renames(data, mapping, order)
      {
        CleanRenames(data, mapping, order);
      }
    } else if k :| Present(data, mapping, k) && mapping[k] in mapping {
      var order := OrderEnding(mapping.Keys, mapping[k]);
      LastIsGone(data, mapping, order);
    } else {
      var order := OrderOf(mapping.Keys);
    }
  }

  /** With such names the result does not depend on the order at all. */
  lemma OrderIrrelevant<V>(data: map<string, V>, mapping: map<string, string>, order: seq<string>, order': seq<string>)
    requires Clean(data, mapping) && Orders(order, mapping.Keys) && Orders(order', mapping.Keys)
    ensures Known(order, mapping) && Known(order', mapping)
    ensures Run(data, mapping, order) == Run(data, mapping, order')
  {
    CleanRenames(data, mapping, order);
    CleanRenames(data, mapping, order');
    RenamingUnique(data, mapping, Run(data, mapping, order), Run(data, mapping, order'));
  }
}
