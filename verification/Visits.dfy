/** Go visits the keys of a map each once, in an order it leaves open. */
module Visits {
  import opened Seqs

  function Elements(s: seq<string>): set<string> {
    set i | 0 <= i < |s| :: s[i]
  }

  lemma ElementsSnoc(s: seq<string>, x: string)
    ensures Elements(s + [x]) == Elements(s) + {x}
  {
    var t := s + [x];
    forall y | y in Elements(s)
      ensures y in Elements(t)
    {
      var i :| 0 <= i < |s| && s[i] == y;
      assert t[i] == y;
    }
    assert t[|s|] == x;
  }

  lemma InElements(s: seq<string>, i: nat)
    requires i < |s|
    ensures s[i] in Elements(s)
  {
  }

  /** The keys, each once, in some order. */
  predicate Orders(order: seq<string>, keys: set<string>) {
    && Distinct(order)
    && Elements(order) == keys
  }

  lemma OrdersSnoc(order: seq<string>, keys: set<string>, k: string)
    requires Orders(order, keys) && k !in keys
    ensures Orders(order + [k], keys + {k})
  {
    ElementsSnoc(order, k);
    forall i | 0 <= i < |order|
      ensures order[i] != k
    {
      InElements(order, i);
    }
  }

  lemma {:induction false} OrderOf(keys: set<string>) returns (order: seq<string>)
    ensures Orders(order, keys)
    decreases keys
  {
    order := [];
    if k :| k in keys {
      order := OrderOf(keys - {k});
      OrdersSnoc(order, keys - {k}, k);
      order := order + [k];
      assert keys - {k} + {k} == keys;
    }
  }

  /** Some order visits a given key last. */
  lemma OrderEnding(keys: set<string>, last: string) returns (order: seq<string>)
    requires last in keys
    ensures Orders(order, keys) && order != [] && order[|order| - 1] == last
  {
    var before := OrderOf(keys - {last});
    OrdersSnoc(before, keys - {last}, last);
    order := before + [last];
    assert keys - {last} + {last} == keys;
  }

  /** Some order visits two given keys last. */
  lemma OrderEndingWith(keys: set<string>, last: string, final: string) returns (order: seq<string>)
    requires last in keys && final in keys && last != final
    ensures Orders(order, keys) && |order| >= 2 && order[|order| - 2] == last && order[|order| - 1] == final
  {
    var before := OrderEnding(keys - {final}, last);
    OrdersSnoc(before, keys - {final}, final);
    order := before + [final];
    assert keys - {final} + {final} == keys;
  }
}
