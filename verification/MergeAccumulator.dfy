/**
  The merging code itself, on the heap. A Go map is a reference: combining grows the first
  non-nil map in place, so whoever else holds that map sees it grow.
 */
module MergeAccumulator {
  import opened Wrappers
  import opened Json
  import Merging

  class DataMap {
    var entries: Fields

    constructor (entries: Fields)
      ensures this.entries == entries
    {
      this.entries := entries;
    }
  }

  /**
    `data` is never reassigned by the merging code, only the map it refers to is. `io` is the raw
    body, None for a nil reader.
   */
  class Response {
    const data: DataMap?
    var isComplete: bool
    var io: Option<Merging.Body>

    constructor (data: DataMap?, isComplete: bool)
      ensures this.data == data && this.isComplete == isComplete && this.io == None
    {
      this.data, this.isComplete, this.io := data, isComplete, None;
    }

    ghost function View(): Merging.Response
      reads this, this.data
    {
      Merging.Response(if data == null then None else Some(data.entries), isComplete)
    }
  }

  ghost function ViewOf(part: Response?): Option<Merging.Response>
    reads part, if part == null then null else part.data
  {
    if part == null then None else Some(part.View())
  }

  /** Different responses, each with a map of its own. */
  ghost predicate Separate(all: seq<Response?>) {
    forall j, k | 0 <= j < k < |all| && all[j] != null && all[k] != null ::
      all[j] != all[k] && (all[j].data != null ==> all[j].data != all[k].data)
  }

  /** The maps the parts refer to. */
  ghost function Maps(parts: seq<Response?>): set<DataMap> {
    set p | p in parts && p != null && p.data != null :: p.data
  }

  ghost function Views(parts: seq<Response?>): (views: seq<Option<Merging.Response>>)
    reads parts, Maps(parts)
    ensures |views| == |parts|
    ensures forall i | 0 <= i < |parts| :: views[i] == ViewOf(parts[i])
  {
    if parts == [] then []
    else
      assert parts[|parts| - 1] in parts;
      assert forall p <- parts[..|parts| - 1] :: p in parts;
      Views(parts[..|parts| - 1]) + [ViewOf(parts[|parts| - 1])]
  }

  /** The map that a combination grows: the first one that is not nil. */
  ghost function Owner(parts: seq<Response?>): DataMap? {
    if parts == [] then null
    else if parts[0] != null && parts[0].data != null then parts[0].data
    else Owner(parts[1..])
  }

  /** `for k, v := range src { dst[k] = v }`, in whatever order the keys come. */
  method CopyInto(src: DataMap, dst: DataMap)
    modifies dst
    ensures dst.entries == old(dst.entries) + old(src.entries)
  {
    var todo := src.entries.Keys;
    while todo != {}
      invariant todo <= src.entries.Keys
      invariant src.entries == old(src.entries)
      invariant dst.entries.Keys == old(dst.entries.Keys) + (old(src.entries.Keys) - todo)
      invariant forall k | k in dst.entries ::
        dst.entries[k] == if k in old(src.entries) && k !in todo then old(src.entries)[k] else old(dst.entries)[k]
    {
      var k :| k in todo;
      if src == dst { assert dst.entries[k] == old(src.entries)[k]; assert dst.entries[k := src.entries[k]] == dst.entries; }
      dst.entries := dst.entries[k := src.entries[k]];
      todo := todo - {k};
    }
  }

  lemma OwnerIs(parts: seq<Response?>, i: nat)
    requires i < |parts| && parts[i] != null && parts[i].data != null
    requires forall j | 0 <= j < i :: parts[j] == null || parts[j].data == null
    ensures Owner(parts) == parts[i].data
  {
    if i > 0 { OwnerIs(parts[1..], i - 1); }
  }

  lemma BeforeOwner(parts: seq<Response?>, j: nat, i: nat)
    requires i < j < |parts| && parts[j] != null && parts[j].data != null && parts[j].data == Owner(parts)
    requires forall i', j' | 0 <= i' < j' < |parts| && parts[i'] != null && parts[j'] != null && parts[i'].data != null ::
               parts[i'].data != parts[j'].data
    ensures parts[i] == null || parts[i].data == null
  {
    if i > 0 { BeforeOwner(parts[1..], j - 1, i - 1); }
  }

  lemma NoOwner(parts: seq<Response?>)
    requires forall j | 0 <= j < |parts| :: parts[j] == null || parts[j].data == null
    ensures Owner(parts) == null
  {
  }

  /** Which parts hold the map that is grown. */
  ghost function Holders(parts: seq<Response?>): (flags: seq<bool>)
    ensures |flags| == |parts|
    ensures forall i | 0 <= i < |parts| ::
              flags[i] <==> parts[i] != null && parts[i].data != null && parts[i].data == Owner(parts)
  {
    seq(|parts|, i requires 0 <= i < |parts| =>
      parts[i] != null && parts[i].data != null && parts[i].data == Owner(parts))
  }

  /** Whether the map is among the first `i` parts. */
  predicate Seen(flags: seq<bool>, i: nat)
    requires i <= |flags|
  {
    i > 0 && (flags[i - 1] || Seen(flags, i - 1))
  }

  /** The grown map after the first `i` parts: copying the map onto itself changes nothing. */
  function Gather(views: seq<Option<Merging.Response>>, flags: seq<bool>, i: nat): Fields
    requires i <= |views| == |flags|
  {
    if i == 0 then map[]
    else if flags[i - 1] && Seen(flags, i - 1) then Gather(views, flags, i - 1)
    else Gather(views, flags, i - 1) + Merging.DataOf(views[i - 1])
  }

  /**
    The grown map does not come back after another map with data. Always so for two parts, and for
    parts that do not share maps.
   */
  predicate StaysFirst(views: seq<Option<Merging.Response>>, flags: seq<bool>)
    requires |views| == |flags|
  {
    forall i, j | 0 <= i < j < |views| && flags[j] ::
      if flags[i] then Merging.DataOf(views[i]) == Merging.DataOf(views[j]) else Merging.DataOf(views[i]) == map[]
  }

  lemma {:induction false} GatherIsUnion(views: seq<Option<Merging.Response>>, flags: seq<bool>, i: nat)
    requires i <= |views| == |flags| && StaysFirst(views, flags)
    ensures Gather(views, flags, i) == Merging.Union(views[..i])
    ensures forall j | i <= j < |views| && flags[j] ::
              Merging.Union(views[..i]) == if Seen(flags, i) then Merging.DataOf(views[j]) else map[]
  {
    if i > 0 {
      GatherIsUnion(views, flags, i - 1);
      assert views[..i] == views[..i - 1] + [views[i - 1]];
      Merging.UnionSnoc(views[..i - 1], views[i - 1]);
    }
  }

  /** The default combiner. The parts themselves are not touched, only the first map is. */
  method CombineData(total: int, parts: seq<Response?>) returns (ret: Response)
    modifies Owner(parts)
    ensures fresh(ret) && ret.data != null && ret.io == None
    ensures if Owner(parts) == null then fresh(ret.data) else ret.data == Owner(parts)
    ensures ret.isComplete == old(Merging.Combine(total, Views(parts))).complete
    ensures ret.data.entries == Gather(old(Views(parts)), Holders(parts), |parts|)
  {
    hide Merging.Union, StaysFirst, Views, Owner;
    ghost var views, flags, owner := Views(parts), Holders(parts), Owner(parts);
    ghost var e := if owner == null then map[] else owner.entries;
    var isComplete := |parts| == total;
    var retResponse: Response? := null;
    for i := 0 to |parts|
      invariant retResponse == null <==> !Seen(flags, i)
      invariant retResponse == null ==>
        && (owner == null || owner.entries == e)
        && Gather(views, flags, i) == map[]
        && forall j | 0 <= j < i :: parts[j] == null || parts[j].data == null
      invariant retResponse != null ==>
        && fresh(retResponse) && retResponse.data == owner && retResponse.io == None
        && owner != null && owner.entries == Gather(views, flags, i)
      invariant isComplete <==> |parts| == total && forall j | 0 <= j < i :: Merging.Good(views[j])
    {
      var part := parts[i];
      if part == null || part.data == null {
        isComplete := false;
      } else {
        isComplete := isComplete && part.isComplete;
        if retResponse == null {
          OwnerIs(parts, i);
          retResponse := new Response(part.data, isComplete);
        } else {
          CopyInto(part.data, retResponse.data);
        }
      }
    }
    if retResponse == null {
      NoOwner(parts);
      var data := new DataMap(map[]);
      ret := new Response(data, isComplete);
    } else {
      retResponse.isComplete := isComplete;
      ret := retResponse;
    }
  }

  /** So, while the owner stays first, the combiner computes the union of what the parts held. */
  lemma CombinesToUnion(parts: seq<Response?>)
    ensures StaysFirst(Views(parts), Holders(parts)) ==>
              Gather(Views(parts), Holders(parts), |parts|) == Merging.Union(Views(parts))
  {
    if StaysFirst(Views(parts), Holders(parts)) {
      GatherIsUnion(Views(parts), Holders(parts), |parts|);
      assert Views(parts)[..|parts|] == Views(parts);
    }
  }

  /** Parts that do not share maps never bring the owner back. */
  lemma UnsharedStaysFirst(parts: seq<Response?>)
    requires forall i, j | 0 <= i < j < |parts| && parts[i] != null && parts[j] != null && parts[i].data != null ::
               parts[i].data != parts[j].data
    ensures StaysFirst(Views(parts), Holders(parts))
  {
    forall i, j | 0 <= i < j < |parts| && Holders(parts)[j]
      ensures !Holders(parts)[i] && Merging.DataOf(Views(parts)[i]) == map[]
    {
      BeforeOwner(parts, j, i);
    }
  }

  ghost function FirstMap(a: Response?, b: Response?): DataMap? {
    if a != null && a.data != null then a.data else if b == null then null else b.data
  }

  lemma OwnerOfTwo(parts: seq<Response?>)
    requires |parts| == 2
    ensures Owner(parts) == FirstMap(parts[0], parts[1])
  {
    assert parts[1..] == [parts[1]] && parts[1..][1..] == [];
    assert Owner(parts[1..]) == FirstMap(null, parts[1]);
  }

  /** What combining two parts does, whether or not they share a map. */
  lemma TwoParts(parts: seq<Response?>)
    requires |parts| == 2
    ensures var a, b := ViewOf(parts[0]), ViewOf(parts[1]);
            && Gather(Views(parts), Holders(parts), 2) == Merging.DataOf(a) + Merging.DataOf(b)
            && Merging.Combine(2, Views(parts)) == Merging.Combine(2, [a, b])
  {
    var views, flags := Views(parts), Holders(parts);
    OwnerOfTwo(parts);
    assert views == [ViewOf(parts[0]), ViewOf(parts[1])];
    assert !Seen(flags, 0) && Gather(views, flags, 1) == Merging.DataOf(views[0]);
    assert Seen(flags, 1) <==> flags[0];
    if flags[0] && flags[1] { assert Merging.DataOf(views[0]) == Merging.DataOf(views[1]); }
  }

  class Accumulator {
    var pending: int
    var data: Response?
    var errs: seq<Merging.Error>

    constructor (total: int)
      ensures View() == Merging.Fresh(total) && data == null
    {
      pending, data, errs := total, null, [];
    }

    ghost function View(): Merging.Accumulator
      reads this, data, if data == null then null else data.data
    {
      Merging.Accumulator(pending, ViewOf(data), errs)
    }

    /** The map the accumulator holds on to, and may grow. */
    ghost function Grown(): DataMap?
      reads this
    {
      if data == null then null else data.data
    }

    method Merge(res: Response?, err: Option<Merging.Error>)
      modifies this, (if data == null then {} else {data})`isComplete, if data == null then null else FirstMap(data, res)
      ensures View() == Merging.Step(old(View()), old(Arrival(res, err)))
      ensures pending == old(pending) - 1
      ensures err.Some? && data != null ==> !data.isComplete
      ensures errs == old(errs) + if err.Some? then [err.value] else if res == null then [Merging.NullResult] else []
      ensures if res == null || err.Some? || old(Grown()) != null then Grown() == old(Grown())
              else if res.data != null || old(data) == null then Grown() == res.data
              else fresh(Grown())
      ensures if res == null || err.Some? then data == old(data)
              else data == res || (data != null && fresh(data))
      ensures old(Grown()) == null && res != null && res.data != null ==> res.data.entries == old(res.data.entries)
    {
      hide Gather, Holders, Views, Owner, Merging.Union, Merging.AllGood;
      pending := pending - 1;
      if err.Some? {
        errs := errs + [err.value];
        if data != null {
          data.isComplete := false;
        }
        return;
      }
      if res == null {
        errs := errs + [Merging.NullResult];
        return;
      }
      if data == null {
        data := res;
        return;
      }
      ghost var a, b := data.View(), res.View();
      OwnerOfTwo([data, res]);
      TwoParts([data, res]);
      Merging.CombinePair(Some(a), Some(b));
      data := CombineData(2, [data, res]);
      assert data.View() == Merging.Combine(2, [Some(a), Some(b)]);
    }

    method Result() returns (res: Response?, err: seq<Merging.Error>)
      modifies (if data == null then {} else {data})`isComplete
      ensures res == data && err == errs
      ensures Merging.Merged(ViewOf(res), err) == Merging.Result(old(View()))
    {
      if data == null {
        return null, errs;
      }
      if pending > 0 || |errs| > 0 {
        data.isComplete := false;
      }
      return data, errs;
    }
  }

  /** One pair of arguments of `Merge`, as an outcome; a non-nil error hides the response. */
  ghost function Arrival(res: Response?, err: Option<Merging.Error>): Merging.Outcome
    reads res, if res == null then null else res.data
  {
    if err.Some? then Merging.Failed(err.value)
    else if res == null then Merging.Missing
    else Merging.Got(res.View())
  }
}
