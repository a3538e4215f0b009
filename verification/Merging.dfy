/**
  What merging backend responses means, on values: the batch combiner, the incremental accumulator as a
  fold over the arriving outcomes, and the laws that tie them together for every arrival order.
 */
module Merging {
  import opened Wrappers
  import opened Json

  datatype Error = NullResult | Cause(message: string)

  /** `data` is None for a nil map. */
  datatype Response = Response(data: Option<Fields>, complete: bool)

  /** A raw body: what is left to read, and whether reading to the end brings an error. */
  datatype Body = Body(unread: string, fails: bool) {
    function Drained(): Body {
      this.(unread := "")
    }
  }

  /** The arguments of one call to `Merge`: a response, an error, or neither. */
  datatype Outcome = Got(response: Response) | Failed(error: Error) | Missing

  /** A response that does not spoil a merge: data present and flagged complete. */
  predicate Good(part: Option<Response>) {
    part.Some? && part.value.data.Some? && part.value.complete
  }

  function DataOf(part: Option<Response>): Fields {
    if part.Some? && part.value.data.Some? then part.value.data.value else map[]
  }

  // ---- The batch form

  /** All data in list order; a later part overrides an earlier one. */
  function Union(parts: seq<Option<Response>>): Fields {
    if parts == [] then map[] else Union(parts[..|parts| - 1]) + DataOf(parts[|parts| - 1])
  }

  predicate AllGood(parts: seq<Option<Response>>) {
    forall part <- parts :: Good(part)
  }

  /** The default combiner applied to all parts at once. */
  function Combine(total: int, parts: seq<Option<Response>>): Response {
    Response(Some(Union(parts)), |parts| == total && AllGood(parts))
  }

  // ---- The incremental form

  datatype Accumulator = Accumulator(pending: int, data: Option<Response>, errs: seq<Error>)

  function Fresh(total: int): Accumulator {
    Accumulator(total, None, [])
  }

  function Step(a: Accumulator, o: Outcome): Accumulator {
    match o
    case Failed(e) =>
      Accumulator(a.pending - 1,
                  if a.data.None? then None else Some(a.data.value.(complete := false)),
                  a.errs + [e])
    case Missing => a.(pending := a.pending - 1, errs := a.errs + [NullResult])
    case Got(r) =>
      a.(pending := a.pending - 1,
         data := if a.data.None? then Some(r) else Some(Combine(2, [a.data, Some(r)])))
  }

  datatype Merged = Merged(response: Option<Response>, errs: seq<Error>)

  function Result(a: Accumulator): Merged {
    if a.data.None? then Merged(None, a.errs)
    else if a.pending > 0 || a.errs != [] then Merged(Some(a.data.value.(complete := false)), a.errs)
    else Merged(a.data, a.errs)
  }

  function Fold(a: Accumulator, outcomes: seq<Outcome>): Accumulator {
    if outcomes == [] then a else Step(Fold(a, outcomes[..|outcomes| - 1]), outcomes[|outcomes| - 1])
  }

  /** What a caller that starts with `total` pending parts gets after feeding all outcomes in order. */
  function MergeAll(total: int, outcomes: seq<Outcome>): Merged {
    Result(Fold(Fresh(total), outcomes))
  }

  lemma FoldSnoc(a: Accumulator, xs: seq<Outcome>, x: Outcome)
    ensures Fold(a, xs + [x]) == Step(Fold(a, xs), x)
  {
    assert (xs + [x])[..|xs|] == xs;
  }

  // ---- Vocabulary for the laws

  function Successes(outcomes: seq<Outcome>): (ok: seq<Option<Response>>)
    ensures forall part <- ok :: part.Some?
  {
    if outcomes == [] then []
    else
      var last := outcomes[|outcomes| - 1];
      Successes(outcomes[..|outcomes| - 1]) + if last.Got? then [Some(last.response)] else []
  }

  function Errors(outcomes: seq<Outcome>): seq<Error> {
    if outcomes == [] then []
    else
      var last := outcomes[|outcomes| - 1];
      Errors(outcomes[..|outcomes| - 1]) +
      match last {
        case Got(_) => []
        case Failed(e) => [e]
        case Missing => [NullResult]
      }
  }

  /** Number of responses merged. */
  function Merges(outcomes: seq<Outcome>): nat {
    |Successes(outcomes)|
  }

  lemma {:induction false} Accounting(outcomes: seq<Outcome>)
    ensures |Successes(outcomes)| + |Errors(outcomes)| == |outcomes|
  {
    if outcomes != [] { Accounting(outcomes[..|outcomes| - 1]); }
  }

  lemma UnionSnoc(parts: seq<Option<Response>>, part: Option<Response>)
    ensures Union(parts + [part]) == Union(parts) + DataOf(part)
  {
    assert (parts + [part])[..|parts|] == parts;
  }

  /** One pairwise combination, as the accumulator performs it. */
  lemma CombinePair(a: Option<Response>, b: Option<Response>)
    ensures Combine(2, [a, b]) == Response(Some(DataOf(a) + DataOf(b)), Good(a) && Good(b))
  {
    UnionSnoc([], a);
    UnionSnoc([a], b);
    assert [] + [a] == [a] && [a] + [b] == [a, b];
    assert Union([a, b]) == map[] + DataOf(a) + DataOf(b) == DataOf(a) + DataOf(b);
    assert AllGood([a, b]) <==> Good([a, b][0]) && Good([a, b][1]);
  }

  /** What the accumulator holds after the responses `ok` and the errors `errs`. */
  predicate Holds(data: Option<Response>, ok: seq<Option<Response>>, errs: seq<Error>) {
    && (data.None? <==> ok == [])
    && (data.Some? ==> DataOf(data) == Union(ok))
    && (|ok| == 1 && data.Some? && ok[0].Some? ==> data.value.data == ok[0].value.data)
    && (|ok| >= 2 && data.Some? ==> data.value.data.Some?)
    && (|ok| == 1 && errs == [] ==> data == ok[0])
    && (|ok| >= 2 && errs == [] ==> (Good(data) <==> AllGood(ok)))
  }

  lemma HoldsStep(data: Option<Response>, ok: seq<Option<Response>>, errs: seq<Error>, r: Response)
    requires Holds(data, ok, errs) && data.Some?
    ensures Holds(Some(Combine(2, [data, Some(r)])), ok + [Some(r)], errs)
  {
    CombinePair(data, Some(r));
    UnionSnoc(ok, Some(r));
    if |ok| == 1 { assert AllGood(ok) <==> Good(ok[0]); }
    assert AllGood(ok + [Some(r)]) <==> AllGood(ok) && Good(Some(r));
  }

  /** The accumulator after any prefix of arrivals, in terms of the batch vocabulary. */
  lemma {:induction false} FoldInvariant(total: int, outcomes: seq<Outcome>)
    ensures var a := Fold(Fresh(total), outcomes);
            && a.pending == total - |outcomes|
            && a.errs == Errors(outcomes)
            && Holds(a.data, Successes(outcomes), a.errs)
  {
    if outcomes != [] {
      var before, last := outcomes[..|outcomes| - 1], outcomes[|outcomes| - 1];
      FoldInvariant(total, before);
      var a, ok := Fold(Fresh(total), before), Successes(before);
      match last
      case Got(r) =>
        if ok == [] { UnionSnoc([], Some(r)); assert [] + [Some(r)] == [Some(r)]; }
        else { HoldsStep(a.data, ok, a.errs, r); }
      case Failed(_) => assert Successes(outcomes) == ok;
      case Missing => assert Successes(outcomes) == ok;
    }
  }

  // ---- The laws

  /**
    Pairwise merging in arrival order computes what one batch call over the successful responses would.
    `total` may exceed the number of outcomes: the sequential merger stops early.
   */
  lemma IncrementalRefinesBatch(total: int, outcomes: seq<Outcome>)
    requires |outcomes| <= total
    requires Merges(outcomes) >= 2
    ensures MergeAll(total, outcomes)
         == Merged(Some(Combine(total, Successes(outcomes))), Errors(outcomes))
  {
    FoldInvariant(total, outcomes);
    Accounting(outcomes);
  }

  /** The two cases the batch form does not cover. */
  lemma FewResponses(total: int, outcomes: seq<Outcome>)
    requires |outcomes| <= total
    requires Merges(outcomes) < 2
    ensures MergeAll(total, outcomes).errs == Errors(outcomes)
    ensures Merges(outcomes) == 0 ==> MergeAll(total, outcomes).response == None
    ensures Merges(outcomes) == 1 ==>
              var only := Successes(outcomes)[0].value;
              MergeAll(total, outcomes).response
              == Some(Response(only.data, only.complete && |outcomes| == 1 == total))
  {
    hide Union, AllGood, Fold, Errors, Successes;
    FoldInvariant(total, outcomes);
    Accounting(outcomes);
  }

  /** Why a merge may be flagged complete, in terms of the outcomes alone. */
  predicate Clean(outcomes: seq<Outcome>) {
    && (forall o <- outcomes :: o.Got? && o.response.complete)
    && (|outcomes| >= 2 ==> forall o <- outcomes :: o.Got? ==> o.response.data.Some?)
  }

  lemma {:induction false} CleanSuccesses(outcomes: seq<Outcome>)
    ensures (forall o <- outcomes :: o.Got?) <==> |Successes(outcomes)| == |outcomes|
    ensures (forall o <- outcomes :: o.Got?) ==>
              forall i | 0 <= i < |outcomes| :: i < |Successes(outcomes)| && Successes(outcomes)[i] == Some(outcomes[i].response)
  {
    if outcomes != [] {
      var n := |outcomes| - 1;
      CleanSuccesses(outcomes[..n]);
      Accounting(outcomes[..n]);
      assert outcomes == outcomes[..n] + [outcomes[n]];
      assert outcomes[n] in outcomes;
    }
  }

  /** A merged response is complete exactly when every part arrived, complete and (if several) with data. */
  lemma CompleteIff(total: int, outcomes: seq<Outcome>)
    requires |outcomes| <= total
    requires MergeAll(total, outcomes).response.Some?
    ensures MergeAll(total, outcomes).response.value.complete <==> |outcomes| == total && Clean(outcomes)
  {
    CleanSuccesses(outcomes);
    Accounting(outcomes);
    var ok := Successes(outcomes);
    if Merges(outcomes) >= 2 {
      IncrementalRefinesBatch(total, outcomes);
      if |ok| == |outcomes| {
        assert AllGood(ok) <==> forall i | 0 <= i < |outcomes| :: Good(ok[i]);
        assert Clean(outcomes) <==> forall i | 0 <= i < |outcomes| :: Good(ok[i]);
      }
    } else {
      FewResponses(total, outcomes);
    }
  }
}
