/** The parallel collector as code: a loop that feeds what the two channels bring to the accumulator. */
module ParallelCollector {
  import opened Wrappers
  import Merging
  import opened MergeAccumulator
  import P = ParallelMerge

  /** One message: from the channel of responses or from the channel of errors. */
  datatype Arrival = FromParts(response: Response) | FromFailed(error: Merging.Error)

  function Delivered(a: Arrival): Response? {
    if a.FromParts? then a.response else null
  }

  function Responses(arrivals: seq<Arrival>): (rs: seq<Response?>)
    ensures |rs| == |arrivals|
    ensures forall i | 0 <= i < |arrivals| :: rs[i] == Delivered(arrivals[i])
  {
    seq(|arrivals|, i requires 0 <= i < |arrivals| => Delivered(arrivals[i]))
  }

  ghost function OutcomeOf(a: Arrival): Merging.Outcome
    reads Delivered(a), if a.FromParts? then a.response.data else null
  {
    match a
    case FromParts(r) => Merging.Got(r.View())
    case FromFailed(e) => Merging.Failed(e)
  }

  ghost function OutcomesOf(arrivals: seq<Arrival>): (os: seq<Merging.Outcome>)
    reads Responses(arrivals), Maps(Responses(arrivals))
    ensures |os| == |arrivals|
    ensures forall i | 0 <= i < |arrivals| :: os[i] == OutcomeOf(arrivals[i])
  {
    seq(|arrivals|, i requires 0 <= i < |arrivals| reads Responses(arrivals), Maps(Responses(arrivals)) =>
      assert Responses(arrivals)[i] in Responses(arrivals);
      OutcomeOf(arrivals[i]))
  }

  /** The accumulator holds nothing of what is still to come. */
  ghost predicate Clear(acc: Accumulator, rs: seq<Response?>, k: nat)
    reads acc
  {
    forall j | k <= j < |rs| && rs[j] != null ::
      rs[j] != acc.data && (acc.Grown() != null ==> rs[j].data != acc.Grown())
  }

  /** One round: the message goes into the accumulator, and nothing still to come is touched. */
  method Round(acc: Accumulator, arrivals: seq<Arrival>, k: nat)
    requires k < |arrivals| && Separate(Responses(arrivals)) && Clear(acc, Responses(arrivals), k)
    modifies acc, acc.data, Delivered(arrivals[k]), acc.Grown()
    modifies if arrivals[k].FromParts? then arrivals[k].response.data else null
    ensures acc.View() == Merging.Step(old(acc.View()), old(OutcomeOf(arrivals[k])))
    ensures Clear(acc, Responses(arrivals), k + 1)
    ensures forall j | k < j < |arrivals| :: OutcomeOf(arrivals[j]) == old(OutcomeOf(arrivals[j]))
    ensures acc.data == old(acc.data) || acc.data == Delivered(arrivals[k]) || fresh(acc.data)
    ensures acc.Grown() == old(acc.Grown()) || fresh(acc.Grown()) ||
            (arrivals[k].FromParts? && acc.Grown() == arrivals[k].response.data)
  {
    match arrivals[k]
    case FromFailed(err) => acc.Merge(null, Some(err));
    case FromParts(response) => acc.Merge(response, None);
  }

  /** As many rounds as calls were made. The result is the merge of what the messages brought, in their order. */
  method Collect(arrivals: seq<Arrival>) returns (result: Response?, errs: seq<Merging.Error>)
    requires Separate(Responses(arrivals))
    modifies Responses(arrivals), Maps(Responses(arrivals))
    ensures Merging.Merged(ViewOf(result), errs) == Merging.MergeAll(|arrivals|, old(OutcomesOf(arrivals)))
  {
    ghost var os, rs := OutcomesOf(arrivals), Responses(arrivals);
    ghost var given := Objects(rs) + Maps(rs);
    var acc := new Accumulator(|arrivals|);
    FoldNothing(|arrivals|, os);
    hide Clear, Accumulator.View, Accumulator.Grown, OutcomeOf, OutcomesOf;
    for k := 0 to |arrivals|
      invariant acc.View() == Merging.Fold(Merging.Fresh(|arrivals|), os[..k])
      invariant forall j | k <= j < |arrivals| :: OutcomeOf(arrivals[j]) == os[j]
      invariant Clear(acc, rs, k)
      invariant acc.data == null || acc.data in given || fresh(acc.data)
      invariant acc.Grown() == null || acc.Grown() in given || fresh(acc.Grown())
    {
      if arrivals[k].FromParts? { InGiven(arrivals, k); }
      FoldNext(|arrivals|, os, k);
      Round(acc, arrivals, k);
    }
    assert os[..|arrivals|] == os;
    result, errs := acc.Result();
  }

  /**
    The loop and the step machine agree: fed with the messages of a finished run in the order that run merged
    them, the loop returns that run's result.
   */
  method CollectRun(arrivals: seq<Arrival>, ghost rejects: seq<bool>, ghost run: seq<P.State>, ghost i: nat)
    returns (result: Response?, errs: seq<Merging.Error>)
    requires P.IsRun(rejects, run) && i < |run| && run[i].main.Finished?
    requires OutcomesOf(arrivals) == P.Arrived(rejects, run, i)
    requires Separate(Responses(arrivals))
    modifies Responses(arrivals), Maps(Responses(arrivals))
    ensures Merging.Merged(ViewOf(result), errs) == run[i].main.result
  {
    hide P.IsRun, P.Arrived, Merging.MergeAll;
    P.ResultOfArrived(rejects, run, i);
    result, errs := Collect(arrivals);
  }

  ghost function Objects(rs: seq<Response?>): (objects: set<object>) {
    set r: Response? | r in rs && r != null :: r
  }

  lemma InGiven(arrivals: seq<Arrival>, k: nat)
    requires k < |arrivals| && arrivals[k].FromParts?
    ensures arrivals[k].response in Objects(Responses(arrivals))
    ensures arrivals[k].response.data != null ==> arrivals[k].response.data in Maps(Responses(arrivals))
  {
    assert Responses(arrivals)[k] in Responses(arrivals);
  }

  lemma FoldNothing(n: nat, os: seq<Merging.Outcome>)
    ensures Merging.Fold(Merging.Fresh(n), os[..0]) == Merging.Fresh(n)
  {
  }

  lemma FoldNext(n: nat, os: seq<Merging.Outcome>, k: nat)
    requires k < |os|
    ensures Merging.Fold(Merging.Fresh(n), os[..k + 1])
         == Merging.Step(Merging.Fold(Merging.Fresh(n), os[..k]), os[k])
  {
    assert os[..k + 1][..k] == os[..k];
  }
}
