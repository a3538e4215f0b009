/** The DNS subscriber: it turns answers into a host list and keeps the last good one. */
module Subscriber {
  import opened Weights
  import opened Seqs
  import opened Sorting
  import opened Srv

  /** What a lookup brings back. */
  datatype Lookup = Found(srvs: array<Record>) | LookupError

  /** The numbers below `|perm|`, each once. */
  ghost predicate IsPermutation(perm: seq<nat>) {
    && (forall k | 0 <= k < |perm| :: perm[k] < |perm|)
    && (forall j, k | 0 <= j < k < |perm| :: perm[j] != perm[k])
  }

  /** `rand.Perm`: some permutation. */
  method RandPerm(n: nat) returns (perm: seq<nat>)
    ensures |perm| == n && IsPermutation(perm)
  {
    perm := seq(n, k => k);
  }

  // ---- Shuffling keeps the multiset

  function Permuted<T>(s: seq<T>, perm: seq<nat>): (r: seq<T>)
    requires forall k | 0 <= k < |perm| :: perm[k] < |s|
    ensures |r| == |perm|
    ensures forall k | 0 <= k < |perm| :: r[k] == s[perm[k]]
  {
    seq(|perm|, k requires 0 <= k < |perm| => s[perm[k]])
  }

  /** Where a permutation sends its largest number. */
  lemma {:induction false} Surjective(perm: seq<nat>, x: nat)
    requires IsPermutation(perm) && x < |perm|
    ensures exists k | 0 <= k < |perm| :: perm[k] == x
    decreases |perm|
  {
    var n := |perm| - 1;
    if k :| 0 <= k <= n && perm[k] == n {
      // close the gap left by n
      var rest := perm[k := perm[n]][..n];
      assert IsPermutation(rest);
      if x < n { Surjective(rest, x); }
    } else {
      // n is missed, so the first n values already use up all numbers below n
      assert IsPermutation(perm[..n]);
      Surjective(perm[..n], perm[n]);
    }
  }

  /** Move the last element into slot `k` and drop the end: only the old element of slot `k` is lost. */
  lemma CloseGap<T>(r: seq<T>, k: nat)
    requires k < |r|
    ensures multiset(r[k := r[|r| - 1]][..|r| - 1]) + multiset{r[k]} == multiset(r)
  {
    var n := |r| - 1;
    var t := r[k := r[n]][n := r[k]];
    assert t == r[k := r[n]][..n] + [r[k]];
    assert multiset(t) == multiset(r);
  }

  /** Closing the gap that the largest number leaves gives a permutation of the rest. */
  lemma GapPermutation<T>(s: seq<T>, perm: seq<nat>, k: nat)
    requires IsPermutation(perm) && |perm| == |s| && k < |perm| && perm[k] == |perm| - 1
    ensures var n := |s| - 1;
            var rest := perm[k := perm[n]][..n];
            IsPermutation(rest) && Permuted(s[..n], rest) == Permuted(s, perm)[k := Permuted(s, perm)[n]][..n]
  {
    var n := |s| - 1;
    var rest := perm[k := perm[n]][..n];
    assert IsPermutation(rest);
    var r := Permuted(s, perm);
    assert Permuted(s[..n], rest) == r[k := r[n]][..n];
  }

  lemma {:induction false} PermutedMultiset<T>(s: seq<T>, perm: seq<nat>)
    requires IsPermutation(perm) && |perm| == |s|
    ensures multiset(Permuted(s, perm)) == multiset(s)
    decreases |s|
  {
    if s != [] {
      var n := |s| - 1;
      Surjective(perm, n);
      var k :| 0 <= k <= n && perm[k] == n;
      GapPermutation(s, perm, k);
      PermutedMultiset(s[..n], perm[k := perm[n]][..n]);
      CloseGap(Permuted(s, perm), k);
      assert s == s[..n] + [s[n]];
    }
  }

  /** A shuffled copy of the list. */
  method NewRandomFixedSubscriber(hosts: seq<string>) returns (res: seq<string>)
    ensures multiset(res) == multiset(hosts) && |res| == |hosts|
  {
    var perm := RandPerm(|hosts|);
    var copy := new string[|hosts|];
    var j := 0;
    for k := 0 to |perm|
      invariant j == k
      invariant forall i | 0 <= i < k :: copy[i] == hosts[perm[i]]
    {
      copy[j] := hosts[perm[k]];
      j := j + 1;
    }
    res := copy[..];
    assert res == Permuted(hosts, perm);
    PermutedMultiset(hosts, perm);
  }

  lemma LeadingStep(sorted: seq<Record>, i: nat, p: uint16)
    requires i < |sorted| && sorted[i].priority <= p
    requires Leading(sorted, p) == sorted[..i] + Leading(sorted[i..], p)
    ensures Leading(sorted, p) == sorted[..i + 1] + Leading(sorted[i + 1..], p)
  {
    TakeNext(sorted, i);
    var rest := Leading(sorted[i + 1..], p);
    assert Leading(sorted[i..], p) == [sorted[i]] + rest;
    hide Leading;
    Reassociate(sorted[..i], [sorted[i]], rest);
  }

  /** Weights and host names of the records used: the loop breaks at the first larger priority. */
  method TopRecords(scheme: string, srvs: array<Record>) returns (ws: seq<uint16>, host: seq<string>)
    ensures Nats(ws) == RawWeights(Top(srvs[..])) && host == Hosts(scheme, Top(srvs[..]))
  {
    ghost var sorted := srvs[..];
    ws, host := [], [];
    if srvs.Length == 0 {
      return;
    }
    ghost var p := sorted[0].priority;
    var i := 0;
    while i < srvs.Length
      invariant 0 <= i <= srvs.Length && |ws| == |host| == i
      invariant forall j | 0 <= j < i :: ws[j] == sorted[j].weight && host[j] == HostOf(scheme, sorted[j])
      invariant Leading(sorted, p) == sorted[..i] + Leading(sorted[i..], p)
    {
      var a := srvs[i];
      if a.priority > srvs[0].priority {
        break;
      }
      LeadingStep(sorted, i, p);
      ws := ws + [a.weight];
      host := host + [scheme + "://" + JoinHostPort(a.target, a.port as nat)];
      i := i + 1;
    }
    assert Leading(sorted[i..], p) == [];
    assert Top(sorted) == sorted[..i];
  }

  /**
    The host list for an answer. The answer is sorted in place: by priority, then heaviest first, then by target
    and port. The records that share the first one's priority are used, in that order, each host as often as
    its compacted weight says.
   */
  method Resolve(scheme: string, srvs: array<Record>) returns (instances: seq<string>, ghost weights: seq<nat>)
    requires srvs.Length <= MAX_SLICE
    modifies srvs
    ensures instances == Instances(scheme, old(srvs[..]))
    ensures multiset(srvs[..]) == old(multiset(srvs[..]))
    ensures forall j, k | 0 <= j < k < srvs.Length ::
              || srvs[j].priority < srvs[k].priority
              || (srvs[j].priority == srvs[k].priority && srvs[j].weight > srvs[k].weight)
              || (srvs[j].priority == srvs[k].priority && srvs[j].weight == srvs[k].weight
                  && StringLess(srvs[j].target, srvs[k].target))
              || (srvs[j].priority == srvs[k].priority && srvs[j].weight == srvs[k].weight
                  && srvs[j].target == srvs[k].target && srvs[j].port <= srvs[k].port)
    ensures |weights| <= srvs.Length
    ensures forall j | 0 <= j < srvs.Length ::
              if j < |weights| then srvs[j].priority == srvs[0].priority && srvs[j].weight as nat == weights[j]
              else srvs[j].priority > srvs[0].priority
    ensures |instances| == Sum(Compacted(weights))
    ensures var counts := Compacted(weights);
            forall i, at | 0 <= i < |weights| && Sum(counts[..i]) <= at < Sum(counts[..i]) + counts[i] ::
              at < |instances| && instances[at] == HostOf(scheme, srvs[i])
  {
    hide *;
    BeforeOrder();
    SortSlice(srvs, Before);
    ghost var sorted := srvs[..];
    OrderIrrelevant(scheme, old(srvs[..]), old(srvs[..]), srvs[..]);
    var ws, host := TopRecords(scheme, srvs);
    TopLength(srvs[..]);
    var raw := new uint16[|ws|];
    for k := 0 to |ws|
      invariant raw[..k] == ws[..k] && srvs[..] == sorted
    {
      raw[k] := ws[k];
    }
    assert raw[..] == ws && srvs[..] == sorted;
    instances := ExpandAll(host, raw);
    SortedFields(sorted);
    TopPrefix(sorted);
    weights := RawWeights(Top(sorted));
    InstancesAt(scheme, sorted, instances, weights, Compacted(weights));
  }

  lemma {:induction false} SumPart(counts: seq<nat>, i: nat)
    requires i < |counts|
    ensures Sum(counts[..i]) + counts[i] <= Sum(counts)
  {
    var n := |counts| - 1;
    if i < n {
      SumPart(counts[..n], i);
      assert counts[..n][..i] == counts[..i];
    }
  }

  /** The list, entry by entry. */
  lemma InstancesAt(scheme: string, sorted: seq<Record>, instances: seq<string>, weights: seq<nat>, counts: seq<nat>)
    requires Sorted(Before, sorted) && weights == RawWeights(Top(sorted)) && |counts| == |weights|
    requires instances == Expand(Hosts(scheme, Top(sorted)), counts)
    ensures |weights| <= |sorted| && |instances| == Sum(counts)
    ensures forall j | 0 <= j < |sorted| ::
              if j < |weights| then sorted[j].priority == sorted[0].priority && sorted[j].weight as nat == weights[j]
              else sorted[j].priority > sorted[0].priority
    ensures forall i, at | 0 <= i < |weights| && Sum(counts[..i]) <= at < Sum(counts[..i]) + counts[i] ::
              at < |instances| && instances[at] == HostOf(scheme, sorted[i])
  {
    hide Sorted, Before, Expand, Top, HostOf;
    TopPrefix(sorted);
    var items := Hosts(scheme, Top(sorted));
    ExpandLength(items, counts);
    forall i | 0 <= i < |weights|
      ensures Sum(counts[..i]) + counts[i] <= |instances|
    {
      SumPart(counts, i);
    }
    forall i, at | 0 <= i < |weights| && Sum(counts[..i]) <= at < Sum(counts[..i]) + counts[i]
      ensures instances[at] == HostOf(scheme, sorted[i])
    {
      ExpandAt(items, counts, i, at - Sum(counts[..i]));
    }
  }

  lemma {:induction false} LeadingLength(s: seq<Record>, p: uint16)
    ensures |Leading(s, p)| <= |s|
  {
    if s != [] { LeadingLength(s[1..], p); }
  }

  lemma TopLength(s: seq<Record>)
    ensures |Top(s)| <= |s|
  {
    if s != [] { LeadingLength(s, s[0].priority); }
  }

  method ExpandAll(host: seq<string>, ws: array<uint16>) returns (instances: seq<string>)
    requires |host| == ws.Length <= MAX_SLICE
    ensures instances == Expand(host, Compacted(Nats(ws[..])))
  {
    var times := Compact(ws);
    ghost var counts := Nats(times[..]);
    instances := [];
    for i := 0 to |host|
      invariant instances == Expand(host[..i], counts[..i])
    {
      ghost var before := instances;
      var j: uint16 := 0;
      while j < times[i]
        invariant j <= times[i]
        invariant instances == before + Repeat(host[i], j as nat)
      {
        instances := instances + [host[i]];
        j := j + 1;
      }
      assert host[..i + 1][..i] == host[..i] && counts[..i + 1][..i] == counts[..i];
    }
    assert host[..|host|] == host && counts[..|host|] == counts;
  }

  /** The subscriber proper; the mutex makes each method one step. */
  class DnsSubscriber {
    const scheme: string
    var cache: seq<string>

    constructor (scheme: string)
      ensures cache == [] && this.scheme == if scheme == "" then "http" else scheme
    {
      this.scheme := if scheme == "" then "http" else scheme;
      cache := [];
    }

    /** A failed lookup keeps the old list; long lists are shuffled. */
    method Update(lookup: Lookup)
      requires lookup.Found? ==> lookup.srvs.Length <= MAX_SLICE
      modifies this, if lookup.Found? then {lookup.srvs} else {}
      ensures lookup.LookupError? ==> cache == old(cache)
      ensures lookup.Found? ==>
                var instances := Instances(scheme, old(lookup.srvs[..]));
                && multiset(cache) == multiset(instances) && |cache| == |instances|
                && (|instances| <= 100 ==> cache == instances)
    {
      match lookup
      case LookupError =>
      case Found(srvs) =>
        var instances, _ := Resolve(scheme, srvs);
        if |instances| > 100 {
          cache := NewRandomFixedSubscriber(instances);
        } else {
          cache := instances;
        }
    }

    /** A copy: what the caller does with it leaves the cache alone. */
    method Hosts() returns (res: array<string>)
      ensures fresh(res) && res[..] == cache
    {
      res := new string[|cache|];
      for i := 0 to |cache|
        invariant res[..i] == cache[..i]
      {
        res[i] := cache[i];
      }
    }
  }
}
