/**
  The registry of the sequential merger: what a parameter taken from an earlier response is worth, given
  that the accumulator grows one of the very maps the parameters are read from.
 */
module Registry {
  import opened Wrappers
  import opened Json
  import Paths
  import opened Merging
  import opened Sequential

  // ---- Write once

  /** Non-empty entries stay as they are. */
  predicate Keeps(before: map<string, string>, after: map<string, string>) {
    forall d | d in before && before[d] != "" :: d in after && after[d] == before[d]
  }

  lemma {:induction false} UseAllKeeps(print_: Value -> string, s: State, refs: seq<Reference>)
    ensures Keeps(s.registry, UseAll(print_, s, refs).registry)
  {
    if refs != [] { UseAllKeeps(print_, s, refs[..|refs| - 1]); }
  }

  lemma TurnKeeps(c: Config, e: Exec, reply: Reply)
    ensures Keeps(e.state.registry, Turn(c, e, reply).state.registry)
  {
    var i := |e.trace|;
    if i > 0 && i < |c.refs| { UseAllKeeps(c.print_, e.state, c.refs[i]); }
  }

  /** Throughout a run, a non-empty registry entry never changes. */
  lemma {:induction false} WriteOnce(c: Config, params: Params, replies: seq<Reply>, k: nat, k': nat)
    requires k <= k' <= |replies|
    ensures Keeps(After(c, params, replies, k).state.registry, After(c, params, replies, k').state.registry)
  {
    hide Turn, Start;
    if k < k' {
      WriteOnce(c, params, replies, k, k' - 1);
      var e := After(c, params, replies, k' - 1);
      if !e.stopped { TurnKeeps(c, e, replies[k' - 1]); }
    }
  }

  // ---- What an earlier response shows

  /** The data backend `j` answered; a skipped backend counts as an empty answer. */
  function Original(event: Event): Option<Fields> {
    match event
    case Skipped(_) => Some(map[])
    case Called(_, reply) => if reply.Delivered? then reply.data else None
  }

  function Truth(event: Event): Fields {
    if Original(event).Some? then Original(event).value else map[]
  }

  /**
    Every part shows what its backend answered, except the one whose map the accumulator grows: that one
    shows everything merged so far.
   */
  predicate Shows(e: Exec) {
    && |e.state.parts| == |e.trace|
    && (e.state.grown.Some? ==>
          && e.state.grown.value < |e.trace|
          && e.state.acc.data.Some? && e.state.acc.data.value.data.Some?)
    && forall j | 0 <= j < |e.trace| ::
         e.state.parts[j].data == if e.state.grown == Some(j) then e.state.acc.data.value.data else Original(e.trace[j])
  }

  lemma AbsorbShows(trace: seq<Event>, s: State, event: Event)
    requires Shows(Exec(s, trace, false)) && event.Called? && Fine(event.reply)
    ensures var m := Message(event.reply);
            var s' := Absorb(s, m);
            Shows(Exec(s'.(parts := s'.parts + [Part(m.response.data, event.reply.io)]), trace + [event], false))
  {
    var r := Message(event.reply).response;
    var s' := Absorb(s, Got(r));
    CombinePair(s.acc.data, Some(r));
    assert Original(event) == r.data;
    if s.acc.data.Some? && s.acc.data.value.data.None? && r.data.Some? {
      assert map[] + r.data.value == r.data.value;
    }
    assert forall j | 0 <= j < |trace| :: (trace + [event])[j] == trace[j];
  }

  lemma TurnShows(c: Config, e: Exec, reply: Reply)
    requires Shows(e) && !Turn(c, e, reply).stopped
    ensures Shows(Turn(c, e, reply))
  {
    hide Prepared, Step, Message;
    PreparedShape(c, e);
    var s, e' := Prepared(c, e), Turn(c, e, reply);
    if c.Rejects(|e.trace|, s.params) {
      assert e'.trace[..|e.trace|] == e.trace;
    } else {
      AbsorbShows(e.trace, s, Called(s.params, reply));
    }
  }

  lemma {:induction false} AfterShows(c: Config, params: Params, replies: seq<Reply>, k: nat)
    requires k <= |replies| && !After(c, params, replies, k).stopped
    ensures Shows(After(c, params, replies, k))
  {
    if k > 0 {
      AfterShows(c, params, replies, k - 1);
      TurnShows(c, After(c, params, replies, k - 1), replies[k - 1]);
    }
  }

  // ---- Whose map grows, in terms of the answers alone

  /** None of the backends called answered with data. */
  predicate NoData(trace: seq<Event>) {
    forall j | 0 <= j < |trace| && trace[j].Called? :: Original(trace[j]).None?
  }

  /** The first backend called that answers with data has its map grown, unless two were called before it. */
  predicate Grows(trace: seq<Event>, i: nat) {
    && i < |trace| && trace[i].Called? && Original(trace[i]).Some?
    && NoData(trace[..i]) && |Arrivals(trace[..i])| <= 1
  }

  /** The accumulator holds nothing until a backend is called, and a nil map while the only one called had no data. */
  ghost predicate GrowthIs(e: Exec) {
    && (forall i: nat :: e.state.grown == Some(i) <==> Grows(e.trace, i))
    && (e.state.acc.data.None? <==> |Arrivals(e.trace)| == 0)
    && (e.state.acc.data.Some? ==>
          (e.state.acc.data.value.data.None? <==> NoData(e.trace) && |Arrivals(e.trace)| == 1))
  }

  /** What one more backend does to these notions. */
  lemma GrowsSnoc(trace: seq<Event>, event: Event, i: nat)
    ensures i < |trace| ==> (Grows(trace + [event], i) <==> Grows(trace, i))
    ensures Grows(trace + [event], |trace|)
            <==> event.Called? && Original(event).Some? && NoData(trace) && |Arrivals(trace)| <= 1
    ensures Grows(trace, i) ==> i < |trace| && !NoData(trace)
    ensures Grows(trace + [event], i) ==> i <= |trace|
    ensures NoData(trace + [event]) <==> NoData(trace) && (event.Called? ==> Original(event).None?)
    ensures |Arrivals(trace + [event])| == |Arrivals(trace)| + if event.Called? then 1 else 0
  {
    ArrivalsSnoc(trace, event);
    var trace' := trace + [event];
    assert trace'[..|trace|] == trace;
    assert forall j | 0 <= j < |trace| :: trace'[j] == trace[j];
    if i < |trace| { assert trace'[..i] == trace[..i]; }
  }

  lemma NoDataNoCalls(trace: seq<Event>)
    requires |Arrivals(trace)| == 0
    ensures NoData(trace)
  {
    forall j | 0 <= j < |trace| && trace[j].Called?
      ensures false
    {
      CalledArrive(trace, Message(trace[j].reply));
    }
  }

  /** Whose map the accumulator holds after one more response. */
  lemma AbsorbHolds(s: State, r: Response)
    ensures var before, s' := s.acc.data, Absorb(s, Got(r));
            && s'.acc.data.Some?
            && (s'.acc.data.value.data.None? <==> before.None? && r.data.None?)
            && s'.grown == if before.Some? && before.value.data.Some? then s.grown
                           else if r.data.Some? then Some(|s.parts|)
                           else None
  {
    hide Combine, DataOf, Good;
    CombinePair(s.acc.data, Some(r));
  }

  lemma AbsorbGrowth(trace: seq<Event>, s: State, event: Event)
    requires GrowthIs(Exec(s, trace, false)) && |s.parts| == |trace|
    requires event.Called? && Fine(event.reply)
    ensures GrowthIs(Exec(Absorb(s, Message(event.reply)), trace + [event], false))
  {
    hide NoData, Grows, Arrivals, Absorb;
    var r := Message(event.reply).response;
    assert Message(event.reply) == Got(r) && Original(event) == r.data;
    AbsorbHolds(s, r);
    forall i: nat
      ensures i < |trace| ==> (Grows(trace + [event], i) <==> Grows(trace, i))
      ensures Grows(trace, i) ==> i < |trace| && !NoData(trace)
      ensures Grows(trace + [event], i) ==> i <= |trace|
    {
      GrowsSnoc(trace, event, i);
    }
    GrowsSnoc(trace, event, 0);
    if |Arrivals(trace)| == 0 { NoDataNoCalls(trace); }
  }

  lemma TurnGrowth(c: Config, e: Exec, reply: Reply)
    requires Shows(e) && GrowthIs(e) && !Turn(c, e, reply).stopped
    ensures GrowthIs(Turn(c, e, reply))
  {
    hide Prepared, Step, Message, NoData, Grows, Arrivals, Absorb;
    PreparedShape(c, e);
    var s := Prepared(c, e);
    if c.Rejects(|e.trace|, s.params) {
      forall i: nat
        ensures Grows(e.trace + [Skipped(s.params)], i) <==> Grows(e.trace, i)
      {
        GrowsSnoc(e.trace, Skipped(s.params), i);
      }
      GrowsSnoc(e.trace, Skipped(s.params), 0);
    } else {
      AbsorbGrowth(e.trace, s, Called(s.params, reply));
    }
  }

  lemma StartGrowth(n: nat, params: Params)
    ensures GrowthIs(Start(n, params))
  {
  }

  /** The accumulator grows the map that the answers say. */
  lemma {:induction false} AfterGrowth(c: Config, params: Params, replies: seq<Reply>, k: nat)
    requires k <= |replies| && !After(c, params, replies, k).stopped
    ensures GrowthIs(After(c, params, replies, k))
  {
    hide Turn, GrowthIs, Shows;
    if k == 0 {
      StartGrowth(|replies|, params);
    } else {
      AfterGrowth(c, params, replies, k - 1);
      AfterShows(c, params, replies, k - 1);
      TurnGrowth(c, After(c, params, replies, k - 1), replies[k - 1]);
    }
  }

  // ---- What a lookup finds, in terms of the answers alone

  /** What a run that has not stopped looks like. */
  ghost predicate Healthy(n: nat, e: Exec) {
    && Shows(e) && Accounts(n, e) && GrowthIs(e)
    && (forall j | 0 <= j < |e.trace| && e.trace[j].Called? :: Fine(e.trace[j].reply))
  }

  lemma {:induction false} AfterHealthy(c: Config, params: Params, replies: seq<Reply>, k: nat)
    requires k <= |replies| && !After(c, params, replies, k).stopped
    ensures Healthy(|replies|, After(c, params, replies, k)) && |After(c, params, replies, k).trace| == k
  {
    AfterShows(c, params, replies, k);
    AfterGrowth(c, params, replies, k);
    AfterAccounts(c, params, replies, k);
    CallsUpToTheStop(c, params, replies, k);
  }

  /** A key of the map that grows: the last answer that has it counts. */
  function Latest(trace: seq<Event>, key: string): Option<Value> {
    if trace == [] then None
    else
      var n := |trace| - 1;
      if key in Truth(trace[n]) then Some(Truth(trace[n])[key]) else Latest(trace[..n], key)
  }

  /** A path in that map. A walk that stops at once looks for the last key in the map itself. */
  function Found(trace: seq<Event>, source: Json.Path): Option<Value>
    requires source != []
  {
    var first := Latest(trace, source[0]);
    if |source| > 1 && first.Some? && first.value.Object? then Lookup(first.value.fields, source[1..])
    else Latest(trace, source[|source| - 1])
  }

  /** What backend `r.Index()` itself answered at the path. */
  function Own(trace: seq<Event>, r: Reference): Option<Value>
    requires r.Index() < |trace|
  {
    Lookup(Truth(trace[r.Index()]), r.Source())
  }

  /** What a reference to an earlier response gives after these answers. */
  function Seen(trace: seq<Event>, r: Reference): Option<Value>
    requires r.Index() < |trace|
  {
    if Grows(trace, r.Index()) then Found(trace, r.Source()) else Own(trace, r)
  }

  lemma TruthOfGot(event: Event, r: Response)
    requires event.Called? && Message(event.reply) == Got(r)
    ensures Truth(event) == DataOf(Some(r))
  {
  }

  function Get<V>(m: map<string, V>, k: string): Option<V> {
    if k in m then Some(m[k]) else None
  }

  lemma MergedSnoc(trace: seq<Event>, event: Event)
    requires event.Called? ==> Fine(event.reply)
    ensures Union(Successes(Arrivals(trace + [event]))) == Union(Successes(Arrivals(trace))) + Truth(event)
  {
    ArrivalsSnoc(trace, event);
    if event.Called? {
      var xs, r := Arrivals(trace), Message(event.reply).response;
      assert (xs + [Got(r)])[..|xs|] == xs;
      UnionSnoc(Successes(xs), Some(r));
      TruthOfGot(event, r);
    } else {
      assert Arrivals(trace) + [] == Arrivals(trace);
      assert Truth(event) == map[];
    }
  }

  /** The merge so far holds for each key what the last answer with that key said. */
  lemma {:induction false} MergedLatest(trace: seq<Event>, key: string)
    requires forall j | 0 <= j < |trace| && trace[j].Called? :: Fine(trace[j].reply)
    ensures Get(Union(Successes(Arrivals(trace))), key) == Latest(trace, key)
  {
    hide Union, Successes, Truth, Fine;
    if trace == [] {
      MergedNothing();
    } else {
      var n := |trace| - 1;
      MergedLatest(trace[..n], key);
      MergedSnoc(trace[..n], trace[n]);
      assert trace == trace[..n] + [trace[n]];
    }
  }

  lemma MergedNothing()
    ensures Union(Successes(Arrivals([]))) == map[]
  {
  }

  /** Only the first key of a path, and the last one if the walk stops at once, are looked up in the map itself. */
  lemma LookupFirst(d: Fields, source: Json.Path)
    requires source != []
    ensures Lookup(d, source)
         == if |source| > 1 && source[0] in d && d[source[0]].Object? then Lookup(d[source[0]].fields, source[1..])
            else Get(d, source[|source| - 1])
  {
    var keys := source[..|source| - 1];
    if |source| > 1 {
      assert keys[0] == source[0] && keys[1..] == source[1..][..|source| - 2];
    }
  }

  /** Whatever the path: the lookup in the part finds what the answers say it should. */
  lemma SeenIs(n: nat, e: Exec, r: Reference)
    requires Healthy(n, e) && r.Index() < |e.trace|
    ensures Lookup(Content(e.state.parts[r.Index()]), r.Source()) == Seen(e.trace, r)
  {
    var idx, source := r.Index(), r.Source();
    assert e.state.grown == Some(idx) <==> Grows(e.trace, idx);
    if e.state.grown == Some(idx) {
      var d := e.state.acc.data.value.data.value;
      FoldInvariant(n, Arrivals(e.trace));
      assert d == Union(Successes(Arrivals(e.trace)));
      LookupFirst(d, source);
      MergedLatest(e.trace, source[0]);
      MergedLatest(e.trace, source[|source| - 1]);
    }
  }

  // ---- The part whose map grows

  /** `last` is the last backend whose answer has `key`. */
  predicate LastWith(trace: seq<Event>, key: string, last: nat) {
    && last < |trace| && key in Truth(trace[last])
    && forall j | last < j < |trace| :: key !in Truth(trace[j])
  }

  lemma {:induction false} LatestOf(trace: seq<Event>, key: string, last: nat)
    requires LastWith(trace, key, last)
    ensures Latest(trace, key) == Some(Truth(trace[last])[key])
  {
    var n := |trace| - 1;
    if last < n {
      assert forall j | last < j < n :: trace[..n][j] == trace[j];
      LatestOf(trace[..n], key, last);
    }
  }

  /** An answer that has the whole path, and is the last to have its first key, is the one that is found. */
  lemma FoundIn(trace: seq<Event>, source: Json.Path, last: nat)
    requires source != [] && LastWith(trace, source[0], last) && Has(Object(Truth(trace[last])), source)
    ensures Found(trace, source) == Lookup(Truth(trace[last]), source) == At(Object(Truth(trace[last])), source)
  {
    LatestOf(trace, source[0], last);
    LookupFirst(Truth(trace[last]), source);
    LookupAt(Truth(trace[last]), source);
  }

  /**
    A path that exists in the answer of the backend referred to, whose map has grown since. Let `last` be the
    last answer with the first key of the path, and let it have the path. Then the lookup finds what the
    backend itself answered if and only if `last` says the same at that path.
   */
  lemma GrowingPartIff(c: Config, params: Params, replies: seq<Reply>, k: nat, r: Reference, last: nat)
    requires k <= |replies| && !After(c, params, replies, k).stopped
    requires Grows(After(c, params, replies, k).trace, r.Index())
    requires Has(Object(Truth(After(c, params, replies, k).trace[r.Index()])), r.Source())
    requires LastWith(After(c, params, replies, k).trace, r.Source()[0], last)
    requires Has(Object(Truth(After(c, params, replies, k).trace[last])), r.Source())
    ensures var e := After(c, params, replies, k);
            && r.Index() < |e.state.parts|
            && var own := Truth(e.trace[r.Index()]);
               (Lookup(Content(e.state.parts[r.Index()]), r.Source()) == Lookup(own, r.Source())
                <==> At(Object(Truth(e.trace[last])), r.Source()) == At(Object(own), r.Source()))
  {
    hide After, Found, Lookup, At, Truth;
    var e := After(c, params, replies, k);
    AfterHealthy(c, params, replies, k);
    SeenIs(|replies|, e, r);
    FoundIn(e.trace, r.Source(), last);
    LookupAt(Truth(e.trace[r.Index()]), r.Source());
  }

  // ---- The parameter a backend gets

  function Rendered(print_: Value -> string, v: Option<Value>): string {
    if v.Some? then Render(print_, v.value) else ""
  }

  /** The rendering of what a reference gives after these answers; empty if it gives nothing. */
  function Shown(print_: Value -> string, trace: seq<Event>, r: Reference): string {
    if r.Index() < |trace| then Rendered(print_, Seen(trace, r)) else ""
  }

  /** Backend `k` uses the reference. */
  predicate Refers(c: Config, k: nat, r: Reference) {
    0 < k < |c.refs| && r in c.refs[k]
  }

  /** The first non-empty rendering among the turns before `k` that use the reference; empty if there is none. */
  function Decided(c: Config, params: Params, replies: seq<Reply>, k: nat, r: Reference): string
    requires k <= |replies|
  {
    if k == 0 then ""
    else
      var before := Decided(c, params, replies, k - 1, r);
      var e := After(c, params, replies, k - 1);
      if before != "" || e.stopped || !Refers(c, k - 1, r) then before else Shown(c.print_, e.trace, r)
  }

  function Entry(m: map<string, string>, k: string): string {
    if k in m then m[k] else ""
  }

  /** A state reached from `e` while the references of the next backend are being filled in. */
  predicate During(e: Exec, s: State) {
    && |s.parts| == |e.state.parts|
    && forall j | 0 <= j < |s.parts| :: s.parts[j].data == e.state.parts[j].data
  }

  /** What `s'` holds for the reference after using it, given what was decided before. */
  predicate Handed(e: Exec, s: State, s': State, r: Reference) {
    var d := r.Destination();
    var entry := Entry(s'.registry, d);
    if r.Index() >= |e.trace| then Get(s'.params, d) == Get(s.params, d)
    else if entry != "" then Get(s'.params, d) == Some(entry)
    else if Seen(e.trace, r).Some? then Get(s'.params, d) == Some("")
    else Get(s'.params, d) == Get(s.params, d)
  }

  /** The registry after the reference has been used. */
  predicate Settles(print_: Value -> string, e: Exec, before: string, after: string, r: Reference) {
    after == if before != "" then before else Shown(print_, e.trace, r)
  }

  lemma UseHands(print_: Value -> string, n: nat, e: Exec, s: State, r: Reference)
    requires Healthy(n, e) && During(e, s) && !r.Full()
    ensures var s', d := Use(print_, s, r), r.Destination();
            Settles(print_, e, Entry(s.registry, d), Entry(s'.registry, d), r) && Handed(e, s, s', r)
  {
    assert |s.parts| == |e.trace|;
    if r.Index() < |e.trace| { SeenIs(n, e, r); }
    hide Healthy, Seen, Lookup, Render;
  }

  /** A reference with another name leaves this one's parameter and registry entry alone. */
  lemma UseOther(print_: Value -> string, s: State, r: Reference, d: string)
    requires r.Destination() != d
    ensures var s' := Use(print_, s, r);
            Entry(s'.registry, d) == Entry(s.registry, d) && Get(s'.params, d) == Get(s.params, d)
  {
    hide Lookup, Render;
  }

  lemma {:induction false} UseAllHands(print_: Value -> string, n: nat, e: Exec, refs: seq<Reference>, r: Reference)
    requires Healthy(n, e) && r.Valid() && !r.Full() && forall i | 0 <= i < |refs| :: refs[i].Valid()
    ensures var s, s', d := e.state, UseAll(print_, e.state, refs), r.Destination();
            if r in refs then
              Settles(print_, e, Entry(s.registry, d), Entry(s'.registry, d), r) && Handed(e, s, s', r)
            else
              Entry(s'.registry, d) == Entry(s.registry, d) && Get(s'.params, d) == Get(s.params, d)
  {
    hide Use, Healthy, Shown, Seen;
    if refs != [] {
      var k := |refs| - 1;
      var before, last := refs[..k], refs[k];
      assert refs == before + [last];
      var s1 := UseAll(print_, e.state, before);
      UseAllHands(print_, n, e, before, r);
      UseAllShape(print_, e.state, before);
      if last == r {
        UseHands(print_, n, e, s1, r);
      } else {
        if last.Destination() == r.Destination() { DestinationInjective(last, r); }
        UseOther(print_, s1, last, r.Destination());
      }
    }
  }

  lemma TurnPrepares(c: Config, e: Exec, reply: Reply)
    ensures var e' := Turn(c, e, reply);
            && |e'.trace| == |e.trace| + 1 && e'.trace[..|e.trace|] == e.trace
            && e'.trace[|e.trace|].params == Prepared(c, e).params
            && e'.state.registry == Prepared(c, e).registry
  {
    hide Prepared, Step;
  }

  lemma {:induction false} UseAllOther(print_: Value -> string, s: State, refs: seq<Reference>, key: string)
    requires forall i | 0 <= i < |refs| :: refs[i].Destination() != key
    ensures Get(UseAll(print_, s, refs).params, key) == Get(s.params, key)
  {
    hide Use;
    if refs != [] {
      var n := |refs| - 1;
      UseAllOther(print_, s, refs[..n], key);
      UseOther(print_, UseAll(print_, s, refs[..n]), refs[n], key);
    }
  }

  /** No reference of the backends before `k` is handed over under this name. */
  predicate Unnamed(c: Config, k: nat, key: string) {
    forall i, r | 0 < i < k && i < |c.refs| && r in c.refs[i] :: r.Destination() != key
  }

  /**
    The caller's parameters: one that no reference is named after is still what it was whenever a backend is
    filtered or called, and when the run is over.
   */
  lemma {:induction false} ParamsKept(c: Config, params: Params, replies: seq<Reply>, k: nat, key: string)
    requires k <= |replies| && Unnamed(c, k, key)
    ensures var e := After(c, params, replies, k);
            && Get(e.state.params, key) == Get(params, key)
            && forall j | 0 <= j < |e.trace| :: Get(e.trace[j].params, key) == Get(params, key)
  {
    hide Turn;
    if k > 0 {
      ParamsKept(c, params, replies, k - 1, key);
      CallsUpToTheStop(c, params, replies, k - 1);
      var e := After(c, params, replies, k - 1);
      if !e.stopped {
        PreparedOther(c, e, key);
        TurnKeepsParams(c, e, replies[k - 1], key);
      }
    }
  }

  lemma PreparedOther(c: Config, e: Exec, key: string)
    requires forall r | 0 < |e.trace| < |c.refs| && r in c.refs[|e.trace|] :: r.Destination() != key
    ensures Get(Prepared(c, e).params, key) == Get(e.state.params, key)
  {
    if 0 < |e.trace| < |c.refs| { UseAllOther(c.print_, e.state, c.refs[|e.trace|], key); }
  }

  lemma TurnKeepsParams(c: Config, e: Exec, reply: Reply, key: string)
    requires Get(Prepared(c, e).params, key) == Get(e.state.params, key)
    ensures var e' := Turn(c, e, reply);
            && Get(e'.state.params, key) == Get(e.state.params, key)
            && |e'.trace| == |e.trace| + 1 && e'.trace[..|e.trace|] == e.trace
            && Get(e'.trace[|e.trace|].params, key) == Get(e.state.params, key)
  {
    hide Prepared, Step;
  }

  /** Preparing the turn of backend `k`, as far as one reference is concerned. */
  lemma PreparedHands(c: Config, n: nat, e: Exec, r: Reference)
    requires c.Valid() && Healthy(n, e) && r.Valid() && !r.Full()
    ensures var s, s', d := e.state, Prepared(c, e), r.Destination();
            if Refers(c, |e.trace|, r) then
              Settles(c.print_, e, Entry(s.registry, d), Entry(s'.registry, d), r) && Handed(e, s, s', r)
            else
              Entry(s'.registry, d) == Entry(s.registry, d) && Get(s'.params, d) == Get(s.params, d)
  {
    var i := |e.trace|;
    if 0 < i < |c.refs| {
      UseAllHands(c.print_, n, e, c.refs[i], r);
    }
  }

  /** The registry holds what has been decided. */
  lemma {:induction false} RegistryHolds(c: Config, params: Params, replies: seq<Reply>, k: nat, r: Reference)
    requires c.Valid() && r.Valid() && !r.Full() && k <= |replies|
    ensures Entry(After(c, params, replies, k).state.registry, r.Destination()) == Decided(c, params, replies, k, r)
  {
    hide Turn, Prepared, Healthy, Shown;
    if k > 0 {
      RegistryHolds(c, params, replies, k - 1, r);
      var e := After(c, params, replies, k - 1);
      if !e.stopped {
        AfterHealthy(c, params, replies, k - 1);
        PreparedHands(c, |replies|, e, r);
        TurnPrepares(c, e, replies[k - 1]);
      }
    }
  }

  /** The parameter of a reference in terms of the answers: what has been decided, or else what was there before. */
  function HandedOver(c: Config, params: Params, replies: seq<Reply>, k: nat, r: Reference): Option<string>
    requires k < |replies| && r.Index() < |After(c, params, replies, k).trace|
  {
    var e := After(c, params, replies, k);
    var decided := Decided(c, params, replies, k + 1, r);
    if decided != "" || Seen(e.trace, r).Some? then Some(decided) else Get(e.state.params, r.Destination())
  }

  /**
    What a backend is handed, in every run and for every path: the rendering that decided, which is empty
    only if the path now leads to something that renders as nothing; where no turn has found anything, the
    parameter stays what it was.
   */
  lemma ParameterIs(c: Config, params: Params, replies: seq<Reply>, k: nat, r: Reference)
    requires c.Valid() && k < |replies| && !After(c, params, replies, k).stopped
    requires Refers(c, k, r) && !r.Full() && r.Index() < k
    ensures |After(c, params, replies, k).trace| == k && |After(c, params, replies, k + 1).trace| == k + 1
    ensures Get(After(c, params, replies, k + 1).trace[k].params, r.Destination()) == HandedOver(c, params, replies, k, r)
  {
    var e := After(c, params, replies, k);
    assert r.Valid();
    AfterHealthy(c, params, replies, k);
    RegistryHolds(c, params, replies, k, r);
    RegistryHolds(c, params, replies, k + 1, r);
    hide Turn, Prepared, Healthy, Shown, Seen;
    PreparedHands(c, |replies|, e, r);
    TurnPrepares(c, e, replies[k]);
  }

  // ---- The law of the cache

  lemma {:induction false} TracePrefix(c: Config, params: Params, replies: seq<Reply>, j: nat, k: nat)
    requires j <= k <= |replies| && !After(c, params, replies, k).stopped
    ensures !After(c, params, replies, j).stopped
    ensures |After(c, params, replies, j).trace| == j && |After(c, params, replies, k).trace| == k
    ensures After(c, params, replies, j).trace == After(c, params, replies, k).trace[..j]
  {
    hide Turn, Start, Healthy;
    AfterHealthy(c, params, replies, k);
    if j < k {
      TracePrefix(c, params, replies, j, k - 1);
      TurnPrepares(c, After(c, params, replies, k - 1), replies[k - 1]);
      var trace := After(c, params, replies, k).trace;
      assert trace[..k - 1][..j] == trace[..j];
    }
  }

  /** Backend `j` is the first to use the reference when the answers give something that renders as something. */
  ghost predicate Decides(c: Config, params: Params, replies: seq<Reply>, j: nat, r: Reference)
    requires j <= |replies|
  {
    && Refers(c, j, r) && !After(c, params, replies, j).stopped
    && Shown(c.print_, After(c, params, replies, j).trace, r) != ""
    && forall i | 0 <= i < j && Refers(c, i, r) :: Shown(c.print_, After(c, params, replies, i).trace, r) == ""
  }

  lemma {:induction false} UndecidedIff(c: Config, params: Params, replies: seq<Reply>, k: nat, r: Reference)
    requires k <= |replies| && !After(c, params, replies, k).stopped
    ensures Decided(c, params, replies, k, r) == ""
       <==> forall i | 0 <= i < k && Refers(c, i, r) :: Shown(c.print_, After(c, params, replies, i).trace, r) == ""
  {
    hide Shown, Refers, After;
    if k > 0 {
      TracePrefix(c, params, replies, k - 1, k);
      UndecidedIff(c, params, replies, k - 1, r);
    }
  }

  /** Something has been decided exactly if some backend decides it, and that backend's rendering stays. */
  lemma {:induction false} DecidedIff(c: Config, params: Params, replies: seq<Reply>, k: nat, r: Reference)
    requires k <= |replies| && !After(c, params, replies, k).stopped
    ensures Decided(c, params, replies, k, r) != "" <==> exists j | 0 <= j < k :: Decides(c, params, replies, j, r)
    ensures forall j | 0 <= j < k && Decides(c, params, replies, j, r) ::
              Decided(c, params, replies, k, r) == Shown(c.print_, After(c, params, replies, j).trace, r)
  {
    hide Shown, Refers, After;
    if k > 0 {
      TracePrefix(c, params, replies, k - 1, k);
      DecidedIff(c, params, replies, k - 1, r);
      UndecidedIff(c, params, replies, k - 1, r);
      assert Decides(c, params, replies, k - 1, r)
        <==> Decided(c, params, replies, k - 1, r) == "" && Decided(c, params, replies, k, r) != "";
    }
  }

  /** Later answers say nothing about an earlier backend. */
  lemma PrefixSame(trace: seq<Event>, j: nat, r: Reference)
    requires r.Index() < j <= |trace|
    ensures Own(trace[..j], r) == Own(trace, r) && (Grows(trace[..j], r.Index()) <==> Grows(trace, r.Index()))
  {
    assert trace[..j][..r.Index()] == trace[..r.Index()];
  }

  /**
    The law of the cache, exactly. What backend `k` is handed for a reference that backend `j` decides is what
    the answers before `j` gave. So it is what the referenced backend answered if and only if that backend's
    map does not grow or what was found in the grown map then renders alike, and it is what a fresh lookup
    gives if and only if the answers before `j` and before `k` render alike.
   */
  lemma CacheLawIff(c: Config, params: Params, replies: seq<Reply>, k: nat, j: nat, r: Reference)
    requires c.Valid() && k < |replies| && !After(c, params, replies, k).stopped
    requires Refers(c, k, r) && !r.Full() && j <= k && Decides(c, params, replies, j, r)
    ensures var trace, trace' := After(c, params, replies, k).trace, After(c, params, replies, k + 1).trace;
            && |trace| == k && |trace'| == k + 1 && r.Index() < j
            && r.Destination() in trace'[k].params
            && var param, own := trace'[k].params[r.Destination()], Own(trace, r);
               && param == Shown(c.print_, trace[..j], r) != ""
               && (param == Shown(c.print_, trace, r)
                   <==> Shown(c.print_, trace[..j], r) == Shown(c.print_, trace, r))
               && (param == Rendered(c.print_, own)
                   <==> (Grows(trace, r.Index()) ==>
                           Rendered(c.print_, Found(trace[..j], r.Source())) == Rendered(c.print_, own)))
  {
    hide Decided, After, Refers, Found, Own, Grows, Rendered;
    TracePrefix(c, params, replies, j, k);
    PrefixSame(After(c, params, replies, k).trace, j, r);
    ParameterIs(c, params, replies, k, r);
    DecidedAfter(c, params, replies, k, j, r);
  }

  /** The turn of backend `k` itself counts too. */
  lemma DecidedAfter(c: Config, params: Params, replies: seq<Reply>, k: nat, j: nat, r: Reference)
    requires j <= k < |replies| && !After(c, params, replies, k).stopped && Decides(c, params, replies, j, r)
    ensures Decided(c, params, replies, k + 1, r) == Shown(c.print_, After(c, params, replies, j).trace, r)
  {
    hide After, Refers, Shown;
    DecidedIff(c, params, replies, k, r);
    UndecidedIff(c, params, replies, k, r);
  }

  /**
    The part of the law about a map that grows, in terms of one answer: let `last` be the last backend before
    `j` whose answer has the first key of the path, and let it have the path. Then its value is handed over,
    and it is taken for the referenced backend's if and only if the two render alike.
   */
  lemma GrowingParameterIff(c: Config, params: Params, replies: seq<Reply>, k: nat, j: nat, r: Reference, last: nat)
    requires c.Valid() && k < |replies| && !After(c, params, replies, k).stopped
    requires Refers(c, k, r) && !r.Full() && j <= k && Decides(c, params, replies, j, r)
    requires Grows(After(c, params, replies, j).trace, r.Index())
    requires LastWith(After(c, params, replies, j).trace, r.Source()[0], last)
    requires Has(Object(Truth(After(c, params, replies, j).trace[last])), r.Source())
    ensures var trace, trace' := After(c, params, replies, k).trace, After(c, params, replies, k + 1).trace;
            && |trace| == k < |trace'| && last < k && r.Index() < k
            && At(Object(Truth(trace[last])), r.Source()).Some?
            && var v := At(Object(Truth(trace[last])), r.Source()).value;
               && Get(trace'[k].params, r.Destination()) == Some(Render(c.print_, v))
               && (Get(trace'[k].params, r.Destination()) == Some(Rendered(c.print_, Own(trace, r)))
                   <==> Render(c.print_, v) == Rendered(c.print_, Own(trace, r)))
  {
    CacheLawIff(c, params, replies, k, j, r);
    hide After, Refers, Found, Own, Decides;
    TracePrefix(c, params, replies, j, k);
    FoundIn(After(c, params, replies, j).trace, r.Source(), last);
  }

  // ---- A transparent cache

  /** No other backend called so far answered with the key that `source` starts from. */
  predicate Untouched(trace: seq<Event>, idx: nat, key: string) {
    forall j | 0 <= j < |trace| && j != idx && trace[j].Called? :: key !in Truth(trace[j])
  }

  /**
    A reference that no other answer can affect: to a part whose map is not the one that grows, or by a path
    that exists in the answer and whose first key no other answer contains.
   */
  predicate Trusted(trace: seq<Event>, r: Reference) {
    && r.Valid() && !r.Full() && r.Index() < |trace|
    && Own(trace, r).Some?
    && (Grows(trace, r.Index()) ==>
          && Has(Object(Truth(trace[r.Index()])), r.Source())
          && Untouched(trace, r.Index(), r.Source()[0]))
  }

  /** Such a reference gives what the backend answered, and gave it after fewer answers too. */
  lemma TrustedSeen(trace: seq<Event>, j: nat, r: Reference)
    requires Trusted(trace, r) && r.Index() < j <= |trace|
    ensures Seen(trace[..j], r) == Own(trace, r)
  {
    PrefixSame(trace, j, r);
    if Grows(trace, r.Index()) {
      LookupAt(Truth(trace[r.Index()]), r.Source());
      FoundIn(trace[..j], r.Source(), r.Index());
    }
  }

  /**
    The registry is transparent for trusted references: whenever backend `k` is reached, each of them is
    handed over as the rendering of what the referenced backend itself answered, which is also what a fresh
    lookup in that backend's part finds now.
   */
  lemma TransparentCache(c: Config, params: Params, replies: seq<Reply>, k: nat, r: Reference)
    requires c.Valid() && k < |replies| && !After(c, params, replies, k).stopped
    requires Refers(c, k, r) && Trusted(After(c, params, replies, k).trace, r)
    ensures var e, e' := After(c, params, replies, k), After(c, params, replies, k + 1);
            && |e.trace| == k && |e'.trace| == k + 1
            && Get(e'.trace[k].params, r.Destination()) == Some(Render(c.print_, Own(e.trace, r).value))
            && r.Index() < |e.state.parts|
            && Lookup(Content(e.state.parts[r.Index()]), r.Source()) == Own(e.trace, r)
  {
    hide After, Render, Healthy, Own, Seen;
    var e := After(c, params, replies, k);
    AfterHealthy(c, params, replies, k);
    HealthyParts(|replies|, e);
    TrustedSeen(e.trace, k, r);
    assert e.trace[..k] == e.trace;
    SeenIs(|replies|, e, r);
    ParameterIs(c, params, replies, k, r);
    TrustedDecided(c, params, replies, k, r);
  }

  lemma HealthyParts(n: nat, e: Exec)
    requires Healthy(n, e)
    ensures |e.state.parts| == |e.trace|
  {
  }

  /** What decides for a trusted reference is what the backend answered. */
  lemma TrustedDecided(c: Config, params: Params, replies: seq<Reply>, k: nat, r: Reference)
    requires k < |replies| && !After(c, params, replies, k).stopped
    requires Refers(c, k, r) && Trusted(After(c, params, replies, k).trace, r)
    ensures Decided(c, params, replies, k + 1, r) == Render(c.print_, Own(After(c, params, replies, k).trace, r).value)
  {
    var trace := After(c, params, replies, k).trace;
    hide After, Render, Seen, Own, Refers;
    TracePrefix(c, params, replies, k, k);
    TrustedSeen(trace, k, r);
    assert trace[..k] == trace;
    DecidedIff(c, params, replies, k, r);
    if Decided(c, params, replies, k, r) != "" {
      var j :| 0 <= j < k && Decides(c, params, replies, j, r);
      TracePrefix(c, params, replies, j, k);
      TrustedSeen(trace, j, r);
    }
  }

  const LEAK_REFERENCE := Reference("0", "id")

  const LEAK_CONFIG: Config := Config([[], [], [LEAK_REFERENCE]], [], (v: Value) => "")

  const LEAK_REPLIES: seq<Reply> := [
    Delivered(Some(map["id" := Text("a")]), true, None, None),
    Delivered(Some(map["id" := Text("b")]), true, None, None),
    Delivered(Some(map[]), true, None, None)
  ]

  lemma LeakAfterTwo()
    ensures var e := After(LEAK_CONFIG, map[], LEAK_REPLIES, 2);
            && !e.stopped && |e.trace| == |e.state.parts| == 2 && e.state.registry == map[]
            && e.state.parts[0].data == Some(map["id" := Text("b")])
  {
    var c, a, b := LEAK_CONFIG, map["id" := Text("a")], map["id" := Text("b")];
    var e1 := Turn(c, Start(3, map[]), LEAK_REPLIES[0]);
    assert e1.state.acc.data == Some(Response(Some(a), true)) && e1.state.grown == Some(0);
    CombinePair(e1.state.acc.data, Some(Response(Some(b), true)));
    assert a + b == b;
    assert After(c, map[], LEAK_REPLIES, 1) == e1;
  }

  /**
    Without that trust the law fails: backend 1 answers with a key of backend 0, whose map is the one
    that grows, and backend 2 is handed backend 1's value as if it were backend 0's.
   */
  lemma GrowingMapLeaks()
    ensures LEAK_CONFIG.Valid() && LEAK_CONFIG.refs[2] == [Reference("0", "id")]
    ensures LEAK_REPLIES[0].data == Some(map["id" := Text("a")])
    ensures var e := After(LEAK_CONFIG, map[], LEAK_REPLIES, 3);
            && |e.trace| == 3 && "Resp0_id" in e.trace[2].params
            && e.trace[2].params["Resp0_id"] == "b"
  {
    hide After, Turn, UseAll;
    var e := After(LEAK_CONFIG, map[], LEAK_REPLIES, 2);
    LeakAfterTwo();
    LeakUse(LEAK_CONFIG.print_, e.state);
    AfterNext(LEAK_CONFIG, map[], LEAK_REPLIES, 2);
    TurnPrepares(LEAK_CONFIG, e, LEAK_REPLIES[2]);
  }

  lemma AfterNext(c: Config, params: Params, replies: seq<Reply>, k: nat)
    requires k < |replies| && !After(c, params, replies, k).stopped
    ensures After(c, params, replies, k + 1) == Turn(c, After(c, params, replies, k), replies[k])
  {
  }

  lemma LeakUse(print_: Value -> string, s: State)
    requires |s.parts| == 2 && s.registry == map[] && s.parts[0].data == Some(map["id" := Text("b")])
    ensures LEAK_REFERENCE.Valid()
    ensures var s' := UseAll(print_, s, [LEAK_REFERENCE]);
            "Resp0_id" in s'.params && s'.params["Resp0_id"] == "b"
  {
    var r := LEAK_REFERENCE;
    assert r.Index() == 0 by { assert r.digits[..0] == ""; }
    assert r.Source() == ["id"] by { Paths.SplitNothing("id", '.'); }
    assert r.Destination() == "Resp0_id";
    assert UseAll(print_, s, [r]) == Use(print_, s, r) by { assert [r][..0] == []; }
    assert Lookup(map["id" := Text("b")], ["id"]) == Some(Text("b"));
  }
}
