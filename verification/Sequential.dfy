/**
  The sequential merger on values: backends are called one after the other, and values found in earlier
  responses are handed to later backends as request parameters through a registry.
 */
module Sequential {
  import opened Wrappers
  import opened Json
  import opened Decimals
  import opened Paths
  import opened Merging

  type Params = map<string, string>

  /**
    One use of an earlier response, `Resp<digits>_<tail>`. An empty tail asks for the whole raw body.
   */
  datatype Reference = Reference(digits: string, tail: string) {
    predicate Valid() {
      digits != "" && forall c <- digits :: '0' <= c <= '9'
    }

    function Destination(): string {
      "Resp" + digits + if tail == "" then "" else "_" + tail
    }

    function Index(): nat {
      Number(digits)
    }

    function Source(): Path {
      Split(tail)
    }

    predicate Full() {
      tail == ""
    }
  }

  lemma DestinationShape(r: Reference)
    requires r.Valid()
    ensures var d, n := r.Destination(), |r.digits|;
            && |d| >= 4 + n && d[4..4 + n] == r.digits
            && (forall k | 4 <= k < 4 + n :: '0' <= d[k] <= '9')
            && (|d| == 4 + n ==> r.tail == "")
            && (|d| > 4 + n ==> d[4 + n] == '_' && r.tail == d[5 + n..])
  {
    var d, n := r.Destination(), |r.digits|;
    assert d[4..4 + n] == r.digits;
    forall k | 4 <= k < 4 + n ensures '0' <= d[k] <= '9' {
      assert d[k] == r.digits[k - 4] && r.digits[k - 4] in r.digits;
    }
  }

  /** Equal destinations come from equal references, so the registry never mixes two of them up. */
  lemma DestinationInjective(r: Reference, r': Reference)
    requires r.Valid() && r'.Valid() && r.Destination() == r'.Destination()
    ensures r == r'
  {
    DestinationShape(r);
    DestinationShape(r');
    assert |r.digits| == |r'.digits|;
  }

  /** Follow the keys while they lead to objects, and stay where they stop. */
  function Walk(data: Fields, keys: Path): Fields
    decreases |keys|
  {
    if keys != [] && keys[0] in data && data[keys[0]].Object? then Walk(data[keys[0]].fields, keys[1..])
    else data
  }

  function Lookup(data: Fields, source: Path): Option<Value>
    requires source != []
  {
    var last := source[|source| - 1];
    var found := Walk(data, source[..|source| - 1]);
    if last in found then Some(found[last]) else None
  }

  /** On a path that exists, the merger's lookup finds what is there. */
  lemma {:induction false} LookupAt(data: Fields, source: Path)
    requires source != [] && At(Object(data), source).Some?
    ensures Lookup(data, source) == At(Object(data), source)
    ensures source[0] in data
    decreases |source|
  {
    if |source| > 1 {
      LookupAt(data[source[0]].fields, source[1..]);
      assert source[..|source| - 1][1..] == source[1..][..|source| - 2];
    }
  }

  /** The parameter for a value; `print` stands for Go's formatting of everything but text and lists. */
  function Render(print_: Value -> string, v: Value): string {
    match v
    case List(items) => if items == [] then "" else Join(Printed(print_, items), ',')
    case Text(text) => text
    case _ => print_(v)
  }

  function Printed(print_: Value -> string, items: seq<Value>): (parts: seq<string>)
    ensures |parts| == |items|
    ensures forall i | 0 <= i < |items| :: parts[i] == print_(items[i])
  {
    seq(|items|, i requires 0 <= i < |items| => print_(items[i]))
  }

  // ---- One run

  /** What backend `i` would answer; `lost` if the context ends before its response is passed on. */
  datatype Reply =
    | Delivered(data: Option<Fields>, complete: bool, io: Option<Body>, lost: Option<Error>)
    | Nothing
    | Fault(error: Error)

  /** The one message a call posts. */
  function Message(reply: Reply): Outcome {
    match reply
    case Fault(e) => Failed(e)
    case Nothing => Failed(NullResult)
    case Delivered(data, complete, _, lost) =>
      if lost.Some? then Failed(lost.value) else Got(Response(data, complete))
  }

  /** The configuration of an endpoint. `filters` may be shorter than the list of backends. */
  datatype Config = Config(refs: seq<seq<Reference>>, filters: seq<Option<Params -> bool>>, print_: Value -> string) {
    predicate Rejects(i: nat, params: Params) {
      i < |filters| && filters[i].Some? && !filters[i].value(params)
    }

    predicate Valid() {
      forall i, r | 0 <= i < |refs| && r in refs[i] :: r.Valid()
    }
  }

  datatype Part = Part(data: Option<Fields>, io: Option<Body>)

  /**
    `parts[j]` is what the merger sees of the response of backend `j`; `grown` says which of them, if
    any, shares its map with the accumulator.
   */
  datatype State = State(params: Params, registry: map<string, string>, parts: seq<Part>,
                         acc: Accumulator, grown: Option<nat>)

  function Remember(s: State, destination: string, param: string): State {
    s.(params := s.params[destination := param], registry := s.registry[destination := param])
  }

  function Content(part: Part): Fields {
    if part.data.Some? then part.data.value else map[]
  }

  /** One reference of backend `|s.parts|`. */
  function Use(print_: Value -> string, s: State, r: Reference): State {
    var d := r.Destination();
    if r.Index() >= |s.parts| then s
    else if d in s.registry && s.registry[d] != "" then s.(params := s.params[d := s.registry[d]])
    else if r.Full() then
      var part := s.parts[r.Index()];
      if part.io.None? then s
      else
        var s' := s.(parts := s.parts[r.Index() := part.(io := Some(part.io.value.Drained()))]);
        if part.io.value.fails then s' else Remember(s', d, part.io.value.unread)
    else
      match Lookup(Content(s.parts[r.Index()]), r.Source())
      case None => s
      case Some(v) => Remember(s, d, Render(print_, v))
  }

  function UseAll(print_: Value -> string, s: State, refs: seq<Reference>): State {
    if refs == [] then s else Use(print_, UseAll(print_, s, refs[..|refs| - 1]), refs[|refs| - 1])
  }

  /** Merge a message of backend `|s.parts|`, and share or grow a map where the accumulator does. */
  function Absorb(s: State, m: Outcome): State {
    var acc := Step(s.acc, m);
    if !m.Got? then s.(acc := acc)
    else if s.acc.data.Some? && s.acc.data.value.data.Some? then
      // the map held so far grows, and with it the part it belongs to
      s.(acc := acc,
         parts := if s.grown.Some? && s.grown.value < |s.parts|
                  then s.parts[s.grown.value := s.parts[s.grown.value].(data := acc.data.value.data)] else s.parts)
    else
      s.(acc := acc, grown := if m.response.data.Some? then Some(|s.parts|) else None)
  }

  datatype Event = Skipped(params: Params) | Called(params: Params, reply: Reply)

  /** `trace[j]` is what happened to backend `j`, with the parameters as they were then. */
  datatype Exec = Exec(state: State, trace: seq<Event>, stopped: bool)

  predicate Fine(reply: Reply) {
    Message(reply).Got? && Message(reply).response.complete
  }

  /** The turn of backend `|e.trace|`. */
  function Turn(c: Config, e: Exec, reply: Reply): Exec {
    var i := |e.trace|;
    var s := Prepared(c, e);
    if c.Rejects(i, s.params) then
      Exec(s.(parts := s.parts + [Part(Some(map[]), None)], acc := s.acc.(pending := s.acc.pending - 1)),
           e.trace + [Skipped(s.params)], false)
    else
      var m := Message(reply);
      var s' := Absorb(s, m);
      var trace := e.trace + [Called(s.params, reply)];
      if Fine(reply) then Exec(s'.(parts := s'.parts + [Part(m.response.data, reply.io)]), trace, false)
      else Exec(s', trace, true)
  }

  function Start(n: nat, params: Params): Exec {
    Exec(State(params, map[], [], Fresh(n), None), [], false)
  }

  /** The run up to backend `k`, or to where it stopped. */
  function After(c: Config, params: Params, replies: seq<Reply>, k: nat): Exec
    requires k <= |replies|
  {
    if k == 0 then Start(|replies|, params)
    else
      var e := After(c, params, replies, k - 1);
      if e.stopped then e else Turn(c, e, replies[k - 1])
  }

  /** An error of the very first backend is returned as it is; otherwise the accumulator has the result. */
  datatype Final = Aborted(error: Error) | Ended(merged: Merged)

  function FinalOf(e: Exec): Final {
    if |e.trace| == 1 && e.trace[0].Called? && Message(e.trace[0].reply).Failed?
    then Aborted(Message(e.trace[0].reply).error)
    else Ended(Result(e.state.acc))
  }

  // ---- Which backends are called

  lemma {:induction false} UseAllShape(print_: Value -> string, s: State, refs: seq<Reference>)
    ensures var s' := UseAll(print_, s, refs);
            && |s'.parts| == |s.parts| && s'.acc == s.acc && s'.grown == s.grown
            && forall j | 0 <= j < |s.parts| :: s'.parts[j].data == s.parts[j].data
  {
    if refs != [] { UseAllShape(print_, s, refs[..|refs| - 1]); }
  }

  /** The state in which backend `|e.trace|` is filtered and called. */
  function Prepared(c: Config, e: Exec): State {
    var i := |e.trace|;
    if i > 0 && i < |c.refs| then UseAll(c.print_, e.state, c.refs[i]) else e.state
  }

  lemma PreparedShape(c: Config, e: Exec)
    ensures var s, s' := e.state, Prepared(c, e);
            && |s'.parts| == |s.parts| && s'.acc == s.acc && s'.grown == s.grown
            && forall j | 0 <= j < |s.parts| :: s'.parts[j].data == s.parts[j].data
  {
    var i := |e.trace|;
    if i > 0 && i < |c.refs| { UseAllShape(c.print_, e.state, c.refs[i]); }
  }

  /**
    The trace covers the backends in index order. Exactly those the filter turns down are skipped; all
    but the last called one answered completely; and a trace that ends early ends with a call that
    failed or answered incompletely.
   */
  predicate UpToTheStop(c: Config, replies: seq<Reply>, e: Exec, k: nat) {
    var n := |e.trace|;
    && n <= k <= |replies|
    && (forall j | 0 <= j < n :: e.trace[j].Skipped? <==> c.Rejects(j, e.trace[j].params))
    && (forall j | 0 <= j < n && e.trace[j].Called? :: e.trace[j].reply == replies[j])
    && (forall j | 0 <= j < n && e.trace[j].Called? && (j < n - 1 || !e.stopped) :: Fine(e.trace[j].reply))
    && (e.stopped ==> n > 0 && e.trace[n - 1].Called? && !Fine(e.trace[n - 1].reply))
    && (!e.stopped ==> n == k && |e.state.parts| == k)
  }

  lemma TurnUpToTheStop(c: Config, replies: seq<Reply>, e: Exec, k: nat)
    requires UpToTheStop(c, replies, e, k) && !e.stopped && k < |replies|
    ensures UpToTheStop(c, replies, Turn(c, e, replies[k]), k + 1)
  {
    PreparedShape(c, e);
    hide Prepared, Step, Fine, Message;
    var e' := Turn(c, e, replies[k]);
    assert |e'.trace| == k + 1 && e'.trace[..k] == e.trace;
    assert forall j | 0 <= j < k :: e'.trace[j] == e.trace[j];
  }

  lemma {:induction false} CallsUpToTheStop(c: Config, params: Params, replies: seq<Reply>, k: nat)
    requires k <= |replies|
    ensures UpToTheStop(c, replies, After(c, params, replies, k), k)
  {
    if k > 0 {
      CallsUpToTheStop(c, params, replies, k - 1);
      var e := After(c, params, replies, k - 1);
      if !e.stopped { TurnUpToTheStop(c, replies, e, k - 1); }
    }
  }

  lemma {:induction false} StoppedStays(c: Config, params: Params, replies: seq<Reply>, k: nat, k': nat)
    requires k <= k' <= |replies| && After(c, params, replies, k).stopped
    ensures After(c, params, replies, k') == After(c, params, replies, k)
  {
    hide Turn, Start;
    if k < k' { StoppedStays(c, params, replies, k, k' - 1); }
  }

  lemma {:induction false} FirstEvent(c: Config, params: Params, replies: seq<Reply>, k: nat)
    requires 0 < k <= |replies|
    ensures |After(c, params, replies, k).trace| > 0
    ensures After(c, params, replies, k).trace[0]
         == if c.Rejects(0, params) then Skipped(params) else Called(params, replies[0])
  {
    if k > 1 {
      hide Start, Prepared, Message, Fine, Step;
      FirstEvent(c, params, replies, k - 1);
    } else {
      assert After(c, params, replies, 0) == Start(|replies|, params);
    }
  }

  /** A run is aborted exactly by the error of the first backend, if that one is called. */
  lemma FinalIs(c: Config, params: Params, replies: seq<Reply>)
    ensures var e := After(c, params, replies, |replies|);
            FinalOf(e) == if |replies| > 0 && !c.Rejects(0, params) && Message(replies[0]).Failed?
                          then Aborted(Message(replies[0]).error)
                          else Ended(Result(e.state.acc))
  {
    hide After, Result;
    if |replies| > 0 {
      FirstEvent(c, params, replies, |replies|);
      FirstFails(c, params, replies);
    } else {
      NothingCalled(c, params);
    }
  }

  lemma NothingCalled(c: Config, params: Params)
    ensures After(c, params, [], 0).trace == []
  {
  }

  /** Such an error is the end of the run. */
  lemma FirstFails(c: Config, params: Params, replies: seq<Reply>)
    requires |replies| > 0
    ensures !c.Rejects(0, params) && Message(replies[0]).Failed? ==> |After(c, params, replies, |replies|).trace| == 1
  {
    var e := After(c, params, replies, 1);
    assert After(c, params, replies, 0) == Start(|replies|, params);
    if e.stopped { StoppedStays(c, params, replies, 1, |replies|); }
  }

  // ---- What the result says

  /** The messages merged: those of the backends called, in order. */
  function Arrivals(trace: seq<Event>): seq<Outcome> {
    if trace == [] then []
    else
      var last := trace[|trace| - 1];
      Arrivals(trace[..|trace| - 1]) + if last.Called? then [Message(last.reply)] else []
  }

  function Skips(trace: seq<Event>): nat {
    if trace == [] then 0 else Skips(trace[..|trace| - 1]) + if trace[|trace| - 1].Skipped? then 1 else 0
  }

  lemma {:induction false} SkipsAndCalls(trace: seq<Event>)
    ensures Skips(trace) + |Arrivals(trace)| == |trace|
  {
    if trace != [] { SkipsAndCalls(trace[..|trace| - 1]); }
  }

  lemma {:induction false} CalledArrive(trace: seq<Event>, o: Outcome)
    ensures o in Arrivals(trace) <==> exists j | 0 <= j < |trace| :: trace[j].Called? && Message(trace[j].reply) == o
  {
    if trace != [] {
      var n := |trace| - 1;
      CalledArrive(trace[..n], o);
      assert trace == trace[..n] + [trace[n]];
      assert forall j | 0 <= j < n :: trace[..n][j] == trace[j];
    }
  }

  /** A skipped backend only takes one off the pending count, which the rest of a merge never looks at. */
  lemma {:induction false} FoldPending(total: int, total': int, xs: seq<Outcome>)
    ensures Fold(Fresh(total'), xs) == Fold(Fresh(total), xs).(pending := total' - |xs|)
  {
    FoldInvariant(total', xs);
    if xs != [] { FoldPending(total, total', xs[..|xs| - 1]); }
  }

  predicate Accounts(n: nat, e: Exec) {
    var folded := Fold(Fresh(n), Arrivals(e.trace));
    e.state.acc == folded.(pending := n - |e.trace|)
  }

  lemma StepPending(a: Accumulator, p: int, m: Outcome)
    ensures Step(a.(pending := p), m) == Step(a, m).(pending := p - 1)
  {
  }

  lemma ArrivalsSnoc(trace: seq<Event>, event: Event)
    ensures Arrivals(trace + [event]) == Arrivals(trace) + if event.Called? then [Message(event.reply)] else []
  {
    assert (trace + [event])[..|trace|] == trace;
  }

  lemma TurnAccounts(c: Config, n: nat, e: Exec, reply: Reply)
    requires Accounts(n, e)
    ensures Accounts(n, Turn(c, e, reply))
  {
    hide Prepared, Message, Fine, Step, Fold, Arrivals;
    PreparedShape(c, e);
    var e' := Turn(c, e, reply);
    var event := e'.trace[|e.trace|];
    ArrivalsSnoc(e.trace, event);
    var xs, m := Arrivals(e.trace), Message(reply);
    if event.Called? {
      FoldSnoc(Fresh(n), xs, m);
      StepPending(Fold(Fresh(n), xs), n - |e.trace|, m);
      assert e'.state.acc == Step(e.state.acc, m);
      assert e'.state.acc == Fold(Fresh(n), xs + [m]).(pending := n - |e.trace| - 1);
      assert Arrivals(e'.trace) == xs + [m];
    } else {
      assert Arrivals(e'.trace) == xs;
    }
  }

  lemma {:induction false} AfterAccounts(c: Config, params: Params, replies: seq<Reply>, k: nat)
    requires k <= |replies|
    ensures Accounts(|replies|, After(c, params, replies, k))
  {
    if k > 0 {
      AfterAccounts(c, params, replies, k - 1);
      var e := After(c, params, replies, k - 1);
      if !e.stopped { TurnAccounts(c, |replies|, e, replies[k - 1]); }
    }
  }

  /** What the accumulator would return now is the merge of what the called backends answered. */
  lemma ResultIsMerge(n: nat, e: Exec)
    requires Accounts(n, e) && |e.trace| <= n
    ensures |Arrivals(e.trace)| <= n - Skips(e.trace)
    ensures Result(e.state.acc) == MergeAll(n - Skips(e.trace), Arrivals(e.trace))
  {
    SkipsAndCalls(e.trace);
    FoldPending(n, n - Skips(e.trace), Arrivals(e.trace));
  }

  /** Every backend called answered completely, and with data where `several` were. */
  predicate AllFine(trace: seq<Event>, several: bool) {
    forall j | 0 <= j < |trace| && trace[j].Called? ::
      Fine(trace[j].reply) && (several ==> trace[j].reply.data.Some?)
  }

  lemma CleanTrace(trace: seq<Event>)
    ensures Clean(Arrivals(trace)) <==> AllFine(trace, |Arrivals(trace)| >= 2)
  {
    var xs := Arrivals(trace);
    forall j | 0 <= j < |trace| && trace[j].Called? ensures Message(trace[j].reply) in xs {
      CalledArrive(trace, Message(trace[j].reply));
    }
    forall o | o in xs ensures exists j | 0 <= j < |trace| :: trace[j].Called? && Message(trace[j].reply) == o {
      CalledArrive(trace, o);
    }
  }

  predicate CompleteWhenAllFine(n: nat, e: Exec, merged: Merged) {
    merged.response.Some? ==>
      (merged.response.value.complete <==> |e.trace| == n && AllFine(e.trace, |e.trace| - Skips(e.trace) >= 2))
  }

  lemma ExecComplete(n: nat, e: Exec)
    requires Accounts(n, e) && |e.trace| <= n
    ensures CompleteWhenAllFine(n, e, Result(e.state.acc))
  {
    hide Accounts, Clean, AllFine, MergeAll, Result, Arrivals, Skips;
    ResultIsMerge(n, e);
    SkipsAndCalls(e.trace);
    var xs := Arrivals(e.trace);
    var merged := MergeAll(n - Skips(e.trace), xs);
    if merged.response.Some? {
      CompleteIff(n - Skips(e.trace), xs);
      CleanTrace(e.trace);
    }
  }

  /**
    A sequential result is complete exactly when the run went through all backends, every one it called
    answered completely, and, if it called several, all of them had data.
   */
  lemma SequentialComplete(c: Config, params: Params, replies: seq<Reply>)
    ensures var e := After(c, params, replies, |replies|);
            FinalOf(e).Ended? ==> CompleteWhenAllFine(|replies|, e, FinalOf(e).merged)
  {
    AfterAccounts(c, params, replies, |replies|);
    CallsUpToTheStop(c, params, replies, |replies|);
    ExecComplete(|replies|, After(c, params, replies, |replies|));
  }
}
