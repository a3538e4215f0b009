/**
  The sequential merger as code: a loop over the backends with one-slot channels, a registry, the
  request's parameters edited in place, and an accumulator that grows one of the response maps it was
  given. It is proved to do what `Sequential` says on values.
 */
module SequentialMerge {
  import opened Wrappers
  import opened Json
  import Merging
  import Paths
  import opened Sequential
  import opened MergeAccumulator

  class Request {
    var params: Params

    constructor (params: Params)
      ensures this.params == params
    {
      this.params := params;
    }
  }

  /** A buffered channel of capacity one. */
  class Slot<T> {
    var item: Option<T>

    constructor ()
      ensures item == None
    {
      item := None;
    }
  }

  /** What a backend will answer when called, with its response on the heap. */
  datatype Answer =
    | Deliver(response: Response, lost: Option<Merging.Error>)
    | Silence
    | Broken(error: Merging.Error)

  function Delivery(a: Answer): Response? {
    if a.Deliver? then a.response else null
  }

  ghost function ReplyOf(a: Answer): Reply
    reads Delivery(a), if a.Deliver? then a.response.data else null
  {
    match a
    case Deliver(r, lost) => Delivered(r.View().data, r.isComplete, r.io, lost)
    case Silence => Nothing
    case Broken(e) => Fault(e)
  }

  ghost function PartOf(r: Response): Part
    reads r, r.data
  {
    Part(r.View().data, r.io)
  }

  /** What a call fails with: its own error, that of no response at all, or that of the context. */
  function ErrorOf(a: Answer): Option<Merging.Error> {
    match a
    case Deliver(_, lost) => lost
    case Silence => Some(Merging.NullResult)
    case Broken(e) => Some(e)
  }

  /** Call a backend and post its one message. */
  method RequestPart(answer: Answer, out: Slot<Response>, failed: Slot<Merging.Error>)
    requires out.item == None && failed.item == None
    modifies out, failed
    ensures match answer
            case Broken(e) => out.item == None && failed.item == Some(e)
            case Silence => out.item == None && failed.item == Some(Merging.NullResult)
            case Deliver(r, lost) => if lost.Some? then out.item == None && failed.item == lost
                                     else out.item == Some(r) && failed.item == None
    ensures (if out.item.Some? then Merging.Got(out.item.value.View()) else Merging.Failed(failed.item.value))
         == Message(ReplyOf(answer))
  {
    match answer
    case Broken(e) =>
      failed.item := Some(e);
    case Silence =>
      failed.item := Some(Merging.NullResult);
    case Deliver(r, lost) =>
      if lost.None? {
        out.item := Some(r);
      } else {
        failed.item := Some(lost.value);
      }
  }

  /** Look a path up in a part, giving up on the way down at the first key that does not lead to an object. */
  method LookupPart(part: Response, source: Json.Path) returns (v: Option<Value>)
    requires source != []
    ensures v == Lookup(Content(PartOf(part)), source)
  {
    var data: Fields := if part.data == null then map[] else part.data.entries;
    ghost var start := data;
    var keys := source[..|source| - 1];
    var i := 0;
    assert keys[0..] == keys;
    while i < |keys| && keys[i] in data && data[keys[i]].Object?
      invariant 0 <= i <= |keys|
      invariant Walk(start, keys) == Walk(data, keys[i..])
    {
      data := data[keys[i]].fields;
      i := i + 1;
    }
    var last := source[|source| - 1];
    v := if last in data then Some(data[last]) else None;
  }

  /** Text is handed through, and the printed items of a list are joined by commas. */
  method RenderParam(print_: Value -> string, v: Value) returns (param: string)
    ensures param == Render(print_, v)
    ensures v.Text? ==> param == v.text
    ensures !v.Text? && !v.List? ==> param == print_(v)
    ensures v.List? ==>
      var items := v.items;
      && (|items| == 0 ==> param == "")
      && (|items| == 1 ==> param == print_(items[0]))
      && (|items| == 2 ==> param == print_(items[0]) + "," + print_(items[1]))
      && ((forall item <- items :: ',' !in print_(item)) && |items| > 0 ==>
            && |Paths.SplitAt(param, ',')| == |items|
            && forall i | 0 <= i < |items| :: Paths.SplitAt(param, ',')[i] == print_(items[i]))
  {
    match v
    case List(items) =>
      if |items| == 0 {
        return "";
      }
      ghost var parts := Printed(print_, items);
      var b := "";
      for i := 0 to |items| - 1
        invariant b == if i == 0 then "" else Paths.Join(parts[..i], ',') + ","
      {
        if i > 0 { Paths.JoinSnoc(parts[..i], parts[i], ','); }
        assert parts[..i + 1] == parts[..i] + [parts[i]];
        b := b + print_(items[i]) + ",";
      }
      param := b + print_(items[|items| - 1]);
      ListJoined(parts, b, param);
    case Text(text) => param := text;
    case _ => param := print_(v);
  }

  /** After the last item all of them are joined. */
  lemma ListJoined(parts: seq<string>, b: string, param: string)
    requires parts != [] && param == b + parts[|parts| - 1]
    requires b == if |parts| == 1 then "" else Paths.Join(parts[..|parts| - 1], ',') + ","
    ensures param == Paths.Join(parts, ',')
    ensures |parts| == 2 ==> param == parts[0] + "," + parts[1]
    ensures (forall part <- parts :: ',' !in part) ==> Paths.SplitAt(param, ',') == parts
  {
    var n := |parts| - 1;
    if n > 0 { Paths.JoinSnoc(parts[..n], parts[n], ','); }
    assert parts == parts[..n] + [parts[n]];
    if forall part <- parts :: ',' !in part { Paths.JoinSplit(parts, ','); }
  }

  // ---- Filling in the parameters of one backend

  /** The heap shows the state `s`, in which the first `|s.parts|` backends have had their turn. */
  ghost predicate Mirrors(s: State, parts: seq<Response?>, request: Request, registry: map<string, string>)
    reads request, parts, Maps(parts)
  {
    && |s.parts| <= |parts|
    && request.params == s.params && registry == s.registry
    && (forall j | 0 <= j < |s.parts| :: parts[j] != null && PartOf(parts[j]) == s.parts[j])
    && (forall j, k | 0 <= j < k < |s.parts| :: parts[j] != parts[k])
  }

  /** One reference of backend `i`. */
  method UseReference(print_: Value -> string, r: Reference, i: nat, ghost s: State,
                      parts: seq<Response?>, request: Request, registry: map<string, string>)
    returns (registry': map<string, string>)
    requires Mirrors(s, parts, request, registry) && i == |s.parts|
    modifies request, (set p | p in parts && p != null)`io
    ensures Mirrors(Use(print_, s, r), parts, request, registry')
  {
    registry' := registry;
    var idx := r.Index();
    if idx >= i || parts[idx] == null {
      return;
    }
    var destination := r.Destination();
    if destination in registry && registry[destination] != "" {
      request.params := request.params[destination := registry[destination]];
      return;
    }
    if r.Full() {
      if parts[idx].io == None {
        return;
      }
      assert parts[idx] in parts;
      var body := parts[idx].io.value;
      parts[idx].io := Some(body.Drained());
      if !body.fails {
        request.params := request.params[destination := body.unread];
        registry' := registry[destination := body.unread];
      }
      return;
    }
    var v := LookupPart(parts[idx], r.Source());
    if v == None {
      return;
    }
    var param := RenderParam(print_, v.value);
    request.params := request.params[destination := param];
    registry' := registry[destination := param];
  }

  method UseReferences(print_: Value -> string, refs: seq<Reference>, i: nat, ghost s: State,
                       parts: seq<Response?>, request: Request, registry: map<string, string>)
    returns (registry': map<string, string>)
    requires Mirrors(s, parts, request, registry) && i == |s.parts|
    modifies request, (set p | p in parts && p != null)`io
    ensures Mirrors(UseAll(print_, s, refs), parts, request, registry')
  {
    registry' := registry;
    ghost var s' := s;
    for k := 0 to |refs|
      invariant s' == UseAll(print_, s, refs[..k]) && |s'.parts| == i
      invariant Mirrors(s', parts, request, registry')
    {
      assert refs[..k + 1][..k] == refs[..k];
      UseAllShape(print_, s, refs[..k + 1]);
      registry' := UseReference(print_, refs[k], i, s', parts, request, registry');
      s' := Use(print_, s', refs[k]);
    }
    assert refs[..|refs|] == refs;
  }

  // ---- Who holds which map

  /**
    The accumulator's map is the one of part `s.grown`, and otherwise nobody else's. `all` lists the
    parts had so far, then the answers to come.
   */
  ghost predicate Owns(s: State, acc: Accumulator, all: seq<Response?>, i: nat)
    reads acc
  {
    && (acc.data != null ==> forall j | i <= j < |all| :: all[j] != acc.data)
    && (s.grown.Some? ==>
          && s.grown.value < i && s.grown.value < |all| && all[s.grown.value] != null
          && all[s.grown.value].data != null && acc.Grown() == all[s.grown.value].data)
    && (s.grown.None? && acc.Grown() != null ==>
          forall j | 0 <= j < |all| && all[j] != null :: all[j].data != acc.Grown())
  }

  /** Everything a run may touch is in `own`. */
  ghost predicate Owned(own: set<object>, acc: Accumulator, all: seq<Response?>)
    reads own
  {
    && acc in own
    && (acc.data != null ==> acc.data in own && (acc.data.data != null ==> acc.data.data in own))
    && (forall j | 0 <= j < |all| && all[j] != null :: all[j] in own && (all[j].data != null ==> all[j].data in own))
  }

  /** The parts had so far show `s`, and so does the accumulator. */
  ghost predicate Linked(own: set<object>, s: State, acc: Accumulator, all: seq<Response?>)
    reads own
  {
    var i := |s.parts|;
    && i <= |all|
    && Owned(own, acc, all)
    && (forall j | 0 <= j < i :: all[j] != null && PartOf(all[j]) == s.parts[j])
    && acc.View() == s.acc
    && Owns(s, acc, all, i)
  }

  /** Merge the response of backend `|s.parts|`. */
  method MergePart(ghost own: set<object>, acc: Accumulator, res: Response, ghost s: State, ghost all: seq<Response?>)
    requires Separate(all) && Linked(own, s, acc, all)
    requires |s.parts| < |all| && all[|s.parts|] == res
    modifies acc, (if acc.data == null then {} else {acc.data})`isComplete,
             if acc.data == null then null else FirstMap(acc.data, res)
    ensures var s' := Absorb(s, Merging.Got(old(res.View())));
            && acc.View() == s'.acc
            && (forall j | 0 <= j < |s.parts| :: PartOf(all[j]) == s'.parts[j])
            && Owns(s', acc, all, |s.parts| + 1)
    ensures forall j | |s.parts| <= j < |all| && all[j] != null ::
              PartOf(all[j]) == old(PartOf(all[j])) && all[j].isComplete == old(all[j].isComplete)
    ensures acc.data != null && (acc.data == old(acc.data) || acc.data == res || fresh(acc.data))
    ensures acc.Grown() == old(acc.Grown()) || acc.Grown() == res.data || fresh(acc.Grown())
  {
    acc.Merge(res, None);
  }

  // ---- The whole run

  function Deliveries(answers: seq<Answer>): (all: seq<Response?>)
    ensures |all| == |answers|
    ensures forall j | 0 <= j < |answers| :: all[j] == Delivery(answers[j])
  {
    seq(|answers|, j requires 0 <= j < |answers| => Delivery(answers[j]))
  }

  ghost function Objects(all: seq<Response?>): set<Response?> {
    set p: Response? | p in all && p != null
  }

  ghost function RepliesOf(answers: seq<Answer>): (replies: seq<Reply>)
    reads Deliveries(answers), Maps(Deliveries(answers))
    ensures |replies| == |answers|
    ensures forall j | 0 <= j < |answers| :: replies[j] == ReplyOf(answers[j])
  {
    seq(|answers|, j requires 0 <= j < |answers| reads Deliveries(answers), Maps(Deliveries(answers)) =>
      assert Deliveries(answers)[j] in Deliveries(answers);
      ReplyOf(answers[j]))
  }

  function CallsOf(trace: seq<Event>): seq<(nat, Params)> {
    if trace == [] then []
    else
      var n := |trace| - 1;
      CallsOf(trace[..n]) + if trace[n].Called? then [(n, trace[n].params)] else []
  }

  /** The calls made are those of the backends called, with the parameters as they were then. */
  lemma {:induction false} CallsListed(trace: seq<Event>, i: nat, params: Params)
    ensures (i, params) in CallsOf(trace) <==> i < |trace| && trace[i].Called? && trace[i].params == params
  {
    if trace == [] {
      assert CallsOf(trace) == [];
    }
    hide CallsOf;
    if trace != [] {
      var n := |trace| - 1;
      CallsListed(trace[..n], i, params);
      CallsSnoc(trace[..n], trace[n]);
      assert trace == trace[..n] + [trace[n]];
    }
  }

  /** They are made in index order. */
  lemma {:induction false} CallsInOrder(trace: seq<Event>)
    ensures forall j | 0 <= j < |CallsOf(trace)| :: CallsOf(trace)[j].0 < |trace|
    ensures forall j, k | 0 <= j < k < |CallsOf(trace)| :: CallsOf(trace)[j].0 < CallsOf(trace)[k].0
  {
    if trace != [] {
      var n := |trace| - 1;
      var before := CallsOf(trace[..n]);
      CallsInOrder(trace[..n]);
      assert CallsOf(trace) == before || CallsOf(trace) == before + [(n, trace[n].params)];
    }
  }

  /** Slots of `parts` are filled for the backends already dealt with. */
  ghost predicate Filled(parts: seq<Response?>, all: seq<Response?>, i: nat) {
    && |parts| == |all| && i <= |all|
    && forall j | 0 <= j < |all| :: parts[j] == if j < i then all[j] else null
  }

  /** The answers from backend `k` on are still as they were. */
  ghost predicate Pending(own: set<object>, all: seq<Response?>, answers: seq<Answer>, replies: seq<Reply>, k: nat)
    reads own
  {
    && |all| == |answers| == |replies|
    && (forall j | k <= j < |all| && all[j] != null :: all[j] in own && (all[j].data != null ==> all[j].data in own))
    && forall j | k <= j < |all| :: all[j] == Delivery(answers[j]) && ReplyOf(answers[j]) == replies[j]
  }

  /** Between two turns: everything had so far shows `e`, and what is to come is as it was. */
  ghost predicate Between(own: set<object>, e: Exec, acc: Accumulator, all: seq<Response?>,
          answers: seq<Answer>, replies: seq<Reply>)
    reads own
  {
    && |e.state.parts| == |e.trace| && Separate(all) && Linked(own, e.state, acc, all)
    && Pending(own, all, answers, replies, |e.trace|)
  }

  /** The same after the references of the next backend have been filled in. */
  ghost predicate Ready(c: Config, own: set<object>, e: Exec, acc: Accumulator, all: seq<Response?>,
          answers: seq<Answer>, replies: seq<Reply>)
    reads own
  {
    var s := Prepared(c, e);
    && |s.parts| == |e.trace| < |all| && Separate(all) && Linked(own, s, acc, all)
    && Pending(own, all, answers, replies, |e.trace|)
  }

  method PrepareTurn(c: Config, ghost own: set<object>, i: nat, ghost e: Exec, ghost acc: Accumulator,
                     parts: seq<Response?>, ghost all: seq<Response?>, ghost answers: seq<Answer>, ghost replies: seq<Reply>,
                     request: Request, registry: map<string, string>)
    returns (registry': map<string, string>)
    requires Between(own, e, acc, all, answers, replies) && i == |e.trace| < |all| && Filled(parts, all, i)
    requires request.params == e.state.params && registry == e.state.registry
    modifies request, own
    ensures Ready(c, own, e, acc, all, answers, replies)
    ensures request.params == Prepared(c, e).params && registry' == Prepared(c, e).registry
  {
    registry' := registry;
    PreparedShape(c, e);
    if 0 < i < |c.refs| {
      registry' := UseReferences(c.print_, c.refs[i], i, e.state, parts, request, registry);
    }
  }

  method SkipTurn(c: Config, ghost own: set<object>, ghost e: Exec, acc: Accumulator, ghost all: seq<Response?>,
                  ghost answers: seq<Answer>, ghost replies: seq<Reply>)
    returns (skipped: Response)
    requires Ready(c, own, e, acc, all, answers, replies)
    requires c.Rejects(|e.trace|, Prepared(c, e).params)
    modifies own
    ensures fresh(skipped) && skipped.data != null && fresh(skipped.data)
    ensures Between(own + {skipped, skipped.data}, Turn(c, e, replies[|e.trace|]), acc, all[|e.trace| := skipped], answers, replies)
  {
    hide Absorb, Message, Merging.Step, Sequential.Prepared;
    var empty := new DataMap(map[]);
    skipped := new Response(empty, true);
    acc.pending := acc.pending - 1;
  }

  lemma TurnAbsorbs(c: Config, e: Exec, reply: Reply)
    requires !c.Rejects(|e.trace|, Prepared(c, e).params) && Message(reply).Got?
    ensures var s', e' := Absorb(Prepared(c, e), Message(reply)), Turn(c, e, reply);
            && e'.state.acc == s'.acc && e'.state.grown == s'.grown && |e'.trace| == |e.trace| + 1
            && (e'.stopped <==> !Fine(reply))
            && (Fine(reply) ==> e'.state == s'.(parts := s'.parts + [Part(Message(reply).response.data, reply.io)]))
  {
  }

  /** The same, with everything that the merge may have created counted in. */
  method MergeLinked(ghost own: set<object>, acc: Accumulator, res: Response, ghost s: State, ghost all: seq<Response?>)
    returns (ghost own': set<object>)
    requires Separate(all) && Linked(own, s, acc, all)
    requires |s.parts| < |all| && all[|s.parts|] == res
    modifies own
    ensures own <= own' && fresh(own' - own)
    ensures var s', part := Absorb(s, Merging.Got(old(res.View()))), old(PartOf(res));
            && Linked(own', s'.(parts := s'.parts + [part]), acc, all)
            && acc.View() == s'.acc
            && acc in own' && acc.data != null && acc.data in own' && (acc.data.data != null ==> acc.data.data in own')
    ensures res.isComplete == old(res.isComplete)
    ensures forall j | |s.parts| < j < |all| && all[j] != null ::
              PartOf(all[j]) == old(PartOf(all[j])) && all[j].isComplete == old(all[j].isComplete)
  {
    hide Merging.Step;
    MergePart(own, acc, res, s, all);
    own' := own + {acc.data} + if acc.data.data == null then {} else {acc.data.data};
  }

  method MergeTurn(c: Config, ghost own: set<object>, ghost e: Exec, acc: Accumulator, res: Response,
          ghost all: seq<Response?>,
                   ghost answers: seq<Answer>, ghost replies: seq<Reply>)
    returns (ghost own': set<object>)
    requires Ready(c, own, e, acc, all, answers, replies)
    requires answers[|e.trace|] == Deliver(res, None)
    requires !c.Rejects(|e.trace|, Prepared(c, e).params)
    modifies own
    ensures own <= own' && fresh(own' - own)
    ensures var e' := Turn(c, e, replies[|e.trace|]);
            && acc in own' && acc.data != null && acc.data in own' && (acc.data.data != null ==> acc.data.data in own')
            && acc.View() == e'.state.acc
            && (!e'.stopped ==> Between(own', e', acc, all, answers, replies))
            && (e'.stopped <==> !res.isComplete)
  {
    TurnAbsorbs(c, e, replies[|e.trace|]);
    hide Turn, Sequential.Prepared, Merging.Step, Linked, Absorb;
    own' := MergeLinked(own, acc, res, Prepared(c, e), all);
  }

  /** The variables of one request's run. */
  class Run {
    const c: Config
    const answers: seq<Answer>
    const request: Request
    const acc: Accumulator
    var i: nat
    var parts: seq<Response?>
    var registry: map<string, string>
    var calls: seq<(nat, Params)>
    var aborted: Option<Merging.Error>
    ghost const params0: Params
    ghost const replies: seq<Reply>
    ghost var e: Exec
    ghost var all: seq<Response?>
    ghost var own: set<object>

    /** What has happened so far is `e`, up to backend `k`. */
    ghost predicate Reached(k: nat)
      reads this
    {
      && this !in own && request !in own
      && |answers| == |replies| && k <= |answers|
      && e == After(c, params0, replies, k) && FinalOf(e).Ended?
      && calls == CallsOf(e.trace) && aborted == None
    }

    /** Before the turn of backend `i`. */
    ghost predicate Valid()
      reads this, own, request
    {
      && Reached(i) && i == |e.trace| && !e.stopped
      && Between(own, e, acc, all, answers, replies) && Filled(parts, all, i)
      && request.params == e.state.params && registry == e.state.registry
    }

    /** The same, with the references of backend `i` filled in. */
    ghost predicate Prepared()
      reads this, own, request
    {
      && Reached(i) && i == |e.trace| < |answers| == |all| && !e.stopped
      && Ready(c, own, e, acc, all, answers, replies) && Filled(parts, all, i)
      && request.params == Sequential.Prepared(c, e).params && registry == Sequential.Prepared(c, e).registry
    }

    /** The run is over, with an error of backend 0 or with what the accumulator holds. */
    ghost predicate Over()
      reads this, own, request
    {
      && this !in own && request !in own && acc in own
      && (acc.data != null ==> acc.data in own && (acc.data.data != null ==> acc.data.data in own))
      && |answers| == |replies| && e == After(c, params0, replies, |answers|)
      && request.params == e.state.params
      && calls == CallsOf(e.trace)
      && match FinalOf(e)
         case Aborted(error) => aborted == Some(error)
         case Ended(_) => aborted == None && acc.View() == e.state.acc
    }

    lemma OverAtTheEnd()
      requires Valid() && i == |answers|
      ensures Over()
    {
    }

    constructor (c: Config, answers: seq<Answer>, request: Request)
      requires Separate(Deliveries(answers))
      ensures Valid() && i == 0 && this.c == c && this.answers == answers && this.request == request
      ensures params0 == request.params && replies == RepliesOf(answers)
      ensures fresh(this) && fresh(own - (Objects(Deliveries(answers)) + Maps(Deliveries(answers))))
    {
      this.c, this.answers, this.request := c, answers, request;
      var a := new Accumulator(|answers|);
      acc := a;
      i, parts, registry, calls, aborted := 0, seq(|answers|, _ => null), map[], [], None;
      params0, replies, e := request.params, RepliesOf(answers), Start(|answers|, request.params);
      all := Deliveries(answers);
      own := {a} + Objects(Deliveries(answers)) + Maps(Deliveries(answers));
    }

    /** Hand earlier values to backend `i`. */
    method Prepare()
      requires Valid() && i < |answers|
      modifies this, own, request
      ensures unchanged(`i, `parts, `calls, `aborted, `e, `all, `own)
      ensures Prepared()
    {
      registry := PrepareTurn(c, own, i, e, acc, parts, all, answers, replies, request, registry);
    }

    /** Backend `i` is filtered out: it counts as an empty, complete part. */
    method Skip()
      requires Prepared() && c.Rejects(i, request.params)
      modifies this, own
      ensures Valid() && i == old(i) + 1 && fresh(own - old(own))
    {
      hide Turn, Sequential.Prepared, After, CallsOf, Between, Ready, FinalOf, Merging.Result;
      SkippingTurn(c, params0, replies, e);
      var skipped := SkipTurn(c, own, e, acc, all, answers, replies);
      parts := parts[i := skipped];
      all := all[i := skipped];
      own := own + {skipped, skipped.data};
      e := Turn(c, e, replies[i]);
      i := i + 1;
    }

    /** The call of backend `i` brought an error: the very first backend's is final at once. */
    method Fail(err: Merging.Error)
      requires Prepared() && !c.Rejects(i, request.params) && Message(replies[i]) == Merging.Failed(err)
      modifies this, own
      ensures Over() && fresh(own - old(own))
    {
      CallingTurn(c, params0, replies, e);
      calls := calls + [(i, request.params)];
      e := Turn(c, e, replies[i]);
      if i == 0 {
        aborted := Some(err);
      } else {
        acc.Merge(null, Some(err));
      }
    }

    /** The response of backend `i` is merged, but the loop has not looked at it yet. */
    ghost predicate Merged(response: Response)
      reads this, own, request, response
    {
      if response.isComplete then
        && Reached(i + 1) && |e.trace| == i + 1 && !e.stopped
        && Between(own, e, acc, all, answers, replies)
        && i < |all| && all[i] == response && Filled(parts, all, i)
        && request.params == e.state.params && registry == e.state.registry
      else Over()
    }

    method Accept(response: Response)
      requires Prepared() && !c.Rejects(i, request.params)
      requires answers[i] == Deliver(response, None)
      modifies this, own
      ensures Merged(response) && fresh(own - old(own)) && i == old(i)
    {
      hide Turn, Sequential.Prepared, After, CallsOf, Between;
      CallingTurn(c, params0, replies, e);
      calls := calls + [(i, request.params)];
      own := MergeTurn(c, own, e, acc, response, all, answers, replies);
      e := Turn(c, e, replies[i]);
    }

    /** A complete response is kept for the backends to come. */
    method Keep(response: Response)
      requires Merged(response) && response.isComplete
      modifies this
      ensures Valid() && i == old(i) + 1 && own == old(own)
    {
      hide Turn, Sequential.Prepared, After, CallsOf, Between, FinalOf;
      parts := parts[i := response];
      i := i + 1;
    }

    /** The turn of backend `i`; its call leaves both channels empty again. */
    method Next(out: Slot<Response>, failed: Slot<Merging.Error>) returns (more: bool)
      requires Valid() && i < |answers|
      requires out !in own && failed !in own && out.item == None && failed.item == None
      modifies this, own, request, out, failed
      ensures fresh(own - old(own)) && out.item == None && failed.item == None
      ensures if more then Valid() && i == old(i) + 1 else Over()
    {
      hide Turn, Sequential.Prepared, After, CallsOf, Between, Linked, Separate, FinalOf, Message, ReplyOf;
      Prepare();
      if c.Rejects(i, request.params) {
        Skip();
        return true;
      }
      RequestPart(answers[i], out, failed);
      if failed.item.Some? {
        var err := failed.item.value;
        failed.item := None;
        Fail(err);
        return false;
      }
      var response := out.item.value;
      out.item := None;
      Accept(response);
      if !response.isComplete {
        return false;
      }
      Keep(response);
      return true;
    }

    /** What is returned to the caller. */
    method Conclude() returns (result: Response?, errs: seq<Merging.Error>)
      requires Over()
      modifies own
      ensures e == After(c, params0, replies, |answers|) && |answers| == |replies|
      ensures calls == CallsOf(e.trace) && request.params == e.state.params
      ensures match FinalOf(e)
              case Aborted(error) => aborted == Some(error) && result == null && errs == []
              case Ended(merged) => aborted == None && Merging.Merged(ViewOf(result), errs) == merged
    {
      hide After, CallsOf, Merging.Result;
      if aborted.Some? {
        return null, [];
      }
      result, errs := acc.Result();
    }
  }

  method Merge(c: Config, answers: seq<Answer>, request: Request)
    returns (calls: seq<(nat, Params)>, aborted: Option<Merging.Error>, result: Response?, errs: seq<Merging.Error>)
    requires Separate(Deliveries(answers))
    modifies request, Objects(Deliveries(answers)), Maps(Deliveries(answers))
    ensures var e := After(c, old(request.params), old(RepliesOf(answers)), |answers|);
            && calls == CallsOf(e.trace)
            && request.params == e.state.params
            && match FinalOf(e)
               case Aborted(error) => aborted == Some(error) && result == null && errs == []
               case Ended(merged) => aborted == None && Merging.Merged(ViewOf(result), errs) == merged
    ensures aborted == if |answers| > 0 && !c.Rejects(0, old(request.params)) then ErrorOf(answers[0]) else None
  {
    hide Turn, Sequential.Prepared, After, CallsOf, Between, Ready, FinalOf, ViewOf, RepliesOf, Filled, Run.Over;
    var out := new Slot<Response>();
    var failed := new Slot<Merging.Error>();
    var run := new Run(c, answers, request);
    ghost var given: set<object> := Objects(Deliveries(answers)) + Maps(Deliveries(answers));
    var more := true;
    while more && run.i < |answers|
      invariant fresh(run) && fresh(run.own - given)
      invariant out !in run.own && failed !in run.own && out.item == None && failed.item == None
      invariant if more then run.Valid() else run.Over()
      decreases more, |answers| - run.i
    {
      more := run.Next(out, failed);
    }
    if more { run.OverAtTheEnd(); }
    FinalIs(c, old(request.params), old(RepliesOf(answers)));
    result, errs := run.Conclude();
    calls, aborted := run.calls, run.aborted;
  }

  lemma LastTurn(c: Config, params0: Params, replies: seq<Reply>, e: Exec)
    requires |e.trace| < |replies| && e == After(c, params0, replies, |e.trace|) && !e.stopped
    ensures Turn(c, e, replies[|e.trace|]) == After(c, params0, replies, |e.trace| + 1)
    ensures Turn(c, e, replies[|e.trace|]).stopped ==>
              Turn(c, e, replies[|e.trace|]) == After(c, params0, replies, |replies|)
  {
    hide Turn;
    if Turn(c, e, replies[|e.trace|]).stopped { StoppedStays(c, params0, replies, |e.trace| + 1, |replies|); }
  }

  /** What a turn that calls its backend leaves behind, apart from the merge itself. */
  lemma CallingTurn(c: Config, params0: Params, replies: seq<Reply>, e: Exec)
    requires |e.trace| < |replies| && e == After(c, params0, replies, |e.trace|) && !e.stopped
    requires !c.Rejects(|e.trace|, Prepared(c, e).params)
    ensures var i, s := |e.trace|, Prepared(c, e);
            var reply, e' := replies[i], Turn(c, e, replies[i]);
            && |e'.trace| == i + 1 && e' == After(c, params0, replies, i + 1)
            && (e'.stopped ==> e' == After(c, params0, replies, |replies|))
            && (e'.stopped <==> !Fine(reply))
            && CallsOf(e'.trace) == CallsOf(e.trace) + [(i, s.params)]
            && e'.state.params == s.params && e'.state.registry == s.registry
            && (Message(reply).Failed? ==> e'.state.acc == Merging.Step(s.acc, Message(reply)))
            && FinalOf(e') == if i == 0 && Message(reply).Failed? then Aborted(Message(reply).error)
                              else Ended(Merging.Result(e'.state.acc))
  {
    hide After;
    LastTurn(c, params0, replies, e);
    CallsSnoc(e.trace, Called(Prepared(c, e).params, replies[|e.trace|]));
  }

  lemma SkippingTurn(c: Config, params0: Params, replies: seq<Reply>, e: Exec)
    requires |e.trace| < |replies| && e == After(c, params0, replies, |e.trace|) && !e.stopped
    requires c.Rejects(|e.trace|, Prepared(c, e).params)
    ensures var i, s := |e.trace|, Prepared(c, e);
            var e' := Turn(c, e, replies[i]);
            && |e'.trace| == i + 1 && e' == After(c, params0, replies, i + 1) && !e'.stopped
            && CallsOf(e'.trace) == CallsOf(e.trace)
            && e'.state.params == s.params && e'.state.registry == s.registry
            && FinalOf(e').Ended?
  {
    CallsSnoc(e.trace, Skipped(Prepared(c, e).params));
  }

  lemma CallsSnoc(trace: seq<Event>, event: Event)
    ensures CallsOf(trace + [event])
         == CallsOf(trace) + if event.Called? then [(|trace|, event.params)] else []
  {
    assert (trace + [event])[..|trace|] == trace;
  }
}
