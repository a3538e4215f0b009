/** Raw bodies in the sequential merger: the first reference to the whole body of a backend consumes it. */
module RawBodies {
  import opened Wrappers
  import opened Json
  import opened Merging
  import opened Sequential
  import opened Registry

  /** The raw body that came with an answer. */
  function BodyOf(event: Event): Option<Body> {
    if event.Called? && event.reply.Delivered? then event.reply.io else None
  }

  /** The body of backend `idx`; nothing before its turn. */
  function BodyAt(trace: seq<Event>, idx: nat): Option<Body> {
    if idx < |trace| then BodyOf(trace[idx]) else None
  }

  /** What reading a body to the end gives. */
  function TextOf(body: Option<Body>): Option<string> {
    if body.Some? && !body.value.fails then Some(body.value.unread) else None
  }

  function FirstFull(refs: seq<Reference>, idx: nat): Option<Reference> {
    if refs == [] then None
    else
      var n := |refs| - 1;
      var before := FirstFull(refs[..n], idx);
      if before.Some? then before else if Whole(refs[n], idx) then Some(refs[n]) else None
  }

  predicate Whole(r: Reference, idx: nat) {
    r.Valid() && r.Full() && r.Index() == idx
  }

  /** The first reference to the whole body of backend `idx` among those used before the turn of backend `k`. */
  function Reader(c: Config, k: nat, idx: nat): Option<Reference> {
    if k == 0 then None
    else
      var before := Reader(c, k - 1, idx);
      if before.Some? || !(idx < k - 1 < |c.refs|) then before else FirstFull(c.refs[k - 1], idx)
  }

  /** A body that has a reader is drained, and its reader alone has the text in the registry. */
  predicate Consumed(s: State, idx: nat, body: Option<Body>, reader: Option<Reference>, r: Reference) {
    && (idx < |s.parts| ==>
          s.parts[idx].io == if reader.Some? && body.Some? then Some(body.value.Drained()) else body)
    && Entry(s.registry, r.Destination())
       == if reader == Some(r) && TextOf(body).Some? then TextOf(body).value else ""
  }

  ghost predicate AllConsumed(s: State, idx: nat, body: Option<Body>, reader: Option<Reference>) {
    forall r | Whole(r, idx) :: Consumed(s, idx, body, reader, r)
  }

  /** What a reference to a whole body is handed: its text for the reader, an empty one for anyone else. */
  function Given(body: Option<Body>, reader: Option<Reference>, r: Reference, before: Option<string>): Option<string> {
    if TextOf(body).None? then before else Some(if reader == Some(r) then TextOf(body).value else "")
  }

  function NextReader(reader: Option<Reference>, r: Reference, idx: nat): Option<Reference> {
    if reader.None? && Whole(r, idx) then Some(r) else reader
  }

  lemma UseConsumes(print_: Value -> string, s: State, used: Reference, idx: nat, body: Option<Body>,
                    reader: Option<Reference>, r: Reference)
    requires idx < |s.parts| && used.Valid() && Whole(r, idx)
    requires Consumed(s, idx, body, reader, r) && (Whole(used, idx) ==> Consumed(s, idx, body, reader, used))
    ensures var s', reader', d := Use(print_, s, used), NextReader(reader, used, idx), r.Destination();
            && Consumed(s', idx, body, reader', r)
            && Get(s'.params, d) == if used == r then Given(body, reader', r, Get(s.params, d)) else Get(s.params, d)
  {
    hide Lookup, Render;
    if used.Destination() == r.Destination() { DestinationInjective(used, r); }
  }

  /** All references of one turn, for a backend that has answered. */
  lemma {:induction false} UseAllConsumes(print_: Value -> string, s: State, refs: seq<Reference>, idx: nat,
                                          body: Option<Body>, r: Reference, reader: Option<Reference>)
    requires idx < |s.parts| && (forall i | 0 <= i < |refs| :: refs[i].Valid()) && Whole(r, idx)
    requires AllConsumed(s, idx, body, reader)
    ensures var s', d := UseAll(print_, s, refs), r.Destination();
            var reader' := if reader.Some? then reader else FirstFull(refs, idx);
            && AllConsumed(s', idx, body, reader')
            && Get(s'.params, d) == if r in refs then Given(body, reader', r, Get(s.params, d)) else Get(s.params, d)
  {
    hide Use, Consumed, Whole;
    if refs != [] {
      var n := |refs| - 1;
      UseAllConsumes(print_, s, refs[..n], idx, body, r, reader);
      UseAllShape(print_, s, refs[..n]);
      var s1, reader1 := UseAll(print_, s, refs[..n]), if reader.Some? then reader else FirstFull(refs[..n], idx);
      forall r' | Whole(r', idx)
        ensures Consumed(Use(print_, s1, refs[n]), idx, body, NextReader(reader1, refs[n], idx), r')
      {
        UseConsumes(print_, s1, refs[n], idx, body, reader1, r');
      }
      UseConsumes(print_, s1, refs[n], idx, body, reader1, r);
      assert refs == refs[..n] + [refs[n]];
    }
  }

  /** For a backend that has not answered yet, nothing is used. */
  lemma {:induction false} UseAllTooEarly(print_: Value -> string, s: State, refs: seq<Reference>, idx: nat, r: Reference)
    requires idx >= |s.parts| && (forall i | 0 <= i < |refs| :: refs[i].Valid()) && Whole(r, idx)
    ensures Entry(UseAll(print_, s, refs).registry, r.Destination()) == Entry(s.registry, r.Destination())
  {
    hide Lookup, Render;
    if refs != [] {
      var n := |refs| - 1;
      UseAllTooEarly(print_, s, refs[..n], idx, r);
      UseAllShape(print_, s, refs[..n]);
      if refs[n].Destination() == r.Destination() { DestinationInjective(refs[n], r); }
    }
  }

  lemma PreparedConsumes(c: Config, e: Exec, idx: nat, body: Option<Body>, reader: Option<Reference>)
    requires c.Valid() && |e.state.parts| == |e.trace| && AllConsumed(e.state, idx, body, reader)
    requires idx >= |e.trace| ==> reader == None
    ensures AllConsumed(Prepared(c, e), idx, body,
                        if reader.Some? || !(idx < |e.trace| < |c.refs|) then reader else FirstFull(c.refs[|e.trace|], idx))
  {
    hide Whole, Use;
    PreparedShape(c, e);
    var i := |e.trace|;
    if 0 < i < |c.refs| {
      forall r | Whole(r, idx)
        ensures Consumed(Prepared(c, e), idx, body,
                         if reader.Some? || !(idx < i) then reader else FirstFull(c.refs[i], idx), r)
      {
        if idx < i { UseAllConsumes(c.print_, e.state, c.refs[i], idx, body, r, reader); }
        else { UseAllTooEarly(c.print_, e.state, c.refs[i], idx, r); }
      }
    }
  }

  /** The rest of a turn adds a part with its body and leaves the others' bodies and the registry alone. */
  lemma TurnBodies(c: Config, e: Exec, reply: Reply, idx: nat)
    requires |e.state.parts| == |e.trace| && !Turn(c, e, reply).stopped
    ensures var s, s' := Prepared(c, e), Turn(c, e, reply).state;
            && |s.parts| == |e.trace| && |s'.parts| == |e.trace| + 1 == |Turn(c, e, reply).trace|
            && s'.registry == s.registry
            && (idx < |e.trace| ==>
                  s'.parts[idx].io == s.parts[idx].io && BodyAt(Turn(c, e, reply).trace, idx) == BodyAt(e.trace, idx))
            && (idx == |e.trace| ==> s'.parts[idx].io == BodyAt(Turn(c, e, reply).trace, idx))
  {
    hide Prepared, Step;
    PreparedShape(c, e);
  }

  /** Throughout a run a body is drained once it has a reader, and its text is in the registry for the reader alone. */
  lemma {:induction false} BodiesConsumed(c: Config, params: Params, replies: seq<Reply>, k: nat, idx: nat)
    requires c.Valid() && k <= |replies| && !After(c, params, replies, k).stopped
    ensures var e := After(c, params, replies, k);
            && |e.state.parts| == |e.trace| == k
            && AllConsumed(e.state, idx, BodyAt(e.trace, idx), Reader(c, k, idx))
            && (idx >= k ==> Reader(c, k, idx) == None)
  {
    hide Turn, Prepared, Whole, FirstFull;
    if k > 0 {
      var e := After(c, params, replies, k - 1);
      BodiesConsumed(c, params, replies, k - 1, idx);
      PreparedConsumes(c, e, idx, BodyAt(e.trace, idx), Reader(c, k - 1, idx));
      TurnBodies(c, e, replies[k - 1], idx);
    }
  }

  /**
    What backend `k` is handed for a reference to the whole body of an earlier backend. A body that can be
    read goes to its first reader, at that turn and at every later one; any other reference gets an empty
    text. A missing body and one whose reading fails leave the parameter as it was.
   */
  lemma WholeBodyIs(c: Config, params: Params, replies: seq<Reply>, k: nat, r: Reference)
    requires c.Valid() && k < |replies| && !After(c, params, replies, k).stopped
    requires Refers(c, k, r) && r.Full() && r.Index() < k
    ensures var e, e' := After(c, params, replies, k), After(c, params, replies, k + 1);
            && |e.trace| == k && |e'.trace| == k + 1
            && Get(e'.trace[k].params, r.Destination())
               == Given(BodyAt(e.trace, r.Index()), Reader(c, k + 1, r.Index()), r, Get(e.state.params, r.Destination()))
  {
    hide Turn, After, FirstFull;
    var e, idx := After(c, params, replies, k), r.Index();
    assert r.Valid();
    BodiesConsumed(c, params, replies, k, idx);
    AfterNext(c, params, replies, k);
    TurnPrepares(c, e, replies[k]);
    UseAllConsumes(c.print_, e.state, c.refs[k], idx, BodyAt(e.trace, idx), r, Reader(c, k, idx));
  }
}
