/** Where the messages of a fork-join come from: each tells what its call returned, earlier in the same run. */
module Histories {
  import opened Wrappers
  import opened Merging
  import opened ForkJoin

  /** One step of a board: a step of a call, of the collector or of the contexts, or none. */
  ghost predicate Moves(b: Board, b': Board) {
    || b' == b || b' == b.(done := true)
    || exists a :: Enabled(b, a) && (b' == Apply(b, a) || ((a.TakePart? || a.TakeError?) && b' == Apply(b, a).(done := true)))
  }

  /** Any sequence of steps from a board on which nothing has happened. */
  ghost predicate IsHistory(bs: seq<Board>) {
    && bs != []
    && (forall c <- bs[0].calls :: c.Idle?)
    && forall i | 0 < i < |bs| :: Moves(bs[i - 1], bs[i])
  }

  /** Step `k` is the return of call `c`, with this reply. */
  ghost predicate Heard(bs: seq<Board>, k: nat, c: nat, reply: Reply) {
    && 0 < k < |bs|
    && Enabled(bs[k - 1], Return(c, reply))
    && bs[k] == Apply(bs[k - 1], Return(c, reply))
  }

  /**
    What a call may post after it has returned: the response it got, its own error, or the error that stands for
    no response. A response may also be given up for an error, once the context is done.
   */
  predicate Tells(m: Outcome, reply: Reply, done: bool) {
    match reply
    case Answer(r) => m == Got(r) || (m.Failed? && done)
    case Fault(e) => m == Failed(e)
    case NoAnswer => m == Failed(NullResult)
  }

  /** Step `p` is that of call `c` posting `m`. */
  ghost predicate Posted(bs: seq<Board>, p: nat, c: nat, m: Outcome) {
    && 0 < p < |bs| && c < |bs[p - 1].calls| == |bs[p].calls|
    && bs[p - 1].calls[c].Returned? && bs[p].calls[c] == Queued(m)
  }

  /** `m` was posted by call `c`, after it had returned `reply`, and tells it. */
  ghost predicate Told(bs: seq<Board>, i: nat, c: nat, reply: Reply, m: Outcome) {
    exists k, p | 0 < k < p <= i ::
      Heard(bs, k, c, reply) && Posted(bs, p, c, m) && Tells(m, reply, bs[p - 1].done)
  }

  /** What a board says of a call, traced back to what the call returned. */
  ghost predicate Traced(bs: seq<Board>, i: nat, c: nat)
    requires i < |bs| && c < |bs[i].calls|
  {
    match bs[i].calls[c]
    case Returned(reply) => exists k | 0 < k <= i :: Heard(bs, k, c, reply)
    case Queued(m) => exists reply :: Told(bs, i, c, reply, m)
    case Taken(m) => exists reply :: Told(bs, i, c, reply, m)
    case _ => true
  }

  lemma MovesSize(b: Board, b': Board)
    requires Moves(b, b')
    ensures |b'.calls| == |b.calls|
  {
  }

  /** In every run, every message was posted by its call after that call had returned what the message tells. */
  lemma {:induction false} EveryMessageTraced(bs: seq<Board>, i: nat, c: nat)
    requires IsHistory(bs) && i < |bs| && c < |bs[i].calls|
    ensures Traced(bs, i, c)
  {
    if i == 0 {
      assert bs[0].calls[c] in bs[0].calls;
    } else {
      MovesSize(bs[i - 1], bs[i]);
      EveryMessageTraced(bs, i - 1, c);
      StepTraced(bs, i, c);
    }
  }

  lemma StepTraced(bs: seq<Board>, i: nat, c: nat)
    requires 0 < i < |bs| && Moves(bs[i - 1], bs[i])
    requires c < |bs[i - 1].calls| == |bs[i].calls| && Traced(bs, i - 1, c)
    ensures Traced(bs, i, c)
  {
    var b, b' := bs[i - 1], bs[i];
    if b'.calls[c] == b.calls[c] {
      SameTraced(bs, i, c);
    } else {
      var a :| Enabled(b, a) && (b' == Apply(b, a) || ((a.TakePart? || a.TakeError?) && b' == Apply(b, a).(done := true)));
      match a
      case Return(_, reply) => assert Heard(bs, i, c, reply);
      case PostPart(_) => PostTraced(bs, i, c);
      case PostError(_, _) => PostTraced(bs, i, c);
      case TakePart => TakeTraced(bs, i, c);
      case TakeError => TakeTraced(bs, i, c);
      case _ =>
    }
  }

  lemma SameTraced(bs: seq<Board>, i: nat, c: nat)
    requires 0 < i < |bs| && c < |bs[i - 1].calls| == |bs[i].calls|
    requires Traced(bs, i - 1, c) && bs[i].calls[c] == bs[i - 1].calls[c]
    ensures Traced(bs, i, c)
  {
    hide Heard, Posted, Tells;
    match bs[i].calls[c]
    case Queued(m) => ToldLater(bs, i - 1, i, c, m);
    case Taken(m) => ToldLater(bs, i - 1, i, c, m);
    case _ =>
  }

  lemma ToldLater(bs: seq<Board>, j: nat, i: nat, c: nat, m: Outcome)
    requires j <= i && exists reply :: Told(bs, j, c, reply, m)
    ensures exists reply :: Told(bs, i, c, reply, m)
  {
    hide Heard, Posted, Tells;
    var reply :| Told(bs, j, c, reply, m);
    assert Told(bs, i, c, reply, m);
  }

  lemma PostTraced(bs: seq<Board>, i: nat, c: nat)
    requires 0 < i < |bs| && c < |bs[i - 1].calls| == |bs[i].calls| && Traced(bs, i - 1, c)
    requires bs[i - 1].calls[c].Returned? && bs[i].calls[c].Queued?
    requires Tells(bs[i].calls[c].message, bs[i - 1].calls[c].reply, bs[i - 1].done)
    ensures Traced(bs, i, c)
  {
    hide Heard, Tells;
    var reply, m := bs[i - 1].calls[c].reply, bs[i].calls[c].message;
    var k :| 0 < k <= i - 1 && Heard(bs, k, c, reply);
    assert Posted(bs, i, c, m);
    assert Told(bs, i, c, reply, m);
  }

  lemma TakeTraced(bs: seq<Board>, i: nat, c: nat)
    requires 0 < i < |bs| && c < |bs[i - 1].calls| == |bs[i].calls| && Traced(bs, i - 1, c)
    requires bs[i - 1].calls[c].Queued? && bs[i].calls[c] == Taken(bs[i - 1].calls[c].message)
    ensures Traced(bs, i, c)
  {
    ToldLater(bs, i - 1, i, c, bs[i].calls[c].message);
  }

  lemma {:induction false} SameSize(bs: seq<Board>, j: nat, i: nat)
    requires IsHistory(bs) && j <= i < |bs|
    ensures |bs[i].calls| == |bs[j].calls|
  {
    if j < i {
      SameSize(bs, j, i - 1);
      MovesSize(bs[i - 1], bs[i]);
    }
  }

  lemma ToldInRange(bs: seq<Board>, i: nat, c: nat, reply: Reply, m: Outcome)
    requires IsHistory(bs) && i < |bs| && Told(bs, i, c, reply, m)
    ensures c < |bs[i].calls|
  {
    hide Moves;
    var k, p :| 0 < k < p <= i && Heard(bs, k, c, reply) && Posted(bs, p, c, m) && Tells(m, reply, bs[p - 1].done);
    SameSize(bs, p, i);
  }

  /** The message of a call that has made its send. */
  predicate Sent(c: Call, m: Outcome) {
    c == Queued(m) || c == Taken(m)
  }

  lemma StepSent(b: Board, b': Board, c: nat, m: Outcome)
    requires Moves(b, b') && c < |b.calls| && Sent(b.calls[c], m)
    ensures c < |b'.calls| && Sent(b'.calls[c], m)
  {
  }

  /** What has been posted stays the message of the call. */
  lemma {:induction false} PostedStays(bs: seq<Board>, p: nat, i: nat, c: nat, m: Outcome)
    requires IsHistory(bs) && Posted(bs, p, c, m) && p <= i < |bs|
    ensures c < |bs[i].calls| && Sent(bs[i].calls[c], m)
  {
    hide Moves;
    if p < i {
      PostedStays(bs, p, i - 1, c, m);
      StepSent(bs[i - 1], bs[i], c, m);
    }
  }

  /** The message of a call is the one that tells what the call returned, and there is no other. */
  lemma ToldIff(bs: seq<Board>, i: nat, c: nat, m: Outcome)
    requires IsHistory(bs) && i < |bs| && c < |bs[i].calls|
    ensures Sent(bs[i].calls[c], m) <==> exists reply :: Told(bs, i, c, reply, m)
  {
    hide Moves, Heard, Tells;
    EveryMessageTraced(bs, i, c);
    if reply :| Told(bs, i, c, reply, m) {
      var p :| 0 < p <= i && Posted(bs, p, c, m);
      PostedStays(bs, p, i, c, m);
    }
  }
}
