/**
  The part that the parallel merger and the concurrent-calls middleware share: one goroutine per call,
  two buffered channels of the same capacity, and one collector. Every call runs
  `next`, then makes exactly one send; which interleaving happens is up to the scheduler.
 */
module ForkJoin {
  import opened Wrappers
  import opened Merging
  import opened Seqs

  /** What `next` returns; an error wins over a response returned beside it. */
  datatype Reply = Answer(response: Response) | NoAnswer | Fault(error: Error)

  datatype Call =
    | Idle
    | Filtered
    | Running
    | Returned(reply: Reply)
    | Queued(message: Outcome)
    | Taken(message: Outcome)

  datatype Kind = KIdle | KFiltered | KRunning | KReturned | KPart | KError | KTaken

  /**
    The calls, the two channels as queues of call numbers, and whether the context of the calls is done.
    Both channels have capacity `|calls|`.
   */
  datatype Board = Board(calls: seq<Call>, parts: seq<nat>, failed: seq<nat>, done: bool)

  datatype Action =
    | Launch(i: nat)
    | Drop(i: nat)
    | Return(i: nat, reply: Reply)
    | PostPart(i: nat)
    | PostError(i: nat, error: Error)
    | TakePart
    | TakeError
    | Expire

  function KindOf(c: Call): Kind {
    match c
    case Idle => KIdle
    case Filtered => KFiltered
    case Running => KRunning
    case Returned(_) => KReturned
    case Queued(m) => if m.Got? then KPart else KError
    case Taken(_) => KTaken
  }

  /** The errors a returned call may post: its own, or the context's once the context is done. */
  predicate Posts(reply: Reply, error: Error, done: bool) {
    match reply
    case Fault(e) => error == e
    case NoAnswer => error == NullResult
    case Answer(_) => done
  }

  predicate Enabled(b: Board, a: Action) {
    var n := |b.calls|;
    match a
    case Launch(i) => i < n && b.calls[i].Idle?
    case Drop(i) => i < n && b.calls[i].Idle?
    case Return(i, _) => i < n && b.calls[i].Running?
    case PostPart(i) => i < n && b.calls[i].Returned? && b.calls[i].reply.Answer? && |b.parts| < n
    case PostError(i, e) => i < n && b.calls[i].Returned? && Posts(b.calls[i].reply, e, b.done) && |b.failed| < n
    case TakePart => b.parts != [] && b.parts[0] < n && b.calls[b.parts[0]].Queued?
    case TakeError => b.failed != [] && b.failed[0] < n && b.calls[b.failed[0]].Queued?
    case Expire => !b.done
  }

  function Apply(b: Board, a: Action): Board
    requires Enabled(b, a)
  {
    match a
    case Launch(i) => b.(calls := b.calls[i := Running])
    case Drop(i) => b.(calls := b.calls[i := Filtered])
    case Return(i, reply) => b.(calls := b.calls[i := Returned(reply)])
    case PostPart(i) => b.(calls := b.calls[i := Queued(Got(b.calls[i].reply.response))], parts := b.parts + [i])
    case PostError(i, e) => b.(calls := b.calls[i := Queued(Failed(e))], failed := b.failed + [i])
    case TakePart => b.(calls := b.calls[b.parts[0] := Taken(b.calls[b.parts[0]].message)], parts := b.parts[1..])
    case TakeError => b.(calls := b.calls[b.failed[0] := Taken(b.calls[b.failed[0]].message)], failed := b.failed[1..])
    case Expire => b.(done := true)
  }

  // ---- Counting calls

  function Count(calls: seq<Call>, k: Kind): nat {
    if calls == [] then 0
    else Count(calls[..|calls| - 1], k) + if KindOf(calls[|calls| - 1]) == k then 1 else 0
  }

  lemma {:induction false} CountUpdate(calls: seq<Call>, i: nat, c: Call, k: Kind)
    requires i < |calls|
    ensures Count(calls[i := c], k) + (if KindOf(calls[i]) == k then 1 else 0)
         == Count(calls, k) + (if KindOf(c) == k then 1 else 0)
  {
    var n := |calls| - 1;
    if i < n {
      CountUpdate(calls[..n], i, c, k);
      assert calls[i := c][..n] == calls[..n][i := c];
    } else {
      assert calls[i := c][..n] == calls[..n];
    }
  }

  lemma {:induction false} CountTotal(calls: seq<Call>)
    ensures Count(calls, KIdle) + Count(calls, KFiltered) + Count(calls, KRunning) + Count(calls, KReturned)
          + Count(calls, KPart) + Count(calls, KError) + Count(calls, KTaken) == |calls|
  {
    if calls != [] { CountTotal(calls[..|calls| - 1]); }
  }

  lemma {:induction false} CountPositive(calls: seq<Call>, i: nat)
    requires i < |calls|
    ensures Count(calls, KindOf(calls[i])) > 0
  {
    var n := |calls| - 1;
    if i < n { CountPositive(calls[..n], i); }
  }

  lemma {:induction false} CountWitness(calls: seq<Call>, k: Kind) returns (i: nat)
    requires Count(calls, k) > 0
    ensures i < |calls| && KindOf(calls[i]) == k
  {
    var n := |calls| - 1;
    if KindOf(calls[n]) == k { i := n; } else { i := CountWitness(calls[..n], k); }
  }

  lemma {:induction false} CountAll(calls: seq<Call>, k: Kind)
    requires forall c <- calls :: KindOf(c) == k
    ensures Count(calls, k) == |calls|
  {
    if calls != [] { CountAll(calls[..|calls| - 1], k); }
  }

  /** Steps still to come on the board, whatever the scheduler does. */
  function Work(b: Board): nat {
    4 * Count(b.calls, KIdle) + 3 * Count(b.calls, KRunning) + 2 * Count(b.calls, KReturned)
    + Count(b.calls, KPart) + Count(b.calls, KError) + if b.done then 0 else 1
  }

  // ---- The messages received so far

  /** The messages taken off the channels, in call order. */
  function Answers(calls: seq<Call>): seq<Outcome> {
    if calls == [] then []
    else
      var last := calls[|calls| - 1];
      Answers(calls[..|calls| - 1]) + if last.Taken? then [last.message] else []
  }

  lemma {:induction false} AnswersCount(calls: seq<Call>)
    ensures |Answers(calls)| == Count(calls, KTaken)
  {
    if calls != [] { AnswersCount(calls[..|calls| - 1]); }
  }

  function AnswerOf(c: Call): multiset<Outcome> {
    if c.Taken? then multiset{c.message} else multiset{}
  }

  lemma AnswersSnoc(calls: seq<Call>, c: Call)
    ensures multiset(Answers(calls + [c])) == multiset(Answers(calls)) + AnswerOf(c)
  {
    assert (calls + [c])[..|calls|] == calls;
  }

  lemma {:induction false} AnswersUpdate(calls: seq<Call>, i: nat, c: Call)
    requires i < |calls| && !calls[i].Taken?
    ensures multiset(Answers(calls[i := c])) == multiset(Answers(calls)) + AnswerOf(c)
  {
    hide Answers;
    var n := |calls| - 1;
    var updated := calls[i := c];
    assert calls == calls[..n] + [calls[n]] && updated == updated[..n] + [updated[n]];
    AnswersSnoc(calls[..n], calls[n]);
    AnswersSnoc(updated[..n], updated[n]);
    if i < n {
      AnswersUpdate(calls[..n], i, c);
      assert updated[..n] == calls[..n][i := c];
    } else {
      assert updated[..n] == calls[..n];
    }
  }

  // ---- The invariant of the board

  predicate Channel(calls: seq<Call>, queue: seq<nat>, k: Kind) {
    && Distinct(queue)
    && (forall j | 0 <= j < |queue| :: queue[j] < |calls| && KindOf(calls[queue[j]]) == k)
    && |queue| == Count(calls, k)
  }

  /** Nothing is posted twice, lost on the way, or posted as "neither". */
  predicate Sound(b: Board) {
    && Channel(b.calls, b.parts, KPart)
    && Channel(b.calls, b.failed, KError)
    && forall c <- b.calls :: (c.Queued? || c.Taken?) ==> !c.message.Missing?
  }

  lemma SoundInit(n: nat)
    ensures Sound(Board(seq(n, _ => Idle), [], [], false))
    ensures Count(seq(n, _ => Idle), KIdle) == n
  {
    CountAll(seq(n, _ => Idle), KIdle);
    CountTotal(seq(n, _ => Idle));
  }

  /** The call an action touches. */
  function Touched(b: Board, a: Action): Option<nat>
    requires Enabled(b, a)
  {
    match a
    case TakePart => Some(b.parts[0])
    case TakeError => Some(b.failed[0])
    case Expire => None
    case _ => Some(a.i)
  }

  lemma CountsAfter(b: Board, a: Action, k: Kind)
    requires Enabled(b, a)
    ensures var t := Touched(b, a);
            if t.None? then Count(Apply(b, a).calls, k) == Count(b.calls, k)
            else Count(Apply(b, a).calls, k) + (if KindOf(b.calls[t.value]) == k then 1 else 0)
                 == Count(b.calls, k) + (if KindOf(Apply(b, a).calls[t.value]) == k then 1 else 0)
  {
    var t := Touched(b, a);
    if t.Some? { CountUpdate(b.calls, t.value, Apply(b, a).calls[t.value], k); }
  }

  lemma ChannelKeep(calls: seq<Call>, queue: seq<nat>, k: Kind, i: nat, c: Call)
    requires Channel(calls, queue, k) && i < |calls| && KindOf(calls[i]) != k && KindOf(c) != k
    ensures Channel(calls[i := c], queue, k)
  {
    CountUpdate(calls, i, c, k);
  }

  lemma ChannelPush(calls: seq<Call>, queue: seq<nat>, k: Kind, i: nat, c: Call)
    requires Channel(calls, queue, k) && i < |calls| && KindOf(calls[i]) != k && KindOf(c) == k
    ensures Channel(calls[i := c], queue + [i], k)
  {
    CountUpdate(calls, i, c, k);
  }

  lemma ChannelPop(calls: seq<Call>, queue: seq<nat>, k: Kind, c: Call)
    requires Channel(calls, queue, k) && queue != [] && KindOf(c) != k
    ensures Channel(calls[queue[0] := c], queue[1..], k)
  {
    CountUpdate(calls, queue[0], c, k);
  }

  lemma ChannelHead(calls: seq<Call>, queue: seq<nat>, k: Kind)
    requires Channel(calls, queue, k) && queue != []
    ensures queue[0] < |calls| && KindOf(calls[queue[0]]) == k
  {
  }

  lemma SoundStep(b: Board, a: Action)
    requires Sound(b) && Enabled(b, a)
    ensures Sound(Apply(b, a))
  {
    hide Count, Channel;
    if a.Expire? { return; }
    if a.TakePart? { ChannelHead(b.calls, b.parts, KPart); }
    if a.TakeError? { ChannelHead(b.calls, b.failed, KError); }
    var i := Touched(b, a).value;
    var c := Apply(b, a).calls[i];
    match a
    case PostPart(_) => ChannelPush(b.calls, b.parts, KPart, i, c); ChannelKeep(b.calls, b.failed, KError, i, c);
    case PostError(_, _) => ChannelKeep(b.calls, b.parts, KPart, i, c); ChannelPush(b.calls, b.failed, KError, i, c);
    case TakePart => ChannelPop(b.calls, b.parts, KPart, c); ChannelKeep(b.calls, b.failed, KError, i, c);
    case TakeError => ChannelKeep(b.calls, b.parts, KPart, i, c); ChannelPop(b.calls, b.failed, KError, c);
    case _ => ChannelKeep(b.calls, b.parts, KPart, i, c); ChannelKeep(b.calls, b.failed, KError, i, c);
  }

  /** Every step consumes some of the remaining work. */
  lemma WorkDecreases(b: Board, a: Action)
    requires Sound(b) && Enabled(b, a)
    ensures Work(Apply(b, a)) < Work(b)
  {
    hide Sound, Count;
    CountsAfter(b, a, KIdle);
    CountsAfter(b, a, KRunning);
    CountsAfter(b, a, KReturned);
    CountsAfter(b, a, KPart);
    CountsAfter(b, a, KError);
  }

  /** A call that has returned always finds room on both channels: no send can block. */
  lemma SendNeverBlocks(b: Board, i: nat)
    requires Sound(b) && i < |b.calls| && (b.calls[i].Returned? || b.calls[i].Running?)
    ensures |b.parts| < |b.calls| && |b.failed| < |b.calls|
  {
    CountTotal(b.calls);
    CountPositive(b.calls, i);
  }

  /** As long as a call is under way, one of its own steps is enabled, whatever the collector does. */
  lemma CallsNeverStuck(b: Board, i: nat)
    requires Sound(b) && i < |b.calls|
    ensures b.calls[i].Running? ==> forall r :: Enabled(b, Return(i, r))
    ensures b.calls[i].Returned? ==>
              match b.calls[i].reply
              case Answer(_) => Enabled(b, PostPart(i))
              case NoAnswer => Enabled(b, PostError(i, NullResult))
              case Fault(e) => Enabled(b, PostError(i, e))
  {
    if b.calls[i].Returned? { SendNeverBlocks(b, i); }
  }

  // ---- What the collector has received

  predicate AllTaken(calls: seq<Call>, ids: seq<nat>) {
    forall k | 0 <= k < |ids| :: ids[k] < |calls| && calls[ids[k]].Taken?
  }

  /** The messages of the given calls, in the order given. */
  function Messages(calls: seq<Call>, ids: seq<nat>): (os: seq<Outcome>)
    requires AllTaken(calls, ids)
    ensures |os| == |ids|
  {
    if ids == [] then []
    else Messages(calls, ids[..|ids| - 1]) + [calls[ids[|ids| - 1]].message]
  }

  predicate Received(calls: seq<Call>, ids: seq<nat>) {
    && Distinct(ids)
    && AllTaken(calls, ids)
    && |ids| == Count(calls, KTaken)
    && Count(calls, KIdle) == 0
    && multiset(Messages(calls, ids)) == multiset(Answers(calls))
  }

  lemma {:induction false} NoAnswersYet(calls: seq<Call>)
    requires forall c <- calls :: !c.Taken?
    ensures Answers(calls) == [] && Count(calls, KTaken) == 0
  {
    if calls != [] { NoAnswersYet(calls[..|calls| - 1]); }
  }

  lemma {:induction false} NoneIdle(calls: seq<Call>)
    requires forall c <- calls :: !c.Idle?
    ensures Count(calls, KIdle) == 0
  {
    if calls != [] { NoneIdle(calls[..|calls| - 1]); }
  }

  lemma {:induction false} NoneFiltered(calls: seq<Call>)
    requires forall c <- calls :: !c.Filtered?
    ensures Count(calls, KFiltered) == 0
  {
    if calls != [] { NoneFiltered(calls[..|calls| - 1]); }
  }

  /** Changing a call that is not among `ids` does not change their messages. */
  lemma {:induction false} MessagesFrame(calls: seq<Call>, calls': seq<Call>, ids: seq<nat>)
    requires AllTaken(calls, ids) && |calls'| == |calls|
    requires forall k | 0 <= k < |ids| :: calls'[ids[k]] == calls[ids[k]]
    ensures Messages(calls', ids) == Messages(calls, ids)
  {
    if ids != [] { MessagesFrame(calls, calls', ids[..|ids| - 1]); }
  }

  lemma MessagesSnoc(calls: seq<Call>, ids: seq<nat>, i: nat)
    requires AllTaken(calls, ids) && i < |calls| && calls[i].Taken?
    ensures AllTaken(calls, ids + [i]) && Messages(calls, ids + [i]) == Messages(calls, ids) + [calls[i].message]
  {
    assert (ids + [i])[..|ids|] == ids;
  }

  lemma ReceivedExtend(calls: seq<Call>, calls': seq<Call>, ids: seq<nat>, i: nat)
    requires Received(calls, ids)
    requires i < |calls| && calls[i].Queued? && calls' == calls[i := Taken(calls[i].message)]
    ensures Received(calls', ids + [i])
    ensures Messages(calls', ids + [i]) == Messages(calls, ids) + [calls[i].message]
  {
    hide Count, Answers, Messages;
    CountUpdate(calls, i, calls'[i], KTaken);
    CountUpdate(calls, i, calls'[i], KIdle);
    AnswersUpdate(calls, i, calls'[i]);
    MessagesFrame(calls, calls', ids);
    MessagesSnoc(calls', ids, i);
  }

  lemma ReceivedFrame(calls: seq<Call>, ids: seq<nat>, i: nat, c: Call)
    requires Received(calls, ids)
    requires i < |calls| && !calls[i].Taken? && !calls[i].Idle? && !c.Taken? && !c.Idle?
    ensures Received(calls[i := c], ids)
    ensures Messages(calls[i := c], ids) == Messages(calls, ids)
  {
    hide Count, Answers, Messages;
    CountUpdate(calls, i, c, KTaken);
    CountUpdate(calls, i, c, KIdle);
    AnswersUpdate(calls, i, c);
    MessagesFrame(calls, calls[i := c], ids);
  }

  /** A call under way can always make its next move. */
  lemma SomeCallMoves(b: Board) returns (a: Action)
    requires Sound(b) && Count(b.calls, KRunning) + Count(b.calls, KReturned) > 0
    ensures Enabled(b, a) && (a.Return? || a.PostPart? || a.PostError?)
  {
    if Count(b.calls, KRunning) > 0 {
      var i := CountWitness(b.calls, KRunning);
      a := Return(i, NoAnswer);
    } else {
      var i := CountWitness(b.calls, KReturned);
      CallsNeverStuck(b, i);
      a := match b.calls[i].reply
           case Answer(_) => PostPart(i)
           case NoAnswer => PostError(i, NullResult)
           case Fault(e) => PostError(i, e);
    }
  }

  lemma SomeMessageMoves(b: Board) returns (a: Action)
    requires Sound(b) && Count(b.calls, KIdle) == 0
    requires Count(b.calls, KTaken) + Count(b.calls, KFiltered) < |b.calls|
    ensures Enabled(b, a) && (a.Return? || a.PostPart? || a.PostError? || a.TakePart? || a.TakeError?)
  {
    CountTotal(b.calls);
    if b.parts != [] { a := TakePart; }
    else if b.failed != [] { a := TakeError; }
    else { a := SomeCallMoves(b); }
  }

  lemma AllSettled(calls: seq<Call>)
    requires Count(calls, KTaken) + Count(calls, KFiltered) == |calls|
    ensures Count(calls, KPart) == Count(calls, KError) == 0
    ensures forall c <- calls :: c.Taken? || c.Filtered?
  {
    CountTotal(calls);
    forall i | 0 <= i < |calls| ensures calls[i].Taken? || calls[i].Filtered? { CountPositive(calls, i); }
  }

  lemma {:induction false} DistinctBound(calls: seq<Call>, ids: seq<nat>)
    requires AllTaken(calls, ids) && Distinct(ids)
    ensures |ids| <= Count(calls, KTaken)
    decreases |ids|
  {
    if ids != [] {
      var n := |ids| - 1;
      CountUpdate(calls, ids[n], Running, KTaken);
      DistinctBound(calls[ids[n] := Running], ids[..n]);
    }
  }

  lemma NothingMissed(calls: seq<Call>, ids: seq<nat>, c: nat)
    requires Received(calls, ids) && c < |calls| && calls[c].Taken?
    ensures c in ids
  {
    if c !in ids { DistinctBound(calls, ids + [c]); }
  }
}
