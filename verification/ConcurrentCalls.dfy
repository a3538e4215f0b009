/**
  The concurrent-calls middleware: the same request is sent `n` times and the first complete response
  wins. Otherwise the collector goes on until it has counted `n` events, and returns the last response
  and the last error it saw. The caller's context being done also counts as an event.
 */
module ConcurrentCalls {
  import opened Wrappers
  import opened Merging
  import opened ForkJoin
  import opened Histories

  /** `ignored` counts the rounds of the collector loop that only noticed that the caller has gone. */
  datatype Main =
    | Spawning(next: nat)
    | Collecting(taken: seq<nat>, ignored: nat, response: Option<Response>, err: Option<Error>)
    | Finished(taken: seq<nat>, ignored: nat, response: Option<Response>, err: Option<Error>)

  datatype State = State(board: Board, main: Main, callerGone: bool)

  datatype Label = Spawn | Begin | Receive(a: Action) | Ignore | Finish | Elsewhere(a: Action) | CallerLeaves

  predicate CanStep(n: nat, s: State, l: Label) {
    match l
    case Spawn => s.main.Spawning? && s.main.next < n && Enabled(s.board, Launch(s.main.next))
    case Begin => s.main.Spawning? && s.main.next == n
    case Receive(a) =>
      && (a.TakePart? || a.TakeError?) && Enabled(s.board, a)
      && s.main.Collecting? && |s.main.taken| + s.main.ignored < n
    case Ignore => s.callerGone && s.main.Collecting? && |s.main.taken| + s.main.ignored < n
    case Finish => s.main.Collecting? && |s.main.taken| + s.main.ignored >= n
    case Elsewhere(a) => (a.Return? || a.PostPart? || a.PostError? || a.Expire?) && Enabled(s.board, a)
    case CallerLeaves => !s.callerGone
  }

  /** One round of the collector loop that received `message` from call `i`. */
  function Collect(main: Main, i: nat, message: Outcome): Main
    requires main.Collecting?
  {
    match message
    case Got(r) =>
      if r.complete then Finished(main.taken + [i], main.ignored, Some(r), None)
      else Collecting(main.taken + [i], main.ignored, Some(r), main.err)
    case Failed(e) => Collecting(main.taken + [i], main.ignored, main.response, Some(e))
    case Missing => Collecting(main.taken + [i], main.ignored, main.response, main.err)
  }

  function After(n: nat, s: State, l: Label): State
    requires CanStep(n, s, l)
  {
    match l
    case Spawn => s.(board := Apply(s.board, Launch(s.main.next)), main := Spawning(s.main.next + 1))
    case Begin => s.(main := Collecting([], 0, None, None))
    case Receive(a) =>
      var i := if a.TakePart? then s.board.parts[0] else s.board.failed[0];
      var main := Collect(s.main, i, s.board.calls[i].message);
      var board := Apply(s.board, a);
      s.(board := if main.Finished? then board.(done := true) else board, main := main)
    case Ignore => s.(main := Collecting(s.main.taken, s.main.ignored + 1, s.main.response, s.main.err))
    case Finish =>
      s.(board := s.board.(done := true),
         main := Finished(s.main.taken, s.main.ignored, s.main.response, s.main.err))
    case Elsewhere(a) => s.(board := Apply(s.board, a))
    case CallerLeaves => s.(callerGone := true, board := s.board.(done := true))
  }

  function Initial(n: nat): State {
    State(Board(seq(n, _ => Idle), [], [], false), Spawning(0), false)
  }

  ghost predicate Next(n: nat, s: State, s': State) {
    exists l :: CanStep(n, s, l) && s' == After(n, s, l)
  }

  /** A run from the initial state, under any schedule. */
  ghost predicate IsRun(n: nat, run: seq<State>) {
    && run != [] && run[0] == Initial(n)
    && forall i | 0 < i < |run| :: Next(n, run[i - 1], run[i])
  }

  // ---- Vocabulary for the laws

  predicate CompleteMessage(o: Outcome) {
    o.Got? && o.response.complete
  }

  function LastResponse(os: seq<Outcome>): Option<Response> {
    if os == [] then None
    else if os[|os| - 1].Got? then Some(os[|os| - 1].response)
    else LastResponse(os[..|os| - 1])
  }

  function LastError(os: seq<Outcome>): Option<Error> {
    if os == [] then None
    else if os[|os| - 1].Failed? then Some(os[|os| - 1].error)
    else LastError(os[..|os| - 1])
  }

  predicate NoneComplete(os: seq<Outcome>) {
    forall j | 0 <= j < |os| :: !CompleteMessage(os[j])
  }

  /** Stopped early, at the first complete response. */
  predicate Won(os: seq<Outcome>, response: Option<Response>, err: Option<Error>) {
    && os != [] && CompleteMessage(os[|os| - 1]) && NoneComplete(os[..|os| - 1])
    && response == Some(os[|os| - 1].response) && err == None
  }

  /** Still looking, or gave up: nothing complete so far. */
  predicate Lost(os: seq<Outcome>, response: Option<Response>, err: Option<Error>) {
    NoneComplete(os) && response == LastResponse(os) && err == LastError(os)
  }

  /** What the main goroutine knows, given the messages it has received. */
  predicate Tally(n: nat, os: seq<Outcome>, main: Main, callerGone: bool)
    requires !main.Spawning?
  {
    && (main.ignored > 0 ==> callerGone)
    && match main
       case Collecting(taken, ignored, response, err) => Lost(os, response, err) && |taken| + ignored <= n
       case Finished(taken, ignored, response, err) =>
         Won(os, response, err) || (Lost(os, response, err) && |taken| + ignored == n)
  }

  predicate Progress(n: nat, calls: seq<Call>, main: Main, callerGone: bool) {
    && |calls| == n
    && Count(calls, KFiltered) == 0
    && if main.Spawning? then
         && main.next <= n && Count(calls, KTaken) == 0
         && (forall i | 0 <= i < |calls| :: calls[i].Idle? <==> main.next <= i)
       else
         Received(calls, main.taken) && Tally(n, Messages(calls, main.taken), main, callerGone)
  }

  predicate Inv(n: nat, s: State) {
    Sound(s.board) && Progress(n, s.board.calls, s.main, s.callerGone)
  }

  lemma InitialInv(n: nat)
    ensures Inv(n, Initial(n))
  {
    SoundInit(n);
    NoAnswersYet(Initial(n).board.calls);
    NoneFiltered(Initial(n).board.calls);
  }

  lemma SpawnInv(n: nat, s: State)
    requires Inv(n, s) && CanStep(n, s, Spawn)
    ensures Inv(n, After(n, s, Spawn))
  {
    SoundStep(s.board, Launch(s.main.next));
    CountUpdate(s.board.calls, s.main.next, Running, KTaken);
    CountUpdate(s.board.calls, s.main.next, Running, KFiltered);
  }

  lemma BeginInv(n: nat, s: State)
    requires Inv(n, s) && CanStep(n, s, Begin)
    ensures Inv(n, After(n, s, Begin))
  {
    NoneIdle(s.board.calls);
    AnswersCount(s.board.calls);
  }

  lemma CollectTally(n: nat, os: seq<Outcome>, main: Main, callerGone: bool, i: nat, message: Outcome)
    requires main.Collecting? && Tally(n, os, main, callerGone) && |main.taken| + main.ignored < n
    ensures Collect(main, i, message).taken == main.taken + [i]
    ensures Tally(n, os + [message], Collect(main, i, message), callerGone)
  {
    assert (os + [message])[..|os|] == os;
  }

  lemma ReceiveProgress(n: nat, calls: seq<Call>, main: Main, callerGone: bool, i: nat)
    requires Progress(n, calls, main, callerGone) && main.Collecting? && |main.taken| + main.ignored < n
    requires i < |calls| && calls[i].Queued?
    ensures Progress(n, calls[i := Taken(calls[i].message)], Collect(main, i, calls[i].message), callerGone)
  {
    hide Count, Answers, Messages;
    var m := calls[i].message;
    CountUpdate(calls, i, Taken(m), KFiltered);
    ReceivedExtend(calls, calls[i := Taken(m)], main.taken, i);
    CollectTally(n, Messages(calls, main.taken), main, callerGone, i, m);
  }

  lemma ReceiveInv(n: nat, s: State, a: Action)
    requires Inv(n, s) && CanStep(n, s, Receive(a))
    ensures Inv(n, After(n, s, Receive(a)))
  {
    SoundStep(s.board, a);
    ReceiveProgress(n, s.board.calls, s.main, s.callerGone, if a.TakePart? then s.board.parts[0] else s.board.failed[0]);
  }

  lemma ElsewhereProgress(n: nat, calls: seq<Call>, main: Main, callerGone: bool, i: nat, c: Call)
    requires Progress(n, calls, main, callerGone)
    requires i < |calls| && (calls[i].Running? || calls[i].Returned?) && (c.Returned? || c.Queued?)
    ensures Progress(n, calls[i := c], main, callerGone)
  {
    hide Count, Answers, Messages, Tally;
    CountUpdate(calls, i, c, KFiltered);
    if main.Spawning? { CountUpdate(calls, i, c, KTaken); } else { ReceivedFrame(calls, main.taken, i, c); }
  }

  lemma StepInv(n: nat, s: State, l: Label)
    requires Inv(n, s) && CanStep(n, s, l)
    ensures Inv(n, After(n, s, l))
  {
    match l
    case Spawn => SpawnInv(n, s);
    case Begin => BeginInv(n, s);
    case Receive(a) => ReceiveInv(n, s, a);
    case Elsewhere(a) =>
      SoundStep(s.board, a);
      if !a.Expire? {
        ElsewhereProgress(n, s.board.calls, s.main, s.callerGone, a.i, Apply(s.board, a).calls[a.i]);
      }
    case Ignore =>
    case Finish =>
    case CallerLeaves =>
  }

  lemma {:induction false} RunInv(n: nat, run: seq<State>, i: nat)
    requires IsRun(n, run) && i < |run|
    ensures Inv(n, run[i])
  {
    if i == 0 {
      InitialInv(n);
    } else {
      RunInv(n, run, i - 1);
      var s, s' := run[i - 1], run[i];
      assert Next(n, s, s');
      var l :| CanStep(n, s, l) && s' == After(n, s, l);
      StepInv(n, run[i - 1], l);
    }
  }

  // ---- The run as seen by the board

  function Boards(run: seq<State>): (bs: seq<Board>)
    ensures |bs| == |run|
    ensures forall i | 0 <= i < |run| :: bs[i] == run[i].board
  {
    seq(|run|, i requires 0 <= i < |run| => run[i].board)
  }

  lemma StepMoves(n: nat, s: State, s': State)
    requires Next(n, s, s')
    ensures Moves(s.board, s'.board)
  {
  }

  lemma RunIsHistory(n: nat, run: seq<State>)
    requires IsRun(n, run)
    ensures IsHistory(Boards(run))
  {
    hide Next, Moves;
    var bs := Boards(run);
    forall i | 0 < i < |bs|
      ensures Moves(bs[i - 1], bs[i])
    {
      StepMoves(n, run[i - 1], run[i]);
    }
  }

  // ---- Whole-run results

  /** A call has put a complete response on the results channel, received or not. */
  predicate Delivered(calls: seq<Call>) {
    exists c <- calls :: (c.Queued? || c.Taken?) && CompleteMessage(c.message)
  }

  lemma {:induction false} MessageAt(calls: seq<Call>, ids: seq<nat>, k: nat)
    requires AllTaken(calls, ids) && k < |ids|
    ensures Messages(calls, ids)[k] == calls[ids[k]].message
  {
    var n := |ids| - 1;
    if k < n { MessageAt(calls, ids[..n], k); }
  }

  /** What a finished collector makes of the messages it has received. */
  lemma FirstCompleteMessage(n: nat, run: seq<State>, i: nat)
    requires IsRun(n, run) && i < |run| && run[i].main.Finished? && run[i].main.ignored == 0
    ensures var main, calls := run[i].main, run[i].board.calls;
            && AllTaken(calls, main.taken)
            && var os := Messages(calls, main.taken);
            && ((main.response.Some? && main.response.value.complete) <==> Delivered(calls))
            && (Delivered(calls) ==> Won(os, main.response, main.err))
            && (!Delivered(calls) ==>
                  && Lost(os, main.response, main.err)
                  && forall c: nat :: c in main.taken <==> c < n)
  {
    RunInv(n, run, i);
    var main, calls := run[i].main, run[i].board.calls;
    var os := Messages(calls, main.taken);
    if Won(os, main.response, main.err) {
      var k := |main.taken| - 1;
      if main.taken != [] { MessageAt(calls, main.taken, k); }
      assert calls[main.taken[k]] in calls;
    } else {
      NothingDelivered(calls, main.taken);
      LastIncomplete(os);
    }
  }

  /** The response and the error that came last. */
  lemma {:induction false} LastOnes(os: seq<Outcome>)
    ensures LastResponse(os).None? <==> forall j | 0 <= j < |os| :: !os[j].Got?
    ensures forall j | 0 <= j < |os| && os[j].Got? && (forall l | j < l < |os| :: !os[l].Got?) ::
              LastResponse(os) == Some(os[j].response)
    ensures LastError(os).None? <==> forall j | 0 <= j < |os| :: !os[j].Failed?
    ensures forall j | 0 <= j < |os| && os[j].Failed? && (forall l | j < l < |os| :: !os[l].Failed?) ::
              LastError(os) == Some(os[j].error)
  {
    if os != [] {
      var n := |os| - 1;
      LastOnes(os[..n]);
      assert forall j | 0 <= j < n :: os[..n][j] == os[j];
    }
  }

  /** A call has delivered a complete response exactly if it returned one, and told so. */
  lemma DeliveredIff(n: nat, run: seq<State>, i: nat)
    requires IsRun(n, run) && i < |run|
    ensures Delivered(run[i].board.calls)
       <==> exists c: nat, r: Response :: r.complete && Told(Boards(run), i, c, Answer(r), Got(r))
  {
    hide IsRun, Told, IsHistory;
    RunIsHistory(n, run);
    var bs, calls := Boards(run), run[i].board.calls;
    forall c: nat, r: Response | r.complete && Told(bs, i, c, Answer(r), Got(r))
      ensures Delivered(calls)
    {
      ToldInRange(bs, i, c, Answer(r), Got(r));
      ToldIff(bs, i, c, Got(r));
      assert calls[c] in calls;
    }
    if Delivered(calls) {
      var x :| x in calls && (x.Queued? || x.Taken?) && CompleteMessage(x.message);
      var c :| 0 <= c < |calls| && calls[c] == x;
      ToldIff(bs, i, c, x.message);
      var reply :| Told(bs, i, c, reply, x.message);
      ResponseTold(bs, i, c, reply, x.message.response);
    }
  }

  lemma ResponseTold(bs: seq<Board>, i: nat, c: nat, reply: Reply, r: Response)
    requires Told(bs, i, c, reply, Got(r))
    ensures reply == Answer(r)
  {
  }

  /**
    If the caller did not go away before the result was out, that result is complete exactly when some call
    returned a complete response and delivered it, now or at any later point of the run. It is then what the call
    received last returned, the first complete one; otherwise every call's message has been received and the last
    response and error are returned.
   */
  lemma FirstCompleteWins(n: nat, run: seq<State>, i: nat) returns (replies: seq<Reply>, os: seq<Outcome>)
    requires IsRun(n, run) && i < |run| && run[i].main.Finished? && run[i].main.ignored == 0
    ensures var main := run[i].main;
            var complete := main.response.Some? && main.response.value.complete;
            && |replies| == |os| == |main.taken|
            && (forall k | 0 <= k < |os| :: Told(Boards(run), i, main.taken[k], replies[k], os[k]))
            && (complete <==> exists c: nat, r: Response :: r.complete && Told(Boards(run), i, c, Answer(r), Got(r)))
            && (forall k | 0 <= k < |os| - 1 :: os[k].Got? ==> !os[k].response.complete)
            && (complete ==>
                  && os != [] && os[|os| - 1] == Got(main.response.value) && main.err == None
                  && replies[|os| - 1] == Answer(main.response.value))
            && (!complete ==>
                  && (forall c: nat :: c in main.taken <==> c < n)
                  && main.response == LastResponse(os) && main.err == LastError(os))
  {
    hide IsRun, Told, IsHistory, Delivered, LastResponse, LastError, Messages;
    var main, calls, bs := run[i].main, run[i].board.calls, Boards(run);
    FirstCompleteMessage(n, run, i);
    DeliveredIff(n, run, i);
    os := Messages(calls, main.taken);
    replies := RepliesTaken(n, run, i, main.taken);
    if Delivered(calls) { ResponseTold(bs, i, main.taken[|os| - 1], replies[|os| - 1], main.response.value); }
  }

  lemma RepliesTaken(n: nat, run: seq<State>, i: nat, taken: seq<nat>) returns (replies: seq<Reply>)
    requires IsRun(n, run) && i < |run| && AllTaken(run[i].board.calls, taken)
    ensures var os := Messages(run[i].board.calls, taken);
            |replies| == |os| && forall k | 0 <= k < |os| :: Told(Boards(run), i, taken[k], replies[k], os[k])
  {
    hide IsRun, Told, IsHistory, Messages;
    var bs, os := Boards(run), Messages(run[i].board.calls, taken);
    RunIsHistory(n, run);
    forall k | 0 <= k < |os|
      ensures exists reply :: Told(bs, i, taken[k], reply, os[k])
    {
      MessageAt(run[i].board.calls, taken, k);
      ToldIff(bs, i, taken[k], os[k]);
    }
    replies := seq(|os|, k requires 0 <= k < |os| => var reply :| Told(bs, i, taken[k], reply, os[k]); reply);
  }

  lemma {:induction false} LastIncomplete(os: seq<Outcome>)
    requires NoneComplete(os)
    ensures LastResponse(os).Some? ==> !LastResponse(os).value.complete
  {
    if os != [] { LastIncomplete(os[..|os| - 1]); }
  }

  lemma NothingDelivered(calls: seq<Call>, taken: seq<nat>)
    requires Received(calls, taken) && |taken| == |calls| && NoneComplete(Messages(calls, taken))
    requires Count(calls, KFiltered) == 0
    ensures !Delivered(calls)
    ensures forall c: nat :: c in taken <==> c < |calls|
  {
    AllSettled(calls);
    forall c | 0 <= c < |calls| ensures c in taken && calls[c].Taken? && !CompleteMessage(calls[c].message) {
      CountPositive(calls, c);
      NothingMissed(calls, taken, c);
      var k :| 0 <= k < |taken| && taken[k] == c;
      MessageAt(calls, taken, k);
    }
    forall c | c in taken ensures c < |calls| { var k :| 0 <= k < |taken| && taken[k] == c; }
  }

  /** Even after an early return, a call that wants to send can: both channels have room for it. */
  lemma NoSendBlocks(n: nat, run: seq<State>, i: nat, c: nat)
    requires IsRun(n, run) && i < |run| && c < |run[i].board.calls| && run[i].board.calls[c].Returned?
    ensures |run[i].board.parts| < n && |run[i].board.failed| < n
  {
    RunInv(n, run, i);
    SendNeverBlocks(run[i].board, c);
  }

  /** The work left for the scheduler; it falls at every step, early return or not. */
  function Remaining(n: nat, s: State): int
  {
    Work(s.board) + (if s.callerGone then 0 else 1) +
    match s.main {
      case Spawning(_) => n + 2
      case Collecting(taken, ignored, _, _) => 1 + n - ignored
      case Finished(_, _, _, _) => 0
    }
  }

  lemma StepDecreases(n: nat, s: State, l: Label)
    requires Sound(s.board) && CanStep(n, s, l)
    requires s.main.Collecting? ==> s.main.ignored <= n
    ensures Remaining(n, After(n, s, l)) < Remaining(n, s)
  {
    hide Sound;
    match l
    case Spawn => WorkDecreases(s.board, Launch(s.main.next));
    case Receive(a) => WorkDecreases(s.board, a);
    case Elsewhere(a) => WorkDecreases(s.board, a);
    case _ =>
  }

  lemma {:induction false} RunsAreFinite(n: nat, run: seq<State>, i: nat)
    requires IsRun(n, run) && i < |run|
    ensures i + Remaining(n, run[i]) <= 5 * n + 4
  {
    if i == 0 {
      SoundInit(n);
      CountTotal(run[0].board.calls);
    } else {
      RunsAreFinite(n, run, i - 1);
      RunInv(n, run, i - 1);
      var s, s' := run[i - 1], run[i];
      assert Next(n, s, s');
      var l :| CanStep(n, s, l) && s' == After(n, s, l);
      StepDecreases(n, run[i - 1], l);
    }
  }

  /** No run has more than `5 * n + 5` states. */
  lemma RunLength(n: nat, run: seq<State>)
    requires IsRun(n, run)
    ensures |run| <= 5 * n + 5
  {
    RunsAreFinite(n, run, |run| - 1);
    RunInv(n, run, |run| - 1);
  }

  /**
    A run can only stop where the result is out and every call goroutine has made its send: as long as
    one has not, its next move is enabled.
   */
  lemma EveryCallFinishes(n: nat, s: State) returns (l: Label)
    requires Inv(n, s)
    requires !s.main.Finished? || Count(s.board.calls, KRunning) + Count(s.board.calls, KReturned) > 0
    ensures CanStep(n, s, l)
  {
    if Count(s.board.calls, KRunning) + Count(s.board.calls, KReturned) > 0 {
      var a := SomeCallMoves(s.board);
      l := Elsewhere(a);
    } else if s.main.Spawning? {
      l := if s.main.next < n then Spawn else Begin;
    } else if |s.main.taken| + s.main.ignored >= n {
      l := Finish;
    } else {
      var a := SomeMessageMoves(s.board);
      l := if a.TakePart? || a.TakeError? then Receive(a) else Elsewhere(a);
    }
  }

  /** A caller that stays makes every round of the collector receive a message. */
  lemma NothingIgnored(n: nat, run: seq<State>, i: nat)
    requires IsRun(n, run) && i < |run| && run[i].main.Finished? && !run[i].callerGone
    ensures run[i].main.ignored == 0
  {
    RunInv(n, run, i);
  }

  /** With a caller that stays no complete response is ever missed, however the calls are scheduled. */
  lemma CallerWhoStays(n: nat, run: seq<State>, i: nat) returns (replies: seq<Reply>, os: seq<Outcome>)
    requires IsRun(n, run) && i < |run| && run[i].main.Finished? && !run[i].callerGone
    ensures var main := run[i].main;
            var complete := main.response.Some? && main.response.value.complete;
            && |replies| == |os| == |main.taken|
            && (forall k | 0 <= k < |os| :: Told(Boards(run), i, main.taken[k], replies[k], os[k]))
            && (complete <==> exists c: nat, r: Response :: r.complete && Told(Boards(run), i, c, Answer(r), Got(r)))
            && (forall k | 0 <= k < |os| - 1 :: os[k].Got? ==> !os[k].response.complete)
            && (complete ==>
                  && os != [] && os[|os| - 1] == Got(main.response.value) && main.err == None
                  && replies[|os| - 1] == Answer(main.response.value))
            && (!complete ==>
                  && (forall c: nat :: c in main.taken <==> c < n)
                  && main.response == LastResponse(os) && main.err == LastError(os))
  {
    NothingIgnored(n, run, i);
    replies, os := FirstCompleteWins(n, run, i);
  }

  // ---- A caller that goes away

  lemma Extend(n: nat, run: seq<State>, l: Label, s: State)
    requires IsRun(n, run) && CanStep(n, run[|run| - 1], l) && s == After(n, run[|run| - 1], l)
    ensures IsRun(n, run + [s])
  {
    assert Next(n, run[|run| - 1], s);
  }

  /** The first `k` of `n` calls running, the others not yet spawned. */
  function Launched(n: nat, k: nat): seq<Call> {
    seq(n, i => if i < k then Running else Idle)
  }

  lemma {:induction false} SpawnSome(n: nat, k: nat) returns (run: seq<State>)
    requires k <= n
    ensures IsRun(n, run)
    ensures run[|run| - 1] == State(Board(Launched(n, k), [], [], false), Spawning(k), false)
  {
    if k == 0 {
      run := [Initial(n)];
      assert Launched(n, 0) == seq(n, _ => Idle);
    } else {
      run := SpawnSome(n, k - 1);
      var s := State(Board(Launched(n, k), [], [], false), Spawning(k), false);
      assert Launched(n, k) == Launched(n, k - 1)[k - 1 := Running];
      Extend(n, run, Spawn, s);
      run := run + [s];
    }
  }

  /** With the caller gone, every round of the collector may notice only that. */
  lemma {:induction false} IgnoreAll(n: nat, run: seq<State>, b: Board, m: nat) returns (longer: seq<State>)
    requires IsRun(n, run) && m <= n && run[|run| - 1] == State(b, Collecting([], m, None, None), true)
    ensures IsRun(n, longer)
    ensures longer[|longer| - 1] == State(b, Collecting([], n, None, None), true)
    decreases n - m
  {
    longer := run;
    if m < n {
      var s := State(b, Collecting([], m + 1, None, None), true);
      Extend(n, run, Ignore, s);
      longer := IgnoreAll(n, run + [s], b, m + 1);
    }
  }

  /** All calls spawned, and the first one's complete response on its way. */
  lemma FirstDelivers(n: nat, r: Response) returns (run: seq<State>)
    requires n > 0
    ensures IsRun(n, run)
    ensures run[|run| - 1]
         == State(Board(Launched(n, n)[0 := Queued(Got(r))], [0], [], false), Collecting([], 0, None, None), false)
  {
    var calls, main := Launched(n, n), Collecting([], 0, None, None);
    run := SpawnSome(n, n);
    var begun := State(Board(calls, [], [], false), main, false);
    Extend(n, run, Begin, begun);
    var returned := State(Board(calls[0 := Returned(Answer(r))], [], [], false), main, false);
    Extend(n, run + [begun], Elsewhere(Return(0, Answer(r))), returned);
    var queued := State(Board(calls[0 := Queued(Got(r))], [0], [], false), main, false);
    assert calls[0 := Returned(Answer(r))][0 := Queued(Got(r))] == calls[0 := Queued(Got(r))];
    Extend(n, run + [begun] + [returned], Elsewhere(PostPart(0)), queued);
    run := run + [begun] + [returned] + [queued];
  }

  /**
    The caller has to stay: for every number of calls there is a run in which the caller goes away, and which
    returns nothing although a complete response is waiting in its channel.
   */
  lemma CallerGoneMayMissIt(n: nat, r: Response) returns (run: seq<State>)
    requires n > 0 && r.complete
    ensures IsRun(n, run)
    ensures var last := run[|run| - 1];
            last.callerGone && last.main == Finished([], n, None, None) && Delivered(last.board.calls)
  {
    run := FirstDelivers(n, r);
    var calls := Launched(n, n)[0 := Queued(Got(r))];
    var gone := Board(calls, [0], [], true);
    var left := State(gone, Collecting([], 0, None, None), true);
    Extend(n, run, CallerLeaves, left);
    run := IgnoreAll(n, run + [left], gone, 0);
    var end := State(gone, Finished([], n, None, None), true);
    Extend(n, run, Finish, end);
    run := run + [end];
    assert calls[0] in calls;
  }
}
