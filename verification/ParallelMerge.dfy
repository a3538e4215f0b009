/**
  The parallel merger: the main goroutine spawns one call per backend that passes its filter, then
  receives as many messages as it spawned calls and merges them as they come.
 */
module ParallelMerge {
  import opened Merging
  import opened Confluence
  import opened ForkJoin
  import opened Histories
  import opened Seqs

  /** Where the main goroutine is; `merged` lists the calls whose message it has merged, in order. */
  datatype Main =
    | Spawning(next: nat, count: int)
    | Collecting(count: int, merged: seq<nat>, acc: Accumulator)
    | Finished(count: int, merged: seq<nat>, result: Merged)

  datatype State = State(board: Board, main: Main)

  datatype Label = Spawn | Begin | Receive(a: Action) | Finish | Elsewhere(a: Action)

  /** `rejects[i]` when backend `i` has a filter that turns the request down. */
  predicate CanStep(rejects: seq<bool>, s: State, l: Label) {
    match l
    case Spawn =>
      && s.main.Spawning? && s.main.next < |rejects|
      && Enabled(s.board, if rejects[s.main.next] then Drop(s.main.next) else Launch(s.main.next))
    case Begin => s.main.Spawning? && s.main.next == |rejects|
    case Receive(a) =>
      && (a.TakePart? || a.TakeError?) && Enabled(s.board, a)
      && s.main.Collecting? && |s.main.merged| < s.main.count
    case Finish => s.main.Collecting? && |s.main.merged| >= s.main.count
    case Elsewhere(a) => (a.Return? || a.PostPart? || a.PostError? || a.Expire?) && Enabled(s.board, a)
  }

  /** The call whose message a receive takes. */
  function Head(b: Board, a: Action): nat
    requires Enabled(b, a) && (a.TakePart? || a.TakeError?)
  {
    if a.TakePart? then b.parts[0] else b.failed[0]
  }

  function After(rejects: seq<bool>, s: State, l: Label): State
    requires CanStep(rejects, s, l)
  {
    match l
    case Spawn =>
      var i := s.main.next;
      if rejects[i] then State(Apply(s.board, Drop(i)), Spawning(i + 1, s.main.count - 1))
      else State(Apply(s.board, Launch(i)), Spawning(i + 1, s.main.count))
    case Begin => s.(main := Collecting(s.main.count, [], Fresh(s.main.count)))
    case Receive(a) =>
      var i := Head(s.board, a);
      State(Apply(s.board, a),
            Collecting(s.main.count, s.main.merged + [i], Step(s.main.acc, s.board.calls[i].message)))
    case Finish => State(s.board.(done := true), Finished(s.main.count, s.main.merged, Result(s.main.acc)))
    case Elsewhere(a) => s.(board := Apply(s.board, a))
  }

  function Initial(rejects: seq<bool>): State {
    State(Board(seq(|rejects|, _ => Idle), [], [], false), Spawning(0, |rejects|))
  }

  ghost predicate Next(rejects: seq<bool>, s: State, s': State) {
    exists l :: CanStep(rejects, s, l) && s' == After(rejects, s, l)
  }

  /** A run from the initial state, under any schedule. */
  ghost predicate IsRun(rejects: seq<bool>, run: seq<State>) {
    && run != [] && run[0] == Initial(rejects)
    && forall i | 0 < i < |run| :: Next(rejects, run[i - 1], run[i])
  }

  // ---- What every state of every run satisfies

  predicate FiltersApplied(rejects: seq<bool>, calls: seq<Call>, upto: nat)
    requires upto <= |rejects| == |calls|
  {
    forall i | 0 <= i < upto :: calls[i].Filtered? <==> rejects[i]
  }

  /** The main goroutine's view of the calls. */
  predicate Progress(rejects: seq<bool>, calls: seq<Call>, main: Main) {
    && |calls| == |rejects|
    && main.count == |rejects| - Count(calls, KFiltered)
    && match main
       case Spawning(next, _) =>
         && next <= |rejects|
         && Count(calls, KTaken) == 0 && Answers(calls) == []
         && (forall i | 0 <= i < |calls| :: calls[i].Idle? <==> next <= i)
         && FiltersApplied(rejects, calls, next)
       case Collecting(count, merged, acc) =>
         && FiltersApplied(rejects, calls, |rejects|)
         && Received(calls, merged)
         && acc == Fold(Fresh(count), Messages(calls, merged))
       case Finished(count, merged, result) =>
         && FiltersApplied(rejects, calls, |rejects|)
         && Received(calls, merged)
         && |merged| == count
         && result == MergeAll(count, Messages(calls, merged))
  }

  predicate Inv(rejects: seq<bool>, s: State) {
    Sound(s.board) && Progress(rejects, s.board.calls, s.main)
  }

  lemma InitialInv(rejects: seq<bool>)
    ensures Inv(rejects, Initial(rejects))
  {
    SoundInit(|rejects|);
    NoAnswersYet(Initial(rejects).board.calls);
    NoneFiltered(Initial(rejects).board.calls);
  }

  lemma SpawnInv(rejects: seq<bool>, s: State)
    requires Inv(rejects, s) && CanStep(rejects, s, Spawn)
    ensures Inv(rejects, After(rejects, s, Spawn))
  {
    hide Sound, Received;
    var i := s.main.next;
    var a := if rejects[i] then Drop(i) else Launch(i);
    SoundStep(s.board, a);
    CountsAfter(s.board, a, KFiltered);
    forall c | c in Apply(s.board, a).calls ensures !c.Taken? {
      if c.Taken? {
        var j :| 0 <= j < |s.board.calls| && Apply(s.board, a).calls[j] == c;
        CountPositive(s.board.calls, j);
      }
    }
    NoAnswersYet(Apply(s.board, a).calls);
  }

  lemma BeginInv(rejects: seq<bool>, s: State)
    requires Inv(rejects, s) && CanStep(rejects, s, Begin)
    ensures Inv(rejects, After(rejects, s, Begin))
  {
    NoneIdle(s.board.calls);
    forall i | 0 <= i < |s.board.calls| ensures !s.board.calls[i].Taken? { CountPositive(s.board.calls, i); }
  }

  lemma FiltersFrame(rejects: seq<bool>, calls: seq<Call>, upto: nat, i: nat, c: Call)
    requires upto <= |rejects| == |calls| && FiltersApplied(rejects, calls, upto)
    requires i < |calls| && !calls[i].Filtered? && !c.Filtered?
    ensures FiltersApplied(rejects, calls[i := c], upto)
    ensures Count(calls[i := c], KFiltered) == Count(calls, KFiltered)
  {
    CountUpdate(calls, i, c, KFiltered);
  }

  lemma ReceiveProgress(rejects: seq<bool>, calls: seq<Call>, main: Main, i: nat)
    requires Progress(rejects, calls, main) && main.Collecting?
    requires i < |calls| && calls[i].Queued?
    ensures Progress(rejects, calls[i := Taken(calls[i].message)],
                     Collecting(main.count, main.merged + [i], Step(main.acc, calls[i].message)))
  {
    hide Messages, Step, Count, Answers;
    var m := calls[i].message;
    var calls' := calls[i := Taken(m)];
    FiltersFrame(rejects, calls, |rejects|, i, calls'[i]);
    ReceivedExtend(calls, calls', main.merged, i);
    assert Step(main.acc, m) == Fold(Fresh(main.count), Messages(calls', main.merged + [i])) by {
      FoldSnoc(Fresh(main.count), Messages(calls, main.merged), m);
    }
  }

  lemma ReceiveInv(rejects: seq<bool>, s: State, a: Action)
    requires Inv(rejects, s) && CanStep(rejects, s, Receive(a))
    ensures Inv(rejects, After(rejects, s, Receive(a)))
  {
    SoundStep(s.board, a);
    ReceiveProgress(rejects, s.board.calls, s.main, Head(s.board, a));
  }

  lemma ElsewhereSpawning(rejects: seq<bool>, calls: seq<Call>, main: Main, i: nat, c: Call)
    requires Progress(rejects, calls, main) && main.Spawning?
    requires i < |calls| && (calls[i].Running? || calls[i].Returned?) && (c.Returned? || c.Queued?)
    ensures Progress(rejects, calls[i := c], main)
  {
    hide Count, Answers, Messages;
    FiltersFrame(rejects, calls, main.next, i, c);
    CountUpdate(calls, i, c, KTaken);
    AnswersCount(calls[i := c]);
  }

  lemma ElsewhereLater(rejects: seq<bool>, calls: seq<Call>, main: Main, i: nat, c: Call)
    requires Progress(rejects, calls, main) && !main.Spawning?
    requires i < |calls| && (calls[i].Running? || calls[i].Returned?) && (c.Returned? || c.Queued?)
    ensures Progress(rejects, calls[i := c], main)
  {
    hide Count, Answers, Messages, Fold;
    FiltersFrame(rejects, calls, |rejects|, i, c);
    ReceivedFrame(calls, main.merged, i, c);
  }

  lemma ElsewhereInv(rejects: seq<bool>, s: State, a: Action)
    requires Inv(rejects, s) && CanStep(rejects, s, Elsewhere(a))
    ensures Inv(rejects, After(rejects, s, Elsewhere(a)))
  {
    SoundStep(s.board, a);
    if !a.Expire? {
      var c := Apply(s.board, a).calls[a.i];
      if s.main.Spawning? { ElsewhereSpawning(rejects, s.board.calls, s.main, a.i, c); }
      else { ElsewhereLater(rejects, s.board.calls, s.main, a.i, c); }
    }
  }

  lemma FinishInv(rejects: seq<bool>, s: State)
    requires Inv(rejects, s) && CanStep(rejects, s, Finish)
    ensures Inv(rejects, After(rejects, s, Finish))
  {
    CountTotal(s.board.calls);
  }

  lemma StepInv(rejects: seq<bool>, s: State, l: Label)
    requires Inv(rejects, s) && CanStep(rejects, s, l)
    ensures Inv(rejects, After(rejects, s, l))
  {
    match l
    case Spawn => SpawnInv(rejects, s);
    case Begin => BeginInv(rejects, s);
    case Receive(a) => ReceiveInv(rejects, s, a);
    case Finish => FinishInv(rejects, s);
    case Elsewhere(a) => ElsewhereInv(rejects, s, a);
  }

  lemma {:induction false} RunInv(rejects: seq<bool>, run: seq<State>, i: nat)
    requires IsRun(rejects, run) && i < |run|
    ensures Inv(rejects, run[i])
  {
    if i == 0 {
      InitialInv(rejects);
    } else {
      RunInv(rejects, run, i - 1);
      var s, s' := run[i - 1], run[i];
      assert Next(rejects, s, s');
      var l :| CanStep(rejects, s, l) && s' == After(rejects, s, l);
      StepInv(rejects, run[i - 1], l);
    }
  }

  // ---- The run as seen by the board

  function Boards(run: seq<State>): (bs: seq<Board>)
    ensures |bs| == |run|
    ensures forall i | 0 <= i < |run| :: bs[i] == run[i].board
  {
    seq(|run|, i requires 0 <= i < |run| => run[i].board)
  }

  lemma StepMoves(rejects: seq<bool>, s: State, s': State)
    requires Next(rejects, s, s')
    ensures Moves(s.board, s'.board)
  {
  }

  lemma RunIsHistory(rejects: seq<bool>, run: seq<State>)
    requires IsRun(rejects, run)
    ensures IsHistory(Boards(run))
  {
    hide Next, Moves;
    var bs := Boards(run);
    forall i | 0 < i < |bs|
      ensures Moves(bs[i - 1], bs[i])
    {
      StepMoves(rejects, run[i - 1], run[i]);
    }
  }

  // ---- Whole-run results

  /** The messages of a finished run, in the order in which it merged them. */
  ghost function Arrived(rejects: seq<bool>, run: seq<State>, i: nat): seq<Outcome>
    requires IsRun(rejects, run) && i < |run| && run[i].main.Finished?
  {
    RunInv(rejects, run, i);
    Messages(run[i].board.calls, run[i].main.merged)
  }

  /** Its result is what merging them gives. */
  lemma ResultOfArrived(rejects: seq<bool>, run: seq<State>, i: nat)
    requires IsRun(rejects, run) && i < |run| && run[i].main.Finished?
    ensures run[i].main.result == MergeAll(|Arrived(rejects, run, i)|, Arrived(rejects, run, i))
  {
    hide IsRun, MergeAll, Messages;
    RunInv(rejects, run, i);
  }

  /**
    Conservation: in every reachable state, backends not yet looked at, calls under way, messages in the
    channels and messages merged add up to the backends not filtered out.
   */
  lemma Conservation(rejects: seq<bool>, run: seq<State>, i: nat)
    requires IsRun(rejects, run) && i < |run|
    ensures var s, calls := run[i], run[i].board.calls;
            var merged := if s.main.Spawning? then 0 else |s.main.merged|;
            Count(calls, KIdle) + Count(calls, KRunning) + Count(calls, KReturned)
            + |s.board.parts| + |s.board.failed| + merged
            == s.main.count
  {
    RunInv(rejects, run, i);
    CountTotal(run[i].board.calls);
  }

  /** In no reachable state can a call that is about to send find its channel full. */
  lemma NoSendBlocks(rejects: seq<bool>, run: seq<State>, i: nat, c: nat)
    requires IsRun(rejects, run) && i < |run| && c < |run[i].board.calls| && run[i].board.calls[c].Returned?
    ensures |run[i].board.parts| < |rejects| && |run[i].board.failed| < |rejects|
  {
    RunInv(rejects, run, i);
    SendNeverBlocks(run[i].board, c);
  }

  function Remaining(s: State): nat {
    Work(s.board) + match s.main { case Spawning(_, _) => 2 case Collecting(_, _, _) => 1 case Finished(_, _, _) => 0 }
  }

  lemma StepDecreases(rejects: seq<bool>, s: State, l: Label)
    requires Inv(rejects, s) && CanStep(rejects, s, l)
    ensures Remaining(After(rejects, s, l)) < Remaining(s)
  {
    match l
    case Spawn => WorkDecreases(s.board, if rejects[s.main.next] then Drop(s.main.next) else Launch(s.main.next));
    case Receive(a) => WorkDecreases(s.board, a);
    case Elsewhere(a) => WorkDecreases(s.board, a);
    case _ =>
  }

  /** Every schedule ends: `Remaining` falls at each step, so a run has at most `4 * n + 4` states. */
  lemma {:induction false} RunsAreFinite(rejects: seq<bool>, run: seq<State>, i: nat)
    requires IsRun(rejects, run) && i < |run|
    ensures i + Remaining(run[i]) <= 4 * |rejects| + 3
  {
    if i == 0 {
      SoundInit(|rejects|);
      CountTotal(run[0].board.calls);
    } else {
      RunsAreFinite(rejects, run, i - 1);
      RunInv(rejects, run, i - 1);
      var s, s' := run[i - 1], run[i];
      assert Next(rejects, s, s');
      var l :| CanStep(rejects, s, l) && s' == After(rejects, s, l);
      StepDecreases(rejects, run[i - 1], l);
    }
  }

  /** No deadlock: until the result is out, some step is enabled (a running backend call may return). */
  lemma NeverStuck(rejects: seq<bool>, s: State) returns (l: Label)
    requires Inv(rejects, s) && !s.main.Finished?
    ensures CanStep(rejects, s, l)
  {
    if s.main.Spawning? {
      l := if s.main.next < |rejects| then Spawn else Begin;
    } else if |s.main.merged| >= s.main.count {
      l := Finish;
    } else {
      var a := SomeMessageMoves(s.board);
      l := if a.TakePart? || a.TakeError? then Receive(a) else Elsewhere(a);
    }
  }

  /**
    When the result is out, each unfiltered backend's message has been merged exactly once, no call is
    still under way and both channels are empty.
   */
  lemma EachOutcomeMergedOnce(rejects: seq<bool>, run: seq<State>, i: nat)
    requires IsRun(rejects, run) && i < |run| && run[i].main.Finished?
    ensures Distinct(run[i].main.merged)
    ensures forall c: nat :: c in run[i].main.merged <==> c < |rejects| && !rejects[c]
    ensures run[i].board.parts == [] && run[i].board.failed == []
    ensures |run[i].board.calls| == |rejects|
    ensures forall c | 0 <= c < |rejects| :: if rejects[c] then run[i].board.calls[c].Filtered? else run[i].board.calls[c].Taken?
  {
    RunInv(rejects, run, i);
    var calls, merged := run[i].board.calls, run[i].main.merged;
    AllSettled(calls);
    forall c | 0 <= c < |rejects| && !rejects[c] ensures c in merged {
      NothingMissed(calls, merged, c);
    }
    forall c | c in merged ensures c < |rejects| && !rejects[c] {
      var k :| 0 <= k < |merged| && merged[k] == c;
    }
  }

  /** What a finished run makes of the messages it has taken. */
  lemma ResultOfAnswers(rejects: seq<bool>, run: seq<State>, i: nat)
    requires IsRun(rejects, run) && i < |run| && run[i].main.Finished?
    ensures var answers, result := Answers(run[i].board.calls), run[i].main.result;
            var reference := MergeAll(|answers|, answers);
            && Alike(result, reference)
            && (Compatible(answers) ==> result.response == reference.response)
            && (result.response.Some? ==> (result.response.value.complete <==> Clean(answers)))
  {
    RunInv(rejects, run, i);
    var calls, merged := run[i].board.calls, run[i].main.merged;
    var answers, arrivals := Answers(calls), Messages(calls, merged);
    AnswersCount(calls);
    assert |arrivals| == |answers| by { assert |multiset(arrivals)| == |multiset(answers)|; }
    OrderDoesNotMatter(|answers|, arrivals, answers);
    if Compatible(answers) { CompatibleData(|answers|, answers, arrivals); }
    if run[i].main.result.response.Some? { CompleteIff(|answers|, answers); }
  }

  /** What the backends not filtered out stand for, in backend order. */
  function Kept(rejects: seq<bool>, told: seq<Outcome>): seq<Outcome>
    requires |rejects| == |told|
  {
    if told == [] then []
    else
      var n := |told| - 1;
      Kept(rejects[..n], told[..n]) + if rejects[n] then [] else [told[n]]
  }

  lemma {:induction false} AnswersKept(rejects: seq<bool>, calls: seq<Call>, told: seq<Outcome>)
    requires |rejects| == |calls| == |told|
    requires forall c | 0 <= c < |calls| :: if rejects[c] then calls[c].Filtered? else calls[c] == Taken(told[c])
    ensures Answers(calls) == Kept(rejects, told)
  {
    if told != [] {
      var n := |told| - 1;
      AnswersKept(rejects[..n], calls[..n], told[..n]);
    }
  }

  /** Each unfiltered backend returned some reply in the course of the run, and its call told it. */
  lemma RepliesOf(rejects: seq<bool>, run: seq<State>, i: nat) returns (replies: seq<Reply>, told: seq<Outcome>)
    requires IsRun(rejects, run) && i < |run| && run[i].main.Finished?
    ensures |replies| == |told| == |rejects|
    ensures forall c | 0 <= c < |rejects| && !rejects[c] :: Told(Boards(run), i, c, replies[c], told[c])
    ensures Answers(run[i].board.calls) == Kept(rejects, told)
  {
    hide IsRun, Told, IsHistory, Answers;
    EachOutcomeMergedOnce(rejects, run, i);
    RunIsHistory(rejects, run);
    var bs, calls := Boards(run), run[i].board.calls;
    told := seq(|rejects|, c requires 0 <= c < |calls| => if calls[c].Taken? then calls[c].message else Missing);
    forall c | 0 <= c < |rejects| && !rejects[c]
      ensures exists reply :: Told(bs, i, c, reply, told[c])
    {
      ToldIff(bs, i, c, told[c]);
    }
    replies := seq(|rejects|, c requires 0 <= c < |told| =>
      if exists reply :: Told(bs, i, c, reply, told[c]) then (var reply :| Told(bs, i, c, reply, told[c]); reply) else NoAnswer);
    AnswersKept(rejects, calls, told);
  }

  /**
    The result of any finished run, up to the order of errors and to which of several conflicting values a
    key gets, is the merge of what the backends returned taken in backend order; with no conflicts it is
    exactly that merge's data. It is complete exactly when every unfiltered backend answered completely.
   */
  lemma ResultIsScheduleIndependent(rejects: seq<bool>, run: seq<State>, i: nat)
    returns (replies: seq<Reply>, told: seq<Outcome>)
    requires IsRun(rejects, run) && i < |run| && run[i].main.Finished?
    ensures |replies| == |told| == |rejects|
    ensures forall c | 0 <= c < |rejects| && !rejects[c] :: Told(Boards(run), i, c, replies[c], told[c])
    ensures var answers, result := Kept(rejects, told), run[i].main.result;
            var reference := MergeAll(|answers|, answers);
            && Alike(result, reference)
            && (Compatible(answers) ==> result.response == reference.response)
            && (result.response.Some? ==> (result.response.value.complete <==> Clean(answers)))
  {
    hide IsRun, Told, MergeAll, Alike, Clean, Compatible;
    replies, told := RepliesOf(rejects, run, i);
    ResultOfAnswers(rejects, run, i);
  }

  /** What a call tells while the context lasts. */
  function Says(reply: Reply): Outcome {
    match reply
    case Answer(r) => Got(r)
    case Fault(e) => Failed(e)
    case NoAnswer => Failed(NullResult)
  }

  lemma UndisturbedTelling(rejects: seq<bool>, run: seq<State>, i: nat, c: nat, reply: Reply, m: Outcome)
    requires i < |run| && Told(Boards(run), i, c, reply, m) && forall p | 0 <= p < i :: !run[p].board.done
    ensures m == Says(reply)
  {
  }

  lemma {:induction false} KeptHas(rejects: seq<bool>, told: seq<Outcome>, c: nat)
    requires |rejects| == |told| && c < |told| && !rejects[c]
    ensures told[c] in Kept(rejects, told)
  {
    var n := |told| - 1;
    if c < n {
      KeptHas(rejects[..n], told[..n], c);
      assert told[..n][c] in Kept(rejects[..n], told[..n]);
    }
  }

  lemma {:induction false} KeptFrom(rejects: seq<bool>, told: seq<Outcome>, o: Outcome) returns (c: nat)
    requires |rejects| == |told| && o in Kept(rejects, told)
    ensures c < |told| && !rejects[c] && told[c] == o
  {
    var n := |told| - 1;
    if o in Kept(rejects[..n], told[..n]) { c := KeptFrom(rejects[..n], told[..n], o); } else { c := n; }
  }

  /** Every unfiltered backend returned a complete response, and with data where `several` did. */
  lemma CleanReplies(rejects: seq<bool>, replies: seq<Reply>, told: seq<Outcome>)
    requires |rejects| == |replies| == |told|
    requires forall c | 0 <= c < |rejects| && !rejects[c] :: told[c] == Says(replies[c])
    ensures Clean(Kept(rejects, told)) <==>
              forall c | 0 <= c < |rejects| && !rejects[c] ::
                && replies[c].Answer? && replies[c].response.complete
                && (|Kept(rejects, told)| >= 2 ==> replies[c].response.data.Some?)
  {
    hide Kept;
    var os := Kept(rejects, told);
    forall c | 0 <= c < |rejects| && !rejects[c]
      ensures told[c] in os
    {
      KeptHas(rejects, told, c);
    }
    forall o | o in os
      ensures exists c | 0 <= c < |told| :: !rejects[c] && told[c] == o
    {
      var _ := KeptFrom(rejects, told, o);
    }
  }

  /**
    If the context lasts until the result is out, nothing a backend returned is given up for an error: the result
    is the merge of what the backends returned, and complete exactly when all of that was.
   */
  lemma ResultOfReplies(rejects: seq<bool>, run: seq<State>, i: nat) returns (replies: seq<Reply>, told: seq<Outcome>)
    requires IsRun(rejects, run) && i < |run| && run[i].main.Finished? && forall p | 0 <= p < i :: !run[p].board.done
    ensures |replies| == |told| == |rejects|
    ensures forall c | 0 <= c < |rejects| && !rejects[c] ::
              Told(Boards(run), i, c, replies[c], told[c]) && told[c] == Says(replies[c])
    ensures Alike(run[i].main.result, MergeAll(|Kept(rejects, told)|, Kept(rejects, told)))
    ensures run[i].main.result.response.Some? ==>
              (run[i].main.result.response.value.complete <==>
                 forall c | 0 <= c < |rejects| && !rejects[c] ::
                   && replies[c].Answer? && replies[c].response.complete
                   && (|Kept(rejects, told)| >= 2 ==> replies[c].response.data.Some?))
  {
    hide IsRun, Told, MergeAll, Alike, Clean, Compatible, Kept;
    replies, told := ResultIsScheduleIndependent(rejects, run, i);
    forall c | 0 <= c < |rejects| && !rejects[c]
      ensures told[c] == Says(replies[c])
    {
      UndisturbedTelling(rejects, run, i, c, replies[c], told[c]);
    }
    CleanReplies(rejects, replies, told);
  }
}
