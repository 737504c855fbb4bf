/** What every run of a node keeps for its counters: concurrent tasks, tokens of the
    current minute, and the outcomes that feed the error rate. */
module NodeCounts {
  import opened Tasks
  import opened Nodes
  import opened Counting
  import opened NodeState
  import opened Lifecycle

  // ---------- Concurrent tasks ----------

  /** The worker is between incrementing and decrementing the capacity counters. */
  predicate InFlight(w: Worker) {
    w.Busy? && (w.stage == Counted || w.stage == Stage.Tallied || w.stage == Stage.Concluded)
  }

  function Flying(w: Worker): int {
    if InFlight(w) then 1 else 0
  }

  function TokensOf(w: Worker): int {
    if InFlight(w) then w.task.estimatedTokens else 0
  }

  function InFlightTokens(s: State): int {
    Total(s.workers, TokensOf)
  }

  ghost predicate ConcurrentExact(s: State) {
    s.node.capacity.currentConcurrentTasks == Total(s.workers, Flying)
  }

  /** The worker an event belongs to. */
  function Actor(e: Event): Option<nat> {
    match e
    case Pop(w, _) => Some(w)
    case Mark(w, _) => Some(w)
    case CountIn(w) => Some(w)
    case Tally(w, _) => Some(w)
    case Conclude(w) => Some(w)
    case CountOut(w) => Some(w)
    case _ => None
  }

  /** A step changes at most its own worker, so a sum over workers changes by that
      worker's share. */
  lemma TotalAfter(s: State, e: Event, f: Worker -> int)
    requires Enabled(s, e)
    ensures |Apply(s, e).workers| == |s.workers|
    ensures Actor(e) == None ==> Total(Apply(s, e).workers, f) == Total(s.workers, f)
    ensures Actor(e).Some? ==>
              var w := Actor(e).value;
              && w < |s.workers|
              && Total(Apply(s, e).workers, f) == Total(s.workers, f) - f(s.workers[w]) + f(Apply(s, e).workers[w])
  {
    var s' := Apply(s, e);
    match Actor(e)
    case None =>
    case Some(w) =>
      assert s'.workers == s.workers[w := s'.workers[w]];
      TotalUpdate(s.workers, f, w, s'.workers[w]);
  }

  lemma FlyingBounded(s: State)
    ensures 0 <= Total(s.workers, Flying) <= |s.workers|
    ensures forall w :: w in s.workers && InFlight(w) ==> 1 <= Total(s.workers, Flying)
  {
    TotalBounds(s.workers, Flying, 1);
    assert forall w :: w in s.workers && InFlight(w) ==> Flying(w) == 1;
  }

  lemma StepConcurrent(s: State, e: Event)
    requires ConcurrentExact(s) && Enabled(s, e)
    ensures ConcurrentExact(Apply(s, e))
  {
    TotalAfter(s, e, Flying);
    if e.CountOut? {
      FlyingBounded(s);
      assert s.workers[e.w] in s.workers && InFlight(s.workers[e.w]);
    }
  }

  /** The concurrency counter is the number of tasks between increment and
      decrement, and so never exceeds the worker pool. */
  lemma {:induction false} ConcurrentTasksAreInFlight(events: seq<Event>, states: seq<State>, i: nat)
    requires IsRun(events, states) && i < |states|
    ensures states[i].node.capacity.currentConcurrentTasks == Total(states[i].workers, Flying)
    ensures |states[i].workers| == |states[0].workers|
    ensures 0 <= states[i].node.capacity.currentConcurrentTasks <= |states[0].workers|
  {
    if i == 0 {
      AllIdle(states[0].workers, Flying);
    } else {
      ConcurrentTasksAreInFlight(events, states, i - 1);
      StepOf(events, states, i - 1);
      StepConcurrent(states[i - 1], events[i - 1]);
      TotalAfter(states[i - 1], events[i - 1], Flying);
    }
    FlyingBounded(states[i]);
  }

  lemma {:induction false} AllIdle(workers: seq<Worker>, f: Worker -> int)
    requires f(Idle) == 0 && forall w :: 0 <= w < |workers| ==> workers[w] == Idle
    ensures Total(workers, f) == 0
    decreases |workers|
  {
    if workers != [] {
      AllIdle(workers[..|workers| - 1], f);
    }
  }

  // ---------- Tokens of the current minute ----------

  /** The tokens counted in by the first n events since the last reset among them. */
  function TokensSinceReset(events: seq<Event>, states: seq<State>, n: nat): int
    requires n <= |events| < |states|
  {
    if n == 0 then 0
    else
      var s := states[n - 1];
      match events[n - 1]
      case Reset => 0
      case CountIn(w) => TokensSinceReset(events, states, n - 1) +
                         (if w < |s.workers| && s.workers[w].Busy? then s.workers[w].task.estimatedTokens else 0)
      case _ => TokensSinceReset(events, states, n - 1)
  }

  lemma StepTokens(s: State, e: Event, added: int)
    requires RecordsMatch(s) && HeldInStep(s) && Enabled(s, e)
    requires 0 <= s.node.capacity.currentTokensPerMin <= added
    ensures 0 <= Apply(s, e).node.capacity.currentTokensPerMin
    ensures Apply(s, e).node.capacity.currentTokensPerMin <=
            if e.Reset? then 0 else added + if e.CountIn? then s.workers[e.w].task.estimatedTokens else 0
  {
    if e.CountIn? || e.CountOut? {
      assert s.workers[e.w].Busy? && s.workers[e.w].task.estimatedTokens >= 0;
    }
  }

  /** The token counter stays between nothing and what was added since the last
      reset, wherever the resets land. */
  lemma {:induction false} TokensWithinTheMinute(events: seq<Event>, states: seq<State>, i: nat)
    requires IsRun(events, states) && i < |states|
    ensures 0 <= states[i].node.capacity.currentTokensPerMin <= TokensSinceReset(events, states, i)
  {
    if i > 0 {
      TokensWithinTheMinute(events, states, i - 1);
      RunSound(events, states, i - 1);
      StepOf(events, states, i - 1);
      StepTokens(states[i - 1], events[i - 1], TokensSinceReset(events, states, i - 1));
    }
  }

  ghost predicate TokensExact(s: State) {
    s.node.capacity.currentTokensPerMin == InFlightTokens(s)
  }

  /** A task in flight accounts for part of the sum. */
  lemma {:induction false} ShareOfTokens(workers: seq<Worker>, w: nat)
    requires forall v :: 0 <= v < |workers| && workers[v].Busy? ==> workers[v].task.estimatedTokens >= 0
    ensures Total(workers, TokensOf) >= 0
    ensures w < |workers| ==> Total(workers, TokensOf) >= TokensOf(workers[w])
    decreases |workers|
  {
    if workers != [] {
      ShareOfTokens(workers[..|workers| - 1], w);
      if w == |workers| - 1 {
        ShareOfTokens(workers[..|workers| - 1], 0);
      }
    }
  }

  lemma TokensCovered(s: State, w: nat)
    requires RecordsMatch(s) && HeldInStep(s)
    ensures InFlightTokens(s) >= 0
    ensures w < |s.workers| ==> InFlightTokens(s) >= TokensOf(s.workers[w])
  {
    forall v | 0 <= v < |s.workers| && s.workers[v].Busy? ensures s.workers[v].task.estimatedTokens >= 0 {
      assert s.workers[v].task.id in s.node.tasks;
    }
    ShareOfTokens(s.workers, w);
  }

  lemma StepTokensExact(s: State, e: Event)
    requires RecordsMatch(s) && HeldInStep(s) && Enabled(s, e) && TokensExact(s)
    ensures TokensExact(Apply(s, e)) <==> (e.Reset? ==> InFlightTokens(s) == 0)
  {
    TotalAfter(s, e, TokensOf);
    if e.CountOut? {
      TokensCovered(s, e.w);
    }
  }

  ghost predicate ExactThroughout(states: seq<State>) {
    forall i :: 0 <= i < |states| ==> TokensExact(states[i])
  }

  predicate ResetsFindNoTokens(events: seq<Event>, states: seq<State>)
    requires |states| >= |events|
  {
    forall i :: 0 <= i < |events| && events[i].Reset? ==> InFlightTokens(states[i]) == 0
  }

  /** The token counter equals the tokens in flight all through a run exactly when
      every reset comes while the tasks in flight amount to no tokens. */
  lemma {:induction false} TokensExactUnlessResetInFlight(events: seq<Event>, states: seq<State>)
    requires IsRun(events, states)
    ensures ExactThroughout(states) <==> ResetsFindNoTokens(events, states)
    decreases |events|
  {
    if events == [] {
      AllIdle(states[0].workers, TokensOf);
    } else {
      var n := |events| - 1;
      var e, before := events[n], states[..n + 1];
      RunPrefix(events, states, n);
      TokensExactUnlessResetInFlight(events[..n], before);
      assert ExactThroughout(states) <==> ExactThroughout(before) && TokensExact(states[n + 1]) by {
        assert forall i :: 0 <= i < |before| ==> before[i] == states[i];
      }
      assert ResetsFindNoTokens(events, states) <==>
             ResetsFindNoTokens(events[..n], before) && (e.Reset? ==> InFlightTokens(states[n]) == 0);
      if ExactThroughout(before) {
        assert before[n] == states[n];
        RunSound(events, states, n);
        StepOf(events, states, n);
        StepTokensExact(states[n], e);
      }
    }
  }

  /** A new task is submitted and queued. */
  lemma Arrives(s: State, t: Task) returns (s': State)
    requires Reachable(s) && s.queued == {} && s.queueCapacity > 0
    requires t.id !in s.node.tasks && t.estimatedTokens >= 0
    ensures Reachable(s') && s'.queued == {t.id} && s'.queueCapacity == s.queueCapacity
    ensures s'.workers == s.workers && s'.node.capacity == s.node.capacity
    ensures s'.node.tasks == s.node.tasks[t.id := Record(t, Pending, None)]
  {
    s' := ReachNext(s, Submit(t));
    s' := ReachNext(s', Push(t.id));
  }

  /** A worker takes the only queued task, up to calling the model. */
  lemma Begins(s: State, w: nat, t: Task) returns (s': State)
    requires Reachable(s) && s.queued == {t.id} && w < |s.workers| && s.workers[w] == Idle
    requires t.id in s.node.tasks && s.node.tasks[t.id].task == t
    ensures Reachable(s') && s'.queued == {} && s'.queueCapacity == s.queueCapacity
    ensures s'.workers == s.workers[w := Busy(Counted, t, None)]
    ensures s'.node.capacity == Incremented(s.node.capacity, t.estimatedTokens)
    ensures s'.node.tasks.Keys == s.node.tasks.Keys
  {
    s' := ReachNext(s, Pop(w, t.id));
    s' := ReachNext(s', Mark(w, 0));
    s' := ReachNext(s', CountIn(w));
  }

  /** The model answers, and the worker finishes its task. */
  lemma Ends(s: State, w: nat) returns (s': State)
    requires Reachable(s) && AtStage(s, w, Counted)
    ensures Reachable(s') && s'.queued == s.queued
    ensures s'.workers == s.workers[w := Idle]
    ensures s'.node.capacity == Decremented(s.node.capacity, s.workers[w].task.estimatedTokens)
  {
    s' := ReachNext(s, Tally(w, None));
    s' := ReachNext(s', Conclude(w));
    s' := ReachNext(s', CountOut(w));
  }

  /** A reset in flight does happen, and its error outlives the tasks: a task is counted
      before the reset and a larger one after it, and when both are done the counter
      still shows the difference. */
  lemma ResetInFlightLeavesTokens(a: Task, b: Task) returns (s: State)
    requires a.id != b.id && 0 < a.estimatedTokens < b.estimatedTokens
    ensures Reachable(s) && s.queued == {} && s.workers == [Idle, Idle]
    ensures s.node.capacity.currentTokensPerMin == b.estimatedTokens - a.estimatedTokens
    ensures InFlightTokens(s) == 0 && !TokensExact(s)
  {
    var none: set<TaskId> := {};
    var node := NodeView(map[], none, Capacity(100, 2, 2, 0, 0, 0), map[], map[]);
    s := State(node, none, 2, [Idle, Idle], none, none, none, none, map[]);
    ReachInitial(s);
    s := Arrives(s, a);
    s := Begins(s, 0, a);
    s := ReachNext(s, Event.Reset);
    s := Arrives(s, b);
    s := Begins(s, 1, b);
    s := Ends(s, 0);
    s := Ends(s, 1);
    AllIdle(s.workers, TokensOf);
  }

  // ---------- Outcomes ----------

  function HavingStatus(v: NodeView, status: TaskStatus): set<TaskId> {
    set id | id in v.tasks && v.tasks[id].status == status
  }

  /** The worker has recorded one of its two errors. */
  function HalfError(w: Worker): int {
    if w.Busy? && w.stage == Stage.Tallied && w.error.Some? then 1 else 0
  }

  function HalfSuccess(w: Worker): int {
    if w.Busy? && w.stage == Stage.Tallied && w.error.None? then 1 else 0
  }

  ghost predicate ErrorsExact(s: State) {
    MapSum(s.node.errorCounts) == 2 * |HavingStatus(s.node, Failed)| + Total(s.workers, HalfError)
  }

  ghost predicate SuccessesExact(s: State) {
    MapSum(s.node.successCounts) == 2 * |HavingStatus(s.node, Completed)| + Total(s.workers, HalfSuccess)
  }

  /** One more task has the status, or none has. */
  lemma StatusGained(v: NodeView, id: TaskId, becomes: TaskStatus, status: TaskStatus)
    requires id in v.tasks && v.tasks[id].status == Running && status != Running
    ensures |HavingStatus(WithStatus(v, id, becomes), status)| ==
            |HavingStatus(v, status)| + if becomes == status then 1 else 0
  {
    if becomes == status {
      assert HavingStatus(WithStatus(v, id, becomes), status) == HavingStatus(v, status) + {id};
    } else {
      assert HavingStatus(WithStatus(v, id, becomes), status) == HavingStatus(v, status);
    }
  }

  /** Only concluding a task makes it completed or failed. */
  lemma StatusesKept(s: State, e: Event, status: TaskStatus)
    requires HeldInStep(s) && Enabled(s, e) && !e.Conclude? && (status == Completed || status == Failed)
    ensures HavingStatus(Apply(s, e).node, status) == HavingStatus(s.node, status)
  {
  }

  lemma StatusesConcluded(s: State, w: nat, status: TaskStatus)
    requires HeldInStep(s) && AtStage(s, w, Stage.Tallied) && (status == Completed || status == Failed)
    ensures |HavingStatus(Apply(s, Conclude(w)).node, status)| == |HavingStatus(s.node, status)| +
            if status == (if s.workers[w].error == None then Completed else Failed) then 1 else 0
  {
    var worker := s.workers[w];
    var becomes := if worker.error == None then Completed else Failed;
    StatusGained(s.node, worker.task.id, becomes, status);
    assert Apply(s, Conclude(w)).node.tasks == WithStatus(s.node, worker.task.id, becomes).tasks;
    assert HavingStatus(Apply(s, Conclude(w)).node, status) ==
           HavingStatus(WithStatus(s.node, worker.task.id, becomes), status);
  }

  lemma TallyAdds(v: NodeView, error: Option<string>)
    ensures var tallied := NodeState.Tallied(v, error);
            && MapSum(tallied.errorCounts) == MapSum(v.errorCounts) + (if error.Some? then 1 else 0)
            && MapSum(tallied.successCounts) == MapSum(v.successCounts) + (if error.None? then 1 else 0)
  {
    match error
    case Some(message) => BumpAddsOne(v.errorCounts, message);
    case None => BumpAddsOne(v.successCounts, COMPLETED);
  }

  lemma StepErrors(s: State, e: Event)
    requires HeldInStep(s) && Enabled(s, e) && ErrorsExact(s)
    ensures ErrorsExact(Apply(s, e))
  {
    TotalAfter(s, e, HalfError);
    if e.Conclude? {
      StatusesConcluded(s, e.w, Failed);
      TallyAdds(s.node, s.workers[e.w].error);
    } else {
      StatusesKept(s, e, Failed);
      if e.Tally? {
        TallyAdds(s.node, e.error);
      }
    }
  }

  lemma StepSuccesses(s: State, e: Event)
    requires HeldInStep(s) && Enabled(s, e) && SuccessesExact(s)
    ensures SuccessesExact(Apply(s, e))
  {
    TotalAfter(s, e, HalfSuccess);
    if e.Conclude? {
      StatusesConcluded(s, e.w, Completed);
      TallyAdds(s.node, s.workers[e.w].error);
    } else {
      StatusesKept(s, e, Completed);
      if e.Tally? {
        TallyAdds(s.node, e.error);
      }
    }
  }

  /** Each failed task was recorded as an error twice, each completed task as a
      success twice, and a worker between its two recordings has made one. */
  lemma {:induction false} OutcomesAreRecordedTwice(events: seq<Event>, states: seq<State>, i: nat)
    requires IsRun(events, states) && i < |states|
    ensures ErrorsExact(states[i]) && SuccessesExact(states[i])
  {
    if i == 0 {
      AllIdle(states[0].workers, HalfError);
      AllIdle(states[0].workers, HalfSuccess);
      assert HavingStatus(states[0].node, Failed) == {} && HavingStatus(states[0].node, Completed) == {};
    } else {
      OutcomesAreRecordedTwice(events, states, i - 1);
      RunSound(events, states, i - 1);
      StepOf(events, states, i - 1);
      StepErrors(states[i - 1], events[i - 1]);
      StepSuccesses(states[i - 1], events[i - 1]);
    }
  }

  lemma {:induction false} NoHalves(workers: seq<Worker>)
    requires forall w :: w in workers ==> HalfError(w) == 0 && HalfSuccess(w) == 0
    ensures Total(workers, HalfError) == 0 && Total(workers, HalfSuccess) == 0
    decreases |workers|
  {
    if workers != [] {
      NoHalves(workers[..|workers| - 1]);
    }
  }

  /** No worker is between its two recordings. */
  predicate NobodyHalfRecorded(s: State) {
    forall w :: w in s.workers && w.Busy? ==> w.stage != Stage.Tallied
  }

  lemma DoubledShare(failed: nat, completed: nat)
    requires failed + completed > 0
    ensures (2 * failed) as real / (2 * failed + 2 * completed) as real == failed as real / (failed + completed) as real
  {
    var f, n := failed as real, (failed + completed) as real;
    assert (2 * failed) as real == 2.0 * f && (2 * failed + 2 * completed) as real == 2.0 * n;
    assert 2.0 * f == (f / n) * (2.0 * n);
  }

  /** With no worker between its two recordings, the error rate is the share of
      failed tasks among those that ended, or 0 if none did. */
  lemma ErrorRateIsExact(events: seq<Event>, states: seq<State>, i: nat)
    requires IsRun(events, states) && i < |states|
    requires NobodyHalfRecorded(states[i])
    ensures var v := states[i].node;
            var failed, completed := |HavingStatus(v, Failed)|, |HavingStatus(v, Completed)|;
            ErrorRate(v) == if failed + completed == 0 then 0.0 else failed as real / (failed + completed) as real
  {
    OutcomesAreRecordedTwice(events, states, i);
    NoHalves(states[i].workers);
    var v := states[i].node;
    var failed, completed := |HavingStatus(v, Failed)|, |HavingStatus(v, Completed)|;
    if failed + completed > 0 {
      DoubledShare(failed, completed);
    }
  }
}
