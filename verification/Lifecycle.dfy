/** A node as a state machine: submissions, a queue and any number of workers,
    interleaved one atomic step at a time. */
module Lifecycle {
  import opened Tasks
  import opened Nodes
  import opened NodeState

  /** How far a worker is with the task it took. */
  datatype Stage =
    | Taken      // popped from the queue
    | Marked     // status set to running
    | Counted    // capacity counters incremented, the model is called
    | Tallied    // the outcome recorded once
    | Concluded  // terminal status set, the outcome recorded again

  datatype Worker = Idle | Busy(stage: Stage, task: Task, error: Option<string>)

  datatype State = State(
    node: NodeView,
    queued: set<TaskId>,
    queueCapacity: int,
    workers: seq<Worker>,
    // Submissions between AddTask and Push.
    submitting: set<TaskId>,
    // What has happened so far.
    accepted: set<TaskId>,
    refused: set<TaskId>,
    finished: set<TaskId>,
    starts: map<TaskId, nat>)

  datatype Event =
    | Submit(task: Task)                    // AddTask
    | FindFull(id: TaskId)                  // IsFull
    | Push(id: TaskId)                      // Push, which may still find the queue full
    | Pop(w: nat, id: TaskId)
    | Mark(w: nat, now: int)
    | CountIn(w: nat)
    | Tally(w: nat, error: Option<string>)  // the model returned; first recording
    | Conclude(w: nat)                      // terminal status; second recording
    | CountOut(w: nat)
    | Reset                                 // the minute is over
    | Cleanup(now: int)

  predicate Initial(s: State) {
    s.node.tasks == map[] && s.node.tracked == {} &&
    s.node.capacity.currentConcurrentTasks == 0 && s.node.capacity.currentTokensPerMin == 0 &&
    s.node.errorCounts == map[] && s.node.successCounts == map[] &&
    s.queued == {} && s.submitting == {} && s.accepted == {} && s.refused == {} && s.finished == {} &&
    s.starts == map[] &&
    forall w :: 0 <= w < |s.workers| ==> s.workers[w] == Idle
  }

  predicate HasRoom(s: State) {
    |s.queued| < s.queueCapacity
  }

  predicate AtStage(s: State, w: nat, stage: Stage) {
    w < |s.workers| && s.workers[w].Busy? && s.workers[w].stage == stage
  }

  /** No queued task precedes this one. */
  ghost predicate FirstQueued(s: State, id: TaskId) {
    id in s.queued && id in s.node.tasks &&
    forall x :: x in s.queued && x in s.node.tasks ==> NoLater(s.node.tasks[id].task, s.node.tasks[x].task)
  }

  ghost predicate Enabled(s: State, e: Event) {
    match e
    case Submit(t) => t.id !in s.node.tasks && t.estimatedTokens >= 0
    case FindFull(id) => id in s.submitting && !HasRoom(s)
    case Push(id) => id in s.submitting
    case Pop(w, id) => w < |s.workers| && s.workers[w] == Idle && FirstQueued(s, id)
    case Mark(w, _) => AtStage(s, w, Taken)
    case CountIn(w) => AtStage(s, w, Marked)
    case Tally(w, _) => AtStage(s, w, Counted)
    case Conclude(w) => AtStage(s, w, Tallied)
    case CountOut(w) => AtStage(s, w, Concluded)
    case Reset => true
    case Cleanup(_) => true
  }

  function Moved(s: State, w: nat, stage: Stage): seq<Worker>
    requires w < |s.workers| && s.workers[w].Busy?
  {
    s.workers[w := s.workers[w].(stage := stage)]
  }

  ghost function Apply(s: State, e: Event): State
    requires Enabled(s, e)
  {
    match e
    case Submit(t) =>
      s.(node := Submitted(s.node, t), submitting := s.submitting + {t.id}, starts := s.starts[t.id := 0])
    case FindFull(id) =>
      s.(submitting := s.submitting - {id}, refused := s.refused + {id})
    case Push(id) =>
      if HasRoom(s)
      then s.(submitting := s.submitting - {id}, queued := s.queued + {id}, accepted := s.accepted + {id})
      else s.(submitting := s.submitting - {id}, refused := s.refused + {id})
    case Pop(w, id) =>
      s.(queued := s.queued - {id}, workers := s.workers[w := Busy(Taken, s.node.tasks[id].task, None)])
    case Mark(w, now) =>
      var id := s.workers[w].task.id;
      s.(node := Started(s.node, id, now), workers := Moved(s, w, Marked),
         starts := s.starts[id := (if id in s.starts then s.starts[id] else 0) + 1])
    case CountIn(w) =>
      s.(node := CountedIn(s.node, s.workers[w].task), workers := Moved(s, w, Counted))
    case Tally(w, error) =>
      s.(node := NodeState.Tallied(s.node, error),
         workers := s.workers[w := s.workers[w].(stage := Tallied, error := error)])
    case Conclude(w) =>
      s.(node := NodeState.Concluded(s.node, s.workers[w].task, s.workers[w].error),
         workers := Moved(s, w, Concluded))
    case CountOut(w) =>
      s.(node := CountedOut(s.node, s.workers[w].task), workers := s.workers[w := Idle],
         finished := s.finished + {s.workers[w].task.id})
    case Reset =>
      s.(node := s.node.(capacity := Nodes.Reset(s.node.capacity)))
    case Cleanup(now) =>
      s.(node := CleanedUp(s.node, now))
  }

  /** Step i leads from states[i] to states[i + 1]. */
  ghost predicate StepAt(events: seq<Event>, states: seq<State>, i: nat)
    requires i < |events| && i + 1 < |states|
  {
    Enabled(states[i], events[i]) && states[i + 1] == Apply(states[i], events[i])
  }

  /** states[i] is the state before events[i]. */
  ghost predicate IsRun(events: seq<Event>, states: seq<State>) {
    |states| == |events| + 1 && Initial(states[0]) &&
    forall i :: 0 <= i < |events| ==> StepAt(events, states, i)
  }

  lemma StepOf(events: seq<Event>, states: seq<State>, i: nat)
    requires IsRun(events, states) && i < |events|
    ensures Enabled(states[i], events[i]) && states[i + 1] == Apply(states[i], events[i])
  {
    assert StepAt(events, states, i);
  }

  lemma RunPrefix(events: seq<Event>, states: seq<State>, n: nat)
    requires IsRun(events, states) && n <= |events|
    ensures IsRun(events[..n], states[..n + 1])
  {
    var before, prefix := events[..n], states[..n + 1];
    forall i | 0 <= i < n ensures StepAt(before, prefix, i) {
      assert StepAt(events, states, i);
    }
  }

  ghost predicate Reachable(s: State) {
    exists events, states :: IsRun(events, states) && states[|events|] == s
  }

  lemma ReachInitial(s: State)
    requires Initial(s)
    ensures Reachable(s)
  {
    var events: seq<Event>, states := [], [s];
    assert IsRun(events, states) && states[|events|] == s;
  }

  lemma ReachNext(s: State, e: Event) returns (s': State)
    requires Reachable(s) && Enabled(s, e)
    ensures s' == Apply(s, e) && Reachable(s')
  {
    s' := Apply(s, e);
    var events, states :| IsRun(events, states) && states[|events|] == s;
    var further, longer := events + [e], states + [s'];
    forall i | 0 <= i < |further| ensures StepAt(further, longer, i) {
      assert i < |events| ==> StepAt(events, states, i);
    }
    assert IsRun(further, longer) && longer[|further|] == s';
  }

  // ---------- Every task is in one place ----------

  predicate HeldBy(s: State, w: int, id: TaskId) {
    0 <= w < |s.workers| && s.workers[w].Busy? && s.workers[w].task.id == id
  }

  ghost predicate Held(s: State, id: TaskId) {
    exists w :: HeldBy(s, w, id)
  }

  /** No two workers hold the same task. */
  ghost predicate OneHolder(s: State) {
    forall v, w, id :: HeldBy(s, v, id) && HeldBy(s, w, id) ==> v == w
  }

  /** A held task is nowhere else; the other places do not overlap. */
  ghost predicate OnePlace(s: State) {
    s.submitting !! s.refused !! s.queued !! s.finished &&
    forall w, id :: HeldBy(s, w, id) ==>
      id !in s.submitting && id !in s.refused && id !in s.queued && id !in s.finished
  }

  ghost predicate EveryTaskPlaced(s: State) {
    forall id :: id in s.node.tasks <==>
      id in s.submitting || id in s.refused || id in s.queued || id in s.finished || Held(s, id)
  }

  ghost predicate AcceptedPlaced(s: State) {
    forall id :: id in s.accepted <==> id in s.queued || id in s.finished || Held(s, id)
  }

  ghost predicate Placed(s: State) {
    OneHolder(s) && OnePlace(s) && EveryTaskPlaced(s) && AcceptedPlaced(s)
  }

  /** The status that goes with a worker's stage. */
  predicate StatusAtStage(w: Worker, status: TaskStatus)
    requires w.Busy?
  {
    match w.stage
    case Taken => status == Pending
    case Marked => status == Running
    case Counted => status == Running
    case Tallied => status == Running
    case Concluded => status == if w.error == None then Completed else Failed
  }

  ghost predicate WaitingArePending(s: State) {
    forall id :: id in s.node.tasks && (id in s.submitting || id in s.refused || id in s.queued) ==>
      s.node.tasks[id].status == Pending
  }

  ghost predicate FinishedAreDone(s: State) {
    forall id :: id in s.node.tasks && id in s.finished ==>
      s.node.tasks[id].status == Completed || s.node.tasks[id].status == Failed
  }

  ghost predicate HeldInStep(s: State) {
    forall w :: 0 <= w < |s.workers| && s.workers[w].Busy? ==>
      var id := s.workers[w].task.id;
      id in s.node.tasks && s.node.tasks[id].task == s.workers[w].task &&
      StatusAtStage(s.workers[w], s.node.tasks[id].status)
  }

  ghost predicate RecordsMatch(s: State) {
    forall id :: id in s.node.tasks ==> s.node.tasks[id].task.id == id && s.node.tasks[id].task.estimatedTokens >= 0
  }

  /** The status follows the place. */
  ghost predicate StatusFollowsPlace(s: State) {
    WaitingArePending(s) && FinishedAreDone(s) && HeldInStep(s) && RecordsMatch(s)
  }

  /** A task was started once, or never if it is still pending. */
  ghost predicate StartedOnce(s: State) {
    s.starts.Keys == s.node.tasks.Keys &&
    forall id :: id in s.starts ==> s.starts[id] == if s.node.tasks[id].status == Pending then 0 else 1
  }

  ghost predicate TrackedHaveRecords(s: State) {
    s.node.tracked <= s.node.tasks.Keys
  }

  /** A worker's move that keeps hold of the same task moves nothing. */
  lemma SameHolders(s: State, w: nat, to: Worker)
    requires w < |s.workers| && s.workers[w].Busy? && to.Busy? && to.task == s.workers[w].task
    ensures var s' := s.(workers := s.workers[w := to]);
            (forall v, id :: HeldBy(s', v, id) <==> HeldBy(s, v, id)) &&
            (forall id :: Held(s', id) <==> Held(s, id))
  {
    var s' := s.(workers := s.workers[w := to]);
    assert forall v, id :: HeldBy(s', v, id) <==> HeldBy(s, v, id);
  }

  lemma PopPlaced(s: State, w: nat, id: TaskId)
    requires Placed(s) && Enabled(s, Pop(w, id)) && s.node.tasks[id].task.id == id
    ensures Placed(Apply(s, Pop(w, id)))
  {
    var s' := Apply(s, Pop(w, id));
    assert HeldBy(s', w, id);
    forall v, x ensures HeldBy(s', v, x) <==> (if v == w then x == id else HeldBy(s, v, x)) {
    }
    forall x | x != id ensures Held(s', x) <==> Held(s, x) {
      if Held(s, x) {
        var v :| HeldBy(s, v, x);
        assert HeldBy(s', v, x);
      }
      if Held(s', x) {
        var v :| HeldBy(s', v, x);
        assert HeldBy(s, v, x);
      }
    }
  }

  lemma CountOutPlaced(s: State, w: nat)
    requires Placed(s) && Enabled(s, CountOut(w))
    ensures Placed(Apply(s, CountOut(w)))
  {
    var s' := Apply(s, CountOut(w));
    var id := s.workers[w].task.id;
    assert HeldBy(s, w, id);
    forall v, x ensures HeldBy(s', v, x) <==> (v != w && HeldBy(s, v, x)) {
    }
    forall x ensures Held(s', x) <==> (x != id && Held(s, x)) {
      if x != id && Held(s, x) {
        var v :| HeldBy(s, v, x);
        assert HeldBy(s', v, x);
      }
      if Held(s', x) {
        var v :| HeldBy(s', v, x);
        assert HeldBy(s, v, x);
      }
    }
  }

  lemma WorkersUntouched(s: State, s': State)
    requires s'.workers == s.workers
    ensures forall v, id :: HeldBy(s', v, id) <==> HeldBy(s, v, id)
    ensures forall id :: Held(s', id) <==> Held(s, id)
  {
    assert forall v, id :: HeldBy(s', v, id) <==> HeldBy(s, v, id);
  }

  /** Both states list the same tasks in the same places. */
  ghost predicate SamePlaces(s: State, s': State) {
    s'.submitting == s.submitting && s'.refused == s.refused && s'.queued == s.queued &&
    s'.finished == s.finished && s'.accepted == s.accepted && s'.node.tasks.Keys == s.node.tasks.Keys
  }

  lemma StageMovePlaced(s: State, s': State, w: nat)
    requires Placed(s) && SamePlaces(s, s')
    requires w < |s.workers| && |s'.workers| == |s.workers| && s'.workers == s.workers[w := s'.workers[w]]
    requires s.workers[w].Busy? && s'.workers[w].Busy? && s'.workers[w].task == s.workers[w].task
    ensures Placed(s')
  {
    SameHolders(s, w, s'.workers[w]);
    WorkersUntouched(s.(workers := s'.workers), s');
  }

  lemma IdlePlaced(s: State, s': State)
    requires Placed(s) && SamePlaces(s, s') && s'.workers == s.workers
    ensures Placed(s')
  {
    WorkersUntouched(s, s');
  }

  lemma SubmitPlaced(s: State, t: Task)
    requires Placed(s) && Enabled(s, Submit(t))
    ensures Placed(Apply(s, Submit(t)))
  {
    WorkersUntouched(s, Apply(s, Submit(t)));
  }

  lemma FindFullPlaced(s: State, id: TaskId)
    requires Placed(s) && Enabled(s, FindFull(id))
    ensures Placed(Apply(s, FindFull(id)))
  {
    WorkersUntouched(s, Apply(s, FindFull(id)));
  }

  lemma PushPlaced(s: State, id: TaskId)
    requires Placed(s) && Enabled(s, Push(id))
    ensures Placed(Apply(s, Push(id)))
  {
    WorkersUntouched(s, Apply(s, Push(id)));
  }

  /** Tasks in the workers' hands have records. */
  ghost predicate HeldHaveRecords(s: State) {
    forall w :: 0 <= w < |s.workers| && s.workers[w].Busy? ==> s.workers[w].task.id in s.node.tasks
  }

  lemma StepPlaced(s: State, e: Event)
    requires Placed(s) && HeldHaveRecords(s) && Enabled(s, e)
    requires e.Pop? ==> s.node.tasks[e.id].task.id == e.id
    ensures Placed(Apply(s, e))
  {
    match e
    case Submit(t) => SubmitPlaced(s, t);
    case FindFull(id) => FindFullPlaced(s, id);
    case Push(id) => PushPlaced(s, id);
    case Pop(w, id) => PopPlaced(s, w, id);
    case Mark(w, _) => StageMovePlaced(s, Apply(s, e), w);
    case CountIn(w) => StageMovePlaced(s, Apply(s, e), w);
    case Tally(w, _) => StageMovePlaced(s, Apply(s, e), w);
    case Conclude(w) => StageMovePlaced(s, Apply(s, e), w);
    case CountOut(w) => CountOutPlaced(s, w);
    case Reset => IdlePlaced(s, Apply(s, e));
    case Cleanup(_) => IdlePlaced(s, Apply(s, e));
  }

  lemma StepWaiting(s: State, e: Event)
    requires Placed(s) && HeldInStep(s) && WaitingArePending(s) && Enabled(s, e)
    ensures WaitingArePending(Apply(s, e))
  {
    assert forall w :: 0 <= w < |s.workers| && s.workers[w].Busy? ==> HeldBy(s, w, s.workers[w].task.id);
  }

  lemma StepFinished(s: State, e: Event)
    requires Placed(s) && HeldInStep(s) && FinishedAreDone(s) && Enabled(s, e)
    ensures FinishedAreDone(Apply(s, e))
  {
    assert forall w :: 0 <= w < |s.workers| && s.workers[w].Busy? ==> HeldBy(s, w, s.workers[w].task.id);
  }

  lemma StepHeld(s: State, e: Event)
    requires Placed(s) && StatusFollowsPlace(s) && Enabled(s, e)
    ensures HeldInStep(Apply(s, e))
  {
    assert forall w :: 0 <= w < |s.workers| && s.workers[w].Busy? ==> HeldBy(s, w, s.workers[w].task.id);
  }

  lemma StepRecords(s: State, e: Event)
    requires RecordsMatch(s) && Enabled(s, e)
    ensures RecordsMatch(Apply(s, e))
  {
  }

  lemma StepStarted(s: State, e: Event)
    requires Placed(s) && StatusFollowsPlace(s) && StartedOnce(s) && Enabled(s, e)
    ensures StartedOnce(Apply(s, e))
  {
  }

  lemma StepTracked(s: State, e: Event)
    requires TrackedHaveRecords(s) && Enabled(s, e)
    ensures TrackedHaveRecords(Apply(s, e))
  {
  }

  ghost predicate Sound(s: State) {
    Placed(s) && StatusFollowsPlace(s) && StartedOnce(s) && TrackedHaveRecords(s)
  }

  lemma StepSound(s: State, e: Event)
    requires Sound(s) && Enabled(s, e)
    ensures Sound(Apply(s, e))
  {
    StepPlaced(s, e);
    StepWaiting(s, e);
    StepFinished(s, e);
    StepHeld(s, e);
    StepRecords(s, e);
    StepStarted(s, e);
    StepTracked(s, e);
  }

  lemma {:induction false} RunSound(events: seq<Event>, states: seq<State>, i: nat)
    requires IsRun(events, states) && i < |states|
    ensures Sound(states[i])
  {
    if i > 0 {
      RunSound(events, states, i - 1);
      StepOf(events, states, i - 1);
      StepSound(states[i - 1], events[i - 1]);
    }
  }

  /** The queue of a node never holds more than its capacity. */
  lemma {:induction false} QueueWithinCapacity(events: seq<Event>, states: seq<State>, i: nat)
    requires IsRun(events, states) && i < |states|
    ensures states[i].queueCapacity == states[0].queueCapacity
    ensures |states[i].queued| <= if states[0].queueCapacity < 0 then 0 else states[0].queueCapacity
  {
    if i > 0 {
      QueueWithinCapacity(events, states, i - 1);
      StepOf(events, states, i - 1);
    }
  }

  /** In any run a worker takes a queued task than which no other queued task has a
      higher priority, or the same priority and an earlier creation. */
  lemma PopsTakeTheFirst(events: seq<Event>, states: seq<State>, i: nat, x: TaskId)
    requires IsRun(events, states) && i < |events| && events[i].Pop? && x in states[i].queued
    ensures var s, id := states[i], events[i].id;
            && id in s.queued && id in s.node.tasks && x in s.node.tasks
            && var taken, other := s.node.tasks[id].task, s.node.tasks[x].task;
               taken.priority > other.priority ||
               (taken.priority == other.priority && taken.createdAt <= other.createdAt)
  {
    RunSound(events, states, i);
    StepOf(events, states, i);
  }
}
