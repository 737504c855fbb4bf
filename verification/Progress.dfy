/** What a node's workers get done when they are left to work: all of it, in a number
    of steps that is known beforehand. */
module Progress {
  import opened Tasks
  import opened Counting
  import opened NodeState
  import opened Lifecycle
  import opened Conservation
  import opened NodeCounts

  // ---------- How a run can go on ----------

  ghost predicate CanRun(s: State, events: seq<Event>)
    decreases |events|
  {
    events == [] || (Enabled(s, events[0]) && CanRun(Apply(s, events[0]), events[1..]))
  }

  ghost function Finally(s: State, events: seq<Event>): State
    requires CanRun(s, events)
    decreases |events|
  {
    if events == [] then s else Finally(Apply(s, events[0]), events[1..])
  }

  lemma {:induction false} RunOn(s: State, a: seq<Event>, b: seq<Event>)
    requires CanRun(s, a) && CanRun(Finally(s, a), b)
    ensures CanRun(s, a + b) && Finally(s, a + b) == Finally(Finally(s, a), b)
    decreases |a|
  {
    if a == [] {
      assert a + b == b;
    } else {
      RunOn(Apply(s, a[0]), a[1..], b);
      assert (a + b)[0] == a[0] && (a + b)[1..] == a[1..] + b;
    }
  }

  lemma {:induction false} SoundOn(s: State, events: seq<Event>)
    requires Sound(s) && CanRun(s, events)
    ensures Sound(Finally(s, events))
    decreases |events|
  {
    if events != [] {
      StepSound(s, events[0]);
      SoundOn(Apply(s, events[0]), events[1..]);
    }
  }

  // ---------- Work ----------

  /** A step of a worker. */
  predicate IsWork(e: Event) {
    Actor(e).Some?
  }

  predicate AllWork(events: seq<Event>) {
    forall e :: e in events ==> IsWork(e)
  }

  /** How many steps the worker has left with its task. */
  function StepsLeft(w: Worker): int {
    if w == Idle then 0
    else match w.stage
      case Taken => 5
      case Marked => 4
      case Counted => 3
      case Tallied => 2
      case Concluded => 1
  }

  /** How many steps of work are left: six for each queued task. */
  function WorkLeft(s: State): int {
    6 * |s.queued| + Total(s.workers, StepsLeft)
  }

  predicate Quiet(s: State) {
    s.queued == {} && forall w :: w in s.workers ==> w == Idle
  }

  lemma StepsLeftBounded(s: State)
    ensures 0 <= Total(s.workers, StepsLeft) <= 5 * |s.workers|
    ensures forall w :: w in s.workers ==> StepsLeft(w) <= Total(s.workers, StepsLeft)
  {
    TotalBounds(s.workers, StepsLeft, 5);
  }

  lemma {:induction false} IdleSum(workers: seq<Worker>)
    requires forall w :: w in workers ==> w == Idle
    ensures Total(workers, StepsLeft) == 0
  {
    assert forall w :: 0 <= w < |workers| ==> workers[w] in workers;
    AllIdle(workers, StepsLeft);
  }

  lemma QuietExactly(s: State)
    ensures WorkLeft(s) >= 0
    ensures WorkLeft(s) == 0 <==> Quiet(s)
  {
    StepsLeftBounded(s);
    if Quiet(s) {
      IdleSum(s.workers);
    }
  }

  lemma WorkIsOneStep(s: State, e: Event)
    requires Enabled(s, e) && IsWork(e)
    ensures WorkLeft(Apply(s, e)) == WorkLeft(s) - 1
  {
    TotalAfter(s, e, StepsLeft);
  }

  /** Among tasks with records there is one that none of them precedes. */
  lemma {:induction false} FirstOf(tasks: map<TaskId, Record>, ids: set<TaskId>) returns (first: TaskId)
    requires ids != {} && ids <= tasks.Keys
    ensures first in ids && forall x :: x in ids ==> NoLater(tasks[first].task, tasks[x].task)
    decreases |ids|
  {
    first :| first in ids;
    if ids != {first} {
      var next := FirstOf(tasks, ids - {first});
      assert forall x :: x in ids ==> x == first || x in ids - {first};
      if Precedes(tasks[next].task, tasks[first].task) {
        first := next;
      }
    } else {
      assert forall x :: x in ids ==> x == first;
    }
  }

  lemma BusyCanWork(s: State, w: nat) returns (e: Event)
    requires w < |s.workers| && s.workers[w].Busy?
    ensures IsWork(e) && Enabled(s, e)
  {
    match s.workers[w].stage
    case Taken => e := Mark(w, 0);
    case Marked => e := CountIn(w);
    case Counted => e := Tally(w, None);
    case Tallied => e := Conclude(w);
    case Concluded => e := CountOut(w);
  }

  /** As long as work is left, some worker can do a step of it. */
  lemma SomeoneCanWork(s: State) returns (e: Event)
    requires EveryTaskPlaced(s) && s.workers != [] && !Quiet(s)
    ensures IsWork(e) && Enabled(s, e)
  {
    if w :| 0 <= w < |s.workers| && s.workers[w].Busy? {
      e := BusyCanWork(s, w);
    } else {
      var first := FirstOf(s.node.tasks, s.queued);
      e := Pop(0, first);
    }
  }

  lemma QuietMeansFinished(s: State)
    requires AcceptedPlaced(s) && Quiet(s)
    ensures forall id :: id in s.accepted ==> id in s.finished
  {
    forall id | id in s.accepted ensures id in s.finished {
      if Held(s, id) {
        var w :| HeldBy(s, w, id);
        assert s.workers[w] in s.workers;
      }
    }
  }

  lemma {:induction false} WorkIsCounted(s: State, events: seq<Event>)
    requires CanRun(s, events) && AllWork(events)
    ensures WorkLeft(Finally(s, events)) == WorkLeft(s) - |events|
    ensures var last := Finally(s, events);
            && last.accepted == s.accepted && last.submitting == s.submitting && last.refused == s.refused
            && |last.workers| == |s.workers| && last.queueCapacity == s.queueCapacity
    decreases |events|
  {
    if events != [] {
      var e := events[0];
      assert e in events && forall x :: x in events[1..] ==> x in events;
      WorkIsOneStep(s, e);
      TotalAfter(s, e, StepsLeft);
      WorkIsCounted(Apply(s, e), events[1..]);
    }
  }

  ghost predicate NobodyCanWork(s: State) {
    forall e :: IsWork(e) ==> !Enabled(s, e)
  }

  /** From any sound state the steps of the workers, in whatever order they are
      scheduled, number at most six per queued task and five per worker, and they can go
      on until exactly that work is done. */
  lemma {:induction false} WorkIsBounded(s: State, events: seq<Event>)
    requires Sound(s) && s.workers != [] && CanRun(s, events) && AllWork(events)
    ensures |events| <= WorkLeft(s) <= 6 * |s.queued| + 5 * |s.workers|
    ensures |events| == WorkLeft(s) <==> NobodyCanWork(Finally(s, events))
  {
    WorkIsCounted(s, events);
    SoundOn(s, events);
    StepsLeftBounded(s);
    var last := Finally(s, events);
    QuietExactly(last);
    if Quiet(last) {
      forall e | IsWork(e) ensures !Enabled(last, e) {
        QuietCannotWork(last, e);
      }
    } else {
      var e := SomeoneCanWork(last);
    }
  }

  /** Progress: when the workers have done what they can, in whatever order, the queue
      is empty and every accepted task is finished. */
  lemma {:induction false} WorkersFinishEverything(s: State, events: seq<Event>)
    requires Sound(s) && s.workers != [] && CanRun(s, events) && AllWork(events)
    requires NobodyCanWork(Finally(s, events))
    ensures Quiet(Finally(s, events))
    ensures forall id :: id in s.accepted ==> id in Finally(s, events).finished
  {
    WorkIsBounded(s, events);
    WorkIsCounted(s, events);
    SoundOn(s, events);
    QuietExactly(Finally(s, events));
    QuietMeansFinished(Finally(s, events));
  }

  lemma QuietCannotWork(s: State, e: Event)
    requires Quiet(s) && IsWork(e)
    ensures !Enabled(s, e)
  {
    var w := Actor(e).value;
    assert w < |s.workers| ==> s.workers[w] in s.workers;
  }

  /** Some schedule does all the work. */
  lemma {:induction false} WorkToTheEnd(s: State) returns (events: seq<Event>)
    requires Sound(s) && s.workers != []
    ensures CanRun(s, events) && AllWork(events) && |events| == WorkLeft(s)
    decreases WorkLeft(s)
  {
    QuietExactly(s);
    if Quiet(s) {
      events := [];
    } else {
      var e := SomeoneCanWork(s);
      WorkIsOneStep(s, e);
      StepSound(s, e);
      TotalAfter(s, e, StepsLeft);
      var rest := WorkToTheEnd(Apply(s, e));
      events := [e] + rest;
    }
  }

  // ---------- Which pending tasks are started ----------

  /** On this way on, a worker starts the task. */
  ghost predicate StartedIn(s: State, events: seq<Event>, id: TaskId)
    requires CanRun(s, events)
    decreases |events|
  {
    events != [] &&
    ((events[0].Mark? && HeldBy(s, events[0].w, id)) || StartedIn(Apply(s, events[0]), events[1..], id))
  }

  ghost predicate MayStart(s: State, id: TaskId) {
    exists events :: CanRun(s, events) && StartedIn(s, events, id)
  }

  predicate IsPending(s: State, id: TaskId) {
    id in s.node.tasks && s.node.tasks[id].status == Pending
  }

  lemma {:induction false} PendingUntilStarted(s: State, events: seq<Event>, id: TaskId)
    requires Sound(s) && CanRun(s, events) && IsPending(s, id) && !StartedIn(s, events, id)
    ensures IsPending(Finally(s, events), id)
    decreases |events|
  {
    if events != [] {
      StatusMovesForward(s, events[0], id);
      StepSound(s, events[0]);
      PendingUntilStarted(Apply(s, events[0]), events[1..], id);
    }
  }

  /** Work alone starts every accepted task. */
  lemma AcceptedMayStart(s: State, id: TaskId)
    requires Sound(s) && s.workers != [] && id in s.accepted && IsPending(s, id)
    ensures MayStart(s, id)
  {
    var events := WorkToTheEnd(s);
    WorkIsBounded(s, events);
    WorkersFinishEverything(s, events);
    SoundOn(s, events);
    if !StartedIn(s, events, id) {
      PendingUntilStarted(s, events, id);
      FinishedIsNotPending(Finally(s, events), id);
    }
  }

  lemma FinishedIsNotPending(s: State, id: TaskId)
    requires FinishedAreDone(s) && id in s.finished
    ensures !IsPending(s, id)
  {
  }

  lemma {:induction false} StartedLater(s: State, a: seq<Event>, b: seq<Event>, id: TaskId)
    requires CanRun(s, a) && CanRun(Finally(s, a), b) && CanRun(s, a + b)
    requires StartedIn(Finally(s, a), b, id)
    ensures StartedIn(s, a + b, id)
    decreases |a|
  {
    if a == [] {
      assert a + b == b;
    } else {
      assert (a + b)[0] == a[0] && (a + b)[1..] == a[1..] + b;
      StartedLater(Apply(s, a[0]), a[1..], b, id);
    }
  }

  lemma MayStartLater(s: State, a: seq<Event>, id: TaskId)
    requires CanRun(s, a) && MayStart(Finally(s, a), id)
    ensures MayStart(s, id)
  {
    var b :| CanRun(Finally(s, a), b) && StartedIn(Finally(s, a), b, id);
    RunOn(s, a, b);
    StartedLater(s, a, b, id);
  }

  lemma OneEvent(s: State, e: Event)
    requires Enabled(s, e)
    ensures CanRun(s, [e]) && Finally(s, [e]) == Apply(s, e)
  {
    var s' := Apply(s, e);
    assert [e][1..] == [];
    assert CanRun(s', []) && Finally(s', []) == s';
  }

  lemma PushAccepts(s: State, id: TaskId)
    requires s.queued == {} && s.queueCapacity > 0 && id in s.submitting && IsPending(s, id)
    ensures Enabled(s, Push(id))
    ensures var s' := Apply(s, Push(id)); id in s'.accepted && IsPending(s', id) && s'.workers == s.workers
  {
  }

  lemma PushedMayStart(s: State, id: TaskId)
    requires Sound(s) && s.workers != [] && s.queued == {} && s.queueCapacity > 0
    requires id in s.submitting && IsPending(s, id)
    ensures MayStart(s, id)
  {
    PushAccepts(s, id);
    StepSound(s, Push(id));
    AcceptedMayStart(Apply(s, Push(id)), id);
    OneEvent(s, Push(id));
    MayStartLater(s, [Push(id)], id);
  }

  /** First work, then the push that finds the queue empty. */
  lemma SubmittedMayStart(s: State, id: TaskId)
    requires Sound(s) && s.workers != [] && s.queueCapacity > 0 && id in s.submitting && IsPending(s, id)
    ensures MayStart(s, id)
  {
    var events := WorkToTheEnd(s);
    WorkIsBounded(s, events);
    WorkersFinishEverything(s, events);
    WorkIsCounted(s, events);
    SoundOn(s, events);
    if !StartedIn(s, events, id) {
      PendingUntilStarted(s, events, id);
      PushedMayStart(Finally(s, events), id);
      MayStartLater(s, events, id);
    }
  }

  /** Nobody will start the task: there is no worker, or the task was refused, or it
      is still to be pushed and no push ever succeeds. */
  predicate NeverStarts(s: State, id: TaskId) {
    s.workers == [] || id in s.refused || (id in s.submitting && s.queueCapacity <= 0)
  }

  lemma NeverStartsStays(s: State, e: Event, id: TaskId)
    requires OnePlace(s) && Enabled(s, e) && NeverStarts(s, id)
    ensures NeverStarts(Apply(s, e), id)
    ensures e.Mark? ==> !HeldBy(s, e.w, id)
  {
  }

  lemma {:induction false} NotStarted(s: State, events: seq<Event>, id: TaskId)
    requires Sound(s) && CanRun(s, events) && NeverStarts(s, id)
    ensures !StartedIn(s, events, id)
    decreases |events|
  {
    if events != [] {
      NeverStartsStays(s, events[0], id);
      StepSound(s, events[0]);
      NotStarted(Apply(s, events[0]), events[1..], id);
    }
  }

  lemma OnlyPendingStarts(s: State, e: Event, id: TaskId)
    requires Sound(s) && Enabled(s, e) && id in s.node.tasks && s.node.tasks[id].status != Pending
    ensures e.Mark? ==> !HeldBy(s, e.w, id)
    ensures id in Apply(s, e).node.tasks && Apply(s, e).node.tasks[id].status != Pending
  {
    StatusMovesForward(s, e, id);
  }

  lemma {:induction false} NotStartedTwice(s: State, events: seq<Event>, id: TaskId)
    requires Sound(s) && CanRun(s, events) && id in s.node.tasks && s.node.tasks[id].status != Pending
    ensures !StartedIn(s, events, id)
    decreases |events|
  {
    if events != [] {
      OnlyPendingStarts(s, events[0], id);
      StepSound(s, events[0]);
      NotStartedTwice(Apply(s, events[0]), events[1..], id);
    }
  }

  lemma PendingIsWaiting(s: State, id: TaskId)
    requires Placed(s) && FinishedAreDone(s) && IsPending(s, id)
    ensures id in s.submitting || id in s.refused || id in s.accepted
  {
  }

  lemma PendingMayStart(s: State, id: TaskId)
    requires Sound(s) && IsPending(s, id) && !NeverStarts(s, id)
    ensures MayStart(s, id)
  {
    PendingIsWaiting(s, id);
    if id in s.submitting {
      SubmittedMayStart(s, id);
    } else {
      AcceptedMayStart(s, id);
    }
  }

  /** In every reachable state, a task may still be started on some way on if and only
      if it is pending, was not refused, there are workers, and, for a task still to be
      pushed, the queue has any capacity at all. */
  lemma MayStartExactly(s: State, id: TaskId)
    requires Reachable(s) && id in s.node.tasks
    ensures MayStart(s, id) <==> IsPending(s, id) && !NeverStarts(s, id)
  {
    var past, states :| IsRun(past, states) && states[|past|] == s;
    RunSound(past, states, |past|);
    if IsPending(s, id) && !NeverStarts(s, id) {
      PendingMayStart(s, id);
    } else {
      forall events | CanRun(s, events) ensures !StartedIn(s, events, id) {
        if IsPending(s, id) {
          NotStarted(s, events, id);
        } else {
          NotStartedTwice(s, events, id);
        }
      }
    }
  }
}
