/** Which tasks a node hands out for redistribution, in terms of where they are. */
module Handover {
  import opened Tasks
  import opened Nodes
  import opened NodeState
  import opened Lifecycle
  import opened Conservation
  import opened Progress

  /** In every reachable state, the tasks handed out are never completed ones, and they
      are overdue if they are pending or running. They wait and were never started; or
      a worker still has them; or they are finished and failed. */
  lemma OfferedTasksArePlaced(events: seq<Event>, states: seq<State>, i: nat, now: int, id: TaskId)
    requires IsRun(events, states) && i < |states| && id in Offered(states[i].node, now)
    ensures var r := states[i].node.tasks[id];
            && r.status != Completed
            && (r.status == Pending ==> now - r.task.createdAt > 600_000_000_000)
            && (r.status == Running ==> r.startedAt.Some? && now - r.startedAt.value > 300_000_000_000)
    ensures var s := states[i];
            || ((id in s.submitting || id in s.refused || id in s.queued) &&
                s.node.tasks[id].status == Pending && Starts(events, states, id, i) == 0)
            || Held(s, id)
            || (id in s.finished && s.node.tasks[id].status == Failed && Starts(events, states, id, i) == 1)
  {
    RunSound(events, states, i);
    StartsCounted(events, states, id, i);
  }

  /** The node is done with the task: it refused it, or finished it. */
  predicate Done(s: State, id: TaskId) {
    id in s.refused || id in s.finished
  }

  lemma DoneStays(s: State, e: Event, id: TaskId)
    requires OnePlace(s) && Enabled(s, e) && Done(s, id)
    ensures Done(Apply(s, e), id)
    ensures e.Mark? ==> !HeldBy(s, e.w, id)
  {
  }

  lemma DoneNotStarted(events: seq<Event>, states: seq<State>, i: nat, id: TaskId)
    requires IsRun(events, states) && i < |events| && Done(states[i], id)
    ensures Done(states[i + 1], id)
    ensures Starts(events, states, id, i + 1) == Starts(events, states, id, i)
  {
    RunSound(events, states, i);
    StepOf(events, states, i);
    DoneStays(states[i], events[i], id);
  }

  /** A task that the node is done with is never started here again, so handing it
      out makes no second copy of its work. */
  lemma {:induction false} DoneForGood(events: seq<Event>, states: seq<State>, i: nat, j: nat, id: TaskId)
    requires IsRun(events, states) && i <= j < |states| && Done(states[i], id)
    ensures Done(states[j], id)
    ensures Starts(events, states, id, j) == Starts(events, states, id, i)
    decreases j
  {
    if i < j {
      DoneForGood(events, states, i, j - 1, id);
      DoneNotStarted(events, states, j - 1, id);
    }
  }

  // ---------- Exactly which tasks are handed out ----------

  /** A worker started the task at this time. */
  ghost predicate StartedAt(events: seq<Event>, states: seq<State>, id: TaskId, n: nat, time: int)
    requires n <= |events| < |states|
  {
    exists k :: 0 <= k < n && events[k].Mark? && events[k].now == time && HeldBy(states[k], events[k].w, id)
  }

  lemma StartTimeKept(s: State, e: Event, id: TaskId)
    requires Sound(s) && Enabled(s, e) && id in s.node.tasks
    ensures id in Apply(s, e).node.tasks
    ensures Apply(s, e).node.tasks[id].startedAt ==
            if e.Mark? && HeldBy(s, e.w, id) then Some(e.now) else s.node.tasks[id].startedAt
  {
  }

  lemma StartedAtStep(events: seq<Event>, states: seq<State>, id: TaskId, n: nat, m: nat)
    requires IsRun(events, states) && n < |events| && m == n + 1
    ensures forall time :: StartedAt(events, states, id, m, time) <==>
                           StartedAt(events, states, id, n, time) ||
                           (events[n].Mark? && events[n].now == time && HeldBy(states[n], events[n].w, id))
  {
  }

  lemma NotStartedBefore(events: seq<Event>, states: seq<State>, id: TaskId, n: nat)
    requires IsRun(events, states) && 0 < n <= |events| && id !in states[n - 1].node.tasks
    ensures forall time :: !StartedAt(events, states, id, n, time)
  {
    forall k | 0 <= k < n && events[k].Mark? ensures !HeldBy(states[k], events[k].w, id) {
      RunSound(events, states, k);
      if n - 1 < |events| {
        NotFoundBefore(events, states, id, n - 1);
      }
      assert id !in states[k].node.tasks;
    }
  }

  /** A pending task was not started; any other has the time of its one start. */
  ghost predicate StartTimeRight(events: seq<Event>, states: seq<State>, id: TaskId, n: nat)
    requires n <= |events| < |states| && id in states[n].node.tasks
  {
    var r := states[n].node.tasks[id];
    if r.status == Pending then forall time :: !StartedAt(events, states, id, n, time)
    else r.startedAt.Some? &&
         forall time :: StartedAt(events, states, id, n, time) <==> time == r.startedAt.value
  }

  lemma StartTimeStep(events: seq<Event>, states: seq<State>, id: TaskId, n: nat, m: nat)
    requires IsRun(events, states) && n < |events| && m == n + 1 && id in states[n].node.tasks
    requires Sound(states[n]) && StartTimeRight(events, states, id, n)
    ensures id in states[m].node.tasks && StartTimeRight(events, states, id, m)
  {
    var s, e := states[n], events[n];
    StepOf(events, states, n);
    StartTimeKept(s, e, id);
    StatusMovesForward(s, e, id);
    StartedAtStep(events, states, id, n, m);
    if e.Mark? && HeldBy(s, e.w, id) {
      MarkedIsRunning(s, e.w, e.now, id);
      assert forall time :: !StartedAt(events, states, id, n, time);
    } else {
      assert forall time :: StartedAt(events, states, id, m, time) <==> StartedAt(events, states, id, n, time);
    }
  }

  lemma MarkedIsRunning(s: State, w: nat, now: int, id: TaskId)
    requires Sound(s) && Enabled(s, Mark(w, now)) && HeldBy(s, w, id)
    ensures id in s.node.tasks && s.node.tasks[id].status == Pending
    ensures id in Apply(s, Mark(w, now)).node.tasks && Apply(s, Mark(w, now)).node.tasks[id].status == Running
  {
  }

  lemma {:induction false} StartTimeExactly(events: seq<Event>, states: seq<State>, id: TaskId, n: nat)
    requires IsRun(events, states) && n <= |events| && id in states[n].node.tasks
    ensures StartTimeRight(events, states, id, n)
    decreases n
  {
    if n > 0 {
      RunSound(events, states, n - 1);
      StepOf(events, states, n - 1);
      if id in states[n - 1].node.tasks {
        StartTimeExactly(events, states, id, n - 1);
        StartTimeStep(events, states, id, n - 1, n);
      } else {
        NotStartedBefore(events, states, id, n);
        NewIsPending(states[n - 1], events[n - 1], id);
      }
    }
  }

  lemma NewIsPending(s: State, e: Event, id: TaskId)
    requires Enabled(s, e) && id !in s.node.tasks && id in Apply(s, e).node.tasks
    ensures Apply(s, e).node.tasks[id].status == Pending
  {
  }

  /** In every reachable state, a task is handed out exactly if no cleanup found it more
      than a day old, and it failed, or was started more than five minutes ago and is
      still running, or was created more than ten minutes ago and is still pending. */
  lemma OfferedExactly(events: seq<Event>, states: seq<State>, i: nat, now: int, id: TaskId)
    requires IsRun(events, states) && i < |states| && id in states[i].node.tasks
    ensures var r := states[i].node.tasks[id];
            id in Offered(states[i].node, now) <==>
            && !FoundADayOld(events, states, id, i)
            && (|| r.status == Failed
                || (r.status == Running &&
                    exists time :: StartedAt(events, states, id, i, time) && now - time > 300_000_000_000)
                || (r.status == Pending && now - r.task.createdAt > 600_000_000_000))
  {
    TrackedExactly(events, states, id, i);
    StartTimeExactly(events, states, id, i);
    var r := states[i].node.tasks[id];
    if r.status == Running {
      assert StartedAt(events, states, id, i, r.startedAt.value);
    }
  }

  /** So a failed task is handed out at every later time, until a cleanup finds it a
      day old. */
  lemma FailedTasksAreOffered(events: seq<Event>, states: seq<State>, k: nat, i: nat, now: int, id: TaskId)
    requires IsRun(events, states) && k < i < |states|
    requires events[k].Conclude? && HeldBy(states[k], events[k].w, id) && states[k].workers[events[k].w].error.Some?
    requires !FoundADayOld(events, states, id, i)
    ensures id in Offered(states[i].node, now)
  {
    RunSound(events, states, k);
    StepOf(events, states, k);
    StatusMovesForward(states[k], events[k], id);
    StatusNeverGoesBack(events, states, k + 1, i, id);
    OfferedExactly(events, states, i, now, id);
  }

  /** A refused task is not lost: once it is ten minutes old it is handed out, as
      long as no cleanup found it a day old. */
  lemma RefusedTasksAreOffered(events: seq<Event>, states: seq<State>, i: nat, now: int, id: TaskId)
    requires IsRun(events, states) && i < |states|
    requires id in states[i].refused && id in states[i].node.tasks
    requires now - states[i].node.tasks[id].task.createdAt > 600_000_000_000
    requires !FoundADayOld(events, states, id, i)
    ensures id in Offered(states[i].node, now)
  {
    RefusedTasksNeverRun(events, states, i, id);
  }

  /** What tells that a task handed out is this node's work as well, now or later. */
  predicate StillOurs(s: State, id: TaskId)
    requires id in s.node.tasks
  {
    match s.node.tasks[id].status
    case Pending => !NeverStarts(s, id)
    case Running => true
    case Failed => id !in s.finished
    case Completed => false
  }

  /** A task that is handed out is with a worker of this node, or may still be started
      by one, exactly if it is running, or failed with its worker not yet done, or
      pending and not refused, given workers and, for a task still to be pushed, a queue
      of any capacity. For the others, handing out makes no second copy of the work. */
  lemma OfferedWorkedOnExactly(s: State, now: int, id: TaskId)
    requires Reachable(s) && id in Offered(s.node, now)
    ensures Held(s, id) || MayStart(s, id) <==> StillOurs(s, id)
  {
    var past, states :| IsRun(past, states) && states[|past|] == s;
    RunSound(past, states, |past|);
    MayStartExactly(s, id);
    PlaceFollowsStatus(s, id);
  }

  lemma PlaceFollowsStatus(s: State, id: TaskId)
    requires Placed(s) && StatusFollowsPlace(s) && id in s.node.tasks
    ensures s.node.tasks[id].status == Running ==> Held(s, id)
    ensures s.node.tasks[id].status == Failed ==> (Held(s, id) <==> id !in s.finished)
    ensures NeverStarts(s, id) && s.node.tasks[id].status == Pending ==> !Held(s, id)
  {
    if Held(s, id) {
      var w :| HeldBy(s, w, id);
      assert id !in s.finished && id !in s.refused && id !in s.submitting && s.workers != [];
    }
  }

  /** It does happen: a task waits in the queue for ten minutes, is handed out, and the
      next free worker runs it. */
  lemma WaitingTaskOfferedAndRun(t: Task, now: int, later: int) returns (events: seq<Event>, states: seq<State>)
    requires t.estimatedTokens >= 0 && now - t.createdAt > 600_000_000_000
    ensures IsRun(events, states) && |events| == 4
    ensures t.id in states[2].queued && t.id in Offered(states[2].node, now)
    ensures HeldBy(states[4], 0, t.id) && t.id in states[4].node.tasks && states[4].node.tasks[t.id].status == Running
  {
    var none: set<TaskId> := {};
    var node := NodeView(map[], none, Capacity(1, 1, 1, 0, 0, 0), map[], map[]);
    var s0 := State(node, none, 1, [Idle], none, none, none, none, map[]);
    var s1 := Apply(s0, Submit(t));
    var s2 := Apply(s1, Push(t.id));
    var s3 := Apply(s2, Pop(0, t.id));
    var s4 := Apply(s3, Mark(0, later));
    events := [Submit(t), Push(t.id), Pop(0, t.id), Mark(0, later)];
    states := [s0, s1, s2, s3, s4];
    assert StepAt(events, states, 0) && StepAt(events, states, 1);
    assert StepAt(events, states, 2) && StepAt(events, states, 3);
  }
}
