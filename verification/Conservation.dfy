/** What every run of a node keeps for each single task: it is in exactly one
    place, it is started at most once, and its status only moves forward. */
module Conservation {
  import opened Tasks
  import opened Nodes
  import opened Counting
  import opened NodeState
  import opened Lifecycle

  function Indicator(b: bool): int {
    if b then 1 else 0
  }

  /** How many workers hold the task. */
  function Holders(workers: seq<Worker>, id: TaskId): int {
    Total(workers, (w: Worker) => Indicator(w.Busy? && w.task.id == id))
  }

  lemma {:induction false} NobodyHolds(workers: seq<Worker>, id: TaskId)
    requires forall w :: 0 <= w < |workers| ==> !(workers[w].Busy? && workers[w].task.id == id)
    ensures Holders(workers, id) == 0
    decreases |workers|
  {
    if workers != [] {
      NobodyHolds(workers[..|workers| - 1], id);
    }
  }

  /** One holder counts as one, whatever the others hold. */
  lemma {:induction false} OneHolds(workers: seq<Worker>, w: nat, id: TaskId)
    requires w < |workers| && workers[w].Busy? && workers[w].task.id == id
    requires forall v :: 0 <= v < |workers| && v != w ==> !(workers[v].Busy? && workers[v].task.id == id)
    ensures Holders(workers, id) == 1
    decreases |workers|
  {
    if w == |workers| - 1 {
      NobodyHolds(workers[..|workers| - 1], id);
    } else {
      OneHolds(workers[..|workers| - 1], w, id);
    }
  }

  /** In how many places of the node the task is found. */
  function Copies(s: State, id: TaskId): int {
    Indicator(id in s.queued) + Indicator(id in s.finished) + Holders(s.workers, id)
  }

  lemma HoldersCounted(s: State, id: TaskId)
    requires OneHolder(s)
    ensures Holders(s.workers, id) == Indicator(Held(s, id))
  {
    if Held(s, id) {
      var w :| HeldBy(s, w, id);
      forall v | 0 <= v < |s.workers| && v != w ensures !(s.workers[v].Busy? && s.workers[v].task.id == id) {
        assert HeldBy(s, v, id) ==> v == w;
      }
      OneHolds(s.workers, w, id);
    } else {
      forall w | 0 <= w < |s.workers| ensures !(s.workers[w].Busy? && s.workers[w].task.id == id) {
        assert !HeldBy(s, w, id);
      }
      NobodyHolds(s.workers, id);
    }
  }

  lemma CopiesCounted(s: State, id: TaskId)
    requires Placed(s)
    ensures Copies(s, id) == Indicator(id in s.accepted)
  {
    HoldersCounted(s, id);
    if Held(s, id) {
      var w :| HeldBy(s, w, id);
      assert id !in s.queued && id !in s.finished;
    }
  }

  /** How often a worker started the task in the first n events. */
  ghost function Starts(events: seq<Event>, states: seq<State>, id: TaskId, n: nat): nat
    requires n <= |events| < |states|
  {
    if n == 0 then 0
    else
      var e := events[n - 1];
      Starts(events, states, id, n - 1) + if e.Mark? && HeldBy(states[n - 1], e.w, id) then 1 else 0
  }

  lemma {:induction false} StartsCounted(events: seq<Event>, states: seq<State>, id: TaskId, n: nat)
    requires IsRun(events, states) && n <= |events|
    ensures Starts(events, states, id, n) == if id in states[n].starts then states[n].starts[id] else 0
  {
    if n > 0 {
      StartsCounted(events, states, id, n - 1);
      RunSound(events, states, n - 1);
      var s, e := states[n - 1], events[n - 1];
      StepOf(events, states, n - 1);
      if e.Mark? {
        assert HeldBy(s, e.w, s.workers[e.w].task.id);
      }
    }
  }

  /** Every accepted task is in the queue, or with exactly one worker, or finished,
      and no task is anywhere twice. No task is started twice. */
  lemma TasksAreConserved(events: seq<Event>, states: seq<State>, i: nat, id: TaskId)
    requires IsRun(events, states) && i < |states|
    ensures Copies(states[i], id) == Indicator(id in states[i].accepted)
    ensures Starts(events, states, id, i) <= 1
    ensures id in states[i].finished ==> Starts(events, states, id, i) == 1
    ensures id in states[i].queued ==> Starts(events, states, id, i) == 0
  {
    RunSound(events, states, i);
    CopiesCounted(states[i], id);
    StartsCounted(events, states, id, i);
  }

  /** A cleanup before step n found the task more than a day old. */
  ghost predicate FoundADayOld(events: seq<Event>, states: seq<State>, id: TaskId, n: nat)
    requires n <= |events| < |states|
  {
    exists k :: 0 <= k < n && events[k].Cleanup? && id in states[k].node.tasks &&
                events[k].now - states[k].node.tasks[id].task.createdAt > 86_400_000_000_000
  }

  lemma TaskKept(s: State, e: Event, id: TaskId)
    requires Enabled(s, e) && id in s.node.tasks
    ensures id in Apply(s, e).node.tasks && Apply(s, e).node.tasks[id].task == s.node.tasks[id].task
    ensures id in Apply(s, e).node.tracked <==>
            id in s.node.tracked &&
            !(e.Cleanup? && e.now - s.node.tasks[id].task.createdAt > 86_400_000_000_000)
  {
  }

  /** The tracker forgets a task exactly when a cleanup finds it more than a day old. */
  lemma {:induction false} TrackedExactly(events: seq<Event>, states: seq<State>, id: TaskId, n: nat)
    requires IsRun(events, states) && n <= |events|
    ensures id in states[n].node.tracked <==> id in states[n].node.tasks && !FoundADayOld(events, states, id, n)
  {
    if n > 0 {
      TrackedExactly(events, states, id, n - 1);
      RunSound(events, states, n - 1);
      TrackedStep(events, states, id, n - 1);
    }
  }

  lemma TrackedStep(events: seq<Event>, states: seq<State>, id: TaskId, n: nat)
    requires IsRun(events, states) && n < |events|
    requires id in states[n].node.tracked <==> id in states[n].node.tasks && !FoundADayOld(events, states, id, n)
    ensures id in states[n + 1].node.tracked <==>
            id in states[n + 1].node.tasks && !FoundADayOld(events, states, id, n + 1)
  {
    var s, e := states[n], events[n];
    StepOf(events, states, n);
    if id in s.node.tasks {
      TaskKept(s, e, id);
      assert FoundADayOld(events, states, id, n + 1) <==>
             FoundADayOld(events, states, id, n) ||
             (e.Cleanup? && e.now - s.node.tasks[id].task.createdAt > 86_400_000_000_000);
    } else {
      NotFoundBefore(events, states, id, n);
    }
  }

  /** What is submitted later was not found by an earlier cleanup. */
  lemma {:induction false} NotFoundBefore(events: seq<Event>, states: seq<State>, id: TaskId, n: nat)
    requires IsRun(events, states) && n < |events| && id !in states[n].node.tasks
    ensures !FoundADayOld(events, states, id, n) && !FoundADayOld(events, states, id, n + 1)
    ensures forall k :: 0 <= k <= n ==> id !in states[k].node.tasks
  {
    if n > 0 {
      StepOf(events, states, n - 1);
      if id in states[n - 1].node.tasks {
        TaskKept(states[n - 1], events[n - 1], id);
      }
      NotFoundBefore(events, states, id, n - 1);
    }
  }

  /** A refused task stays pending and is never started, and the tracker keeps it
      exactly until a cleanup finds it more than a day old. */
  lemma RefusedTasksNeverRun(events: seq<Event>, states: seq<State>, i: nat, id: TaskId)
    requires IsRun(events, states) && i < |states| && id in states[i].refused
    ensures id in states[i].node.tasks && states[i].node.tasks[id].status == Pending
    ensures Starts(events, states, id, i) == 0 && id !in states[i].accepted
    ensures id in states[i].node.tracked <==> !FoundADayOld(events, states, id, i)
  {
    RunSound(events, states, i);
    StartsCounted(events, states, id, i);
    CopiesCounted(states[i], id);
    TrackedExactly(events, states, id, i);
  }

  /** A push is refused exactly if the queue is full at that moment, whatever was seen
      before. */
  lemma PushRefusedExactly(s: State, id: TaskId)
    requires Reachable(s) && id in s.submitting
    ensures id in Apply(s, Push(id)).refused <==> |s.queued| >= s.queueCapacity
    ensures id in Apply(s, Push(id)).accepted <==> |s.queued| < s.queueCapacity
    ensures Enabled(s, FindFull(id)) <==> |s.queued| >= s.queueCapacity
  {
    var events, states :| IsRun(events, states) && states[|events|] == s;
    RunSound(events, states, |events|);
  }

  /** It happens to a submission that saw room: two submissions see the last free
      place, and the second to push is refused. */
  lemma RoomLostBeforePush(a: Task, b: Task) returns (events: seq<Event>, states: seq<State>)
    requires a.id != b.id && a.estimatedTokens >= 0 && b.estimatedTokens >= 0
    ensures IsRun(events, states) && |events| == 4
    ensures b.id in states[2].submitting && HasRoom(states[2]) && events[3] == Push(b.id)
    ensures b.id in states[4].refused && b.id in states[4].node.tracked
  {
    var none: set<TaskId> := {};
    var node := NodeView(map[], none, Capacity(1, 1, 1, 0, 0, 0), map[], map[]);
    var s0 := State(node, none, 1, [Idle], none, none, none, none, map[]);
    var s1 := Apply(s0, Submit(a));
    var s2 := Apply(s1, Submit(b));
    var s3 := Apply(s2, Push(a.id));
    var s4 := Apply(s3, Push(b.id));
    events := [Submit(a), Submit(b), Push(a.id), Push(b.id)];
    states := [s0, s1, s2, s3, s4];
    assert StepAt(events, states, 0) && StepAt(events, states, 1);
    assert StepAt(events, states, 2) && StepAt(events, states, 3);
  }

  /** A step leaves a task's status alone, or its one holder moves it from pending
      to running or from running to the outcome it recorded. */
  lemma StatusMovesForward(s: State, e: Event, id: TaskId)
    requires Sound(s) && Enabled(s, e) && id in s.node.tasks
    ensures id in Apply(s, e).node.tasks && Apply(s, e).node.tasks[id].task == s.node.tasks[id].task
    ensures var was, becomes := s.node.tasks[id].status, Apply(s, e).node.tasks[id].status;
            || becomes == was
            || (was == Pending && becomes == Running && e.Mark? && HeldBy(s, e.w, id))
            || (was == Running && e.Conclude? && HeldBy(s, e.w, id) &&
                becomes == if s.workers[e.w].error == None then Completed else Failed)
  {
  }

  /** pending, then running, then a final status */
  function Advance(status: TaskStatus): int {
    match status
    case Pending => 0
    case Running => 1
    case Completed => 2
    case Failed => 2
  }

  /** Unchanged or further on. */
  predicate NotBack(was: TaskStatus, becomes: TaskStatus) {
    Advance(was) < Advance(becomes) || was == becomes
  }

  lemma StepNotBack(events: seq<Event>, states: seq<State>, i: nat, id: TaskId)
    requires IsRun(events, states) && i < |events| && id in states[i].node.tasks
    ensures id in states[i + 1].node.tasks
    ensures NotBack(states[i].node.tasks[id].status, states[i + 1].node.tasks[id].status)
  {
    RunSound(events, states, i);
    StepOf(events, states, i);
    StatusMovesForward(states[i], events[i], id);
  }

  /** Over a whole run a status never goes back, and a final status is final. */
  lemma {:induction false} StatusNeverGoesBack(events: seq<Event>, states: seq<State>, i: nat, j: nat, id: TaskId)
    requires IsRun(events, states) && i <= j < |states| && id in states[i].node.tasks
    ensures id in states[j].node.tasks
    ensures NotBack(states[i].node.tasks[id].status, states[j].node.tasks[id].status)
    decreases j
  {
    if i < j {
      StatusNeverGoesBack(events, states, i, j - 1, id);
      StepNotBack(events, states, j - 1, id);
    }
  }
}
