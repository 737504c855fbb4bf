/** What a node's workers and submissions share, and the atomic changes they make.

    A task record is reached through pointers from the tracker, the queue and the
    worker that holds it. Here `tasks` stands for the records behind the pointers:
    a change is seen by everyone who can still reach the record, whether or not
    the tracker still lists it. */
module NodeState {
  import opened Tasks
  import opened Nodes
  import opened Counting

  datatype TaskStatus = Pending | Running | Completed | Failed

  datatype Record = Record(task: Task, status: TaskStatus, startedAt: Option<int>)

  datatype NodeView = NodeView(
    tasks: map<TaskId, Record>,
    tracked: set<TaskId>,
    capacity: Capacity,
    errorCounts: map<string, nat>,
    successCounts: map<string, nat>)

  const COMPLETED: string := "completed"

  const MAX_TASK_AGE: int := 24 * 3600 * SECOND

  function Submitted(v: NodeView, t: Task): NodeView {
    v.(tasks := v.tasks[t.id := Record(t, Pending, None)], tracked := v.tracked + {t.id})
  }

  function WithStatus(v: NodeView, id: TaskId, status: TaskStatus): NodeView {
    if id in v.tasks then v.(tasks := v.tasks[id := v.tasks[id].(status := status)]) else v
  }

  function Started(v: NodeView, id: TaskId, now: int): NodeView {
    if id in v.tasks
    then v.(tasks := v.tasks[id := v.tasks[id].(status := Running, startedAt := Some(now))])
    else v
  }

  function CountedIn(v: NodeView, t: Task): NodeView {
    v.(capacity := Incremented(v.capacity, t.estimatedTokens))
  }

  function CountedOut(v: NodeView, t: Task): NodeView {
    v.(capacity := Decremented(v.capacity, t.estimatedTokens))
  }

  /** One recording of an outcome: an error message, or success. */
  function Tallied(v: NodeView, error: Option<string>): NodeView {
    match error
    case Some(message) => v.(errorCounts := Bump(v.errorCounts, message))
    case None => v.(successCounts := Bump(v.successCounts, COMPLETED))
  }

  /** The terminal status together with the second recording. */
  function Concluded(v: NodeView, t: Task, error: Option<string>): NodeView {
    Tallied(WithStatus(v, t.id, if error == None then Completed else Failed), error)
  }

  function TooOld(v: NodeView, now: int): set<TaskId> {
    set id | id in v.tasks && now - v.tasks[id].task.createdAt > MAX_TASK_AGE
  }

  /** The tracker forgets tasks older than a day. */
  function CleanedUp(v: NodeView, now: int): NodeView {
    v.(tracked := v.tracked - TooOld(v, now))
  }

  const MAX_RUNNING_TIME: int := 5 * 60 * SECOND
  const MAX_PENDING_TIME: int := 10 * 60 * SECOND

  /** Counts as failed: it failed, or it has been running for too long. */
  predicate CountsAsFailed(r: Record, now: int) {
    r.status == Failed ||
    (r.status == Running && r.startedAt.Some? && now - r.startedAt.value > MAX_RUNNING_TIME)
  }

  /** Counts as orphaned: it has been pending for too long. */
  predicate CountsAsOrphaned(r: Record, now: int) {
    r.status == Pending && now - r.task.createdAt > MAX_PENDING_TIME
  }

  /** The tasks that are handed out for redistribution. */
  function Offered(v: NodeView, now: int): set<TaskId> {
    set id | id in v.tracked && id in v.tasks &&
             (CountsAsFailed(v.tasks[id], now) || CountsAsOrphaned(v.tasks[id], now))
  }

  function Processed(v: NodeView, t: Task, now: int, error: Option<string>): NodeView {
    CountedOut(Concluded(Tallied(CountedIn(Started(v, t.id, now), t), error), t, error), t)
  }

  ghost function ErrorRate(v: NodeView): real {
    var errors, successes := MapSum(v.errorCounts), MapSum(v.successCounts);
    if errors + successes == 0 then 0.0 else errors as real / (errors + successes) as real
  }

  /** What one uninterrupted processing amounts to: a terminal status, two
      recordings of one outcome, and capacity counters as before. */
  lemma ProcessedLeavesCapacity(v: NodeView, t: Task, now: int, error: Option<string>)
    requires v.capacity.currentConcurrentTasks >= 0 && v.capacity.currentTokensPerMin >= 0
    requires t.estimatedTokens >= 0
    ensures var p := Processed(v, t, now, error);
            && p.capacity == v.capacity && p.tracked == v.tracked
            && (t.id in v.tasks ==>
                  p.tasks == v.tasks[t.id := Record(v.tasks[t.id].task, if error == None then Completed else Failed,
                                                    Some(now))])
            && MapSum(p.errorCounts) == MapSum(v.errorCounts) + (if error == None then 0 else 2)
            && MapSum(p.successCounts) == MapSum(v.successCounts) + (if error == None then 2 else 0)
  {
    match error
    case Some(message) =>
      BumpAddsOne(v.errorCounts, message);
      BumpAddsOne(Bump(v.errorCounts, message), message);
    case None =>
      BumpAddsOne(v.successCounts, COMPLETED);
      BumpAddsOne(Bump(v.successCounts, COMPLETED), COMPLETED);
  }
}
