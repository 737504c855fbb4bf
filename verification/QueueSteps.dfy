/** The queue's own methods are the steps of the waiting protocol: what each does to
    content and token is what the step system says, whatever the consumers are doing. */
module QueueSteps {
  import opened Tasks
  import opened QueueSpec
  import opened Wakeup
  import Q = TaskQueue

  /** The protocol's view of a queue. */
  ghost function Protocol(q: Q.TaskQueue, consumers: seq<Consumer>): State
    reads q
  {
    State(q.Contents(), q.notify, consumers)
  }

  method Produce(q: Q.TaskQueue, task: Option<Task>, ghost consumers: seq<Consumer>) returns (error: Q.Error)
    requires q.Valid()
    modifies q, q.items
    ensures q.Valid()
    ensures error == Q.NoError ==> task.Some?
    ensures Next(q.capacity, old(Protocol(q, consumers)),
                 Operate(if error == Q.NoError then Pushed(task.value) else Rejected), Protocol(q, consumers))
  {
    error := q.Push(task);
  }

  /** The locked part of a pop, for a consumer that is about to look. */
  method Look(q: Q.TaskQueue, c: nat, waited: nat, ghost consumers: seq<Consumer>) returns (task: Option<Task>)
    requires q.Valid() && c < |consumers| && consumers[c] == Checking
    modifies q, q.items
    ensures q.Valid()
    ensures var op := if task == None then FoundEmpty else Popped(task.value);
            Next(q.capacity, old(Protocol(q, consumers)), Check(c, op),
                 Protocol(q, consumers[c := if task == None then Waiting else Outside]))
  {
    task := q.TryPop(waited);
  }

  method Take(q: Q.TaskQueue, id: TaskId, ghost consumers: seq<Consumer>) returns (found: bool, ghost removed: Task)
    requires q.Valid()
    modifies q, q.items
    ensures q.Valid()
    ensures Next(q.capacity, old(Protocol(q, consumers)),
                 Operate(if found then Removed(removed) else Missed), Protocol(q, consumers))
  {
    found, removed := q.RemoveTask(id);
  }

  method Change(q: Q.TaskQueue, id: TaskId, updater: Task -> Task, ghost consumers: seq<Consumer>)
    returns (found: bool, ghost before: Task)
    requires q.Valid()
    modifies q, q.items
    ensures q.Valid()
    ensures Next(q.capacity, old(Protocol(q, consumers)),
                 Operate(if found then Updated(before, updater(before)) else Missed), Protocol(q, consumers))
  {
    found, before := q.UpdateTask(id, updater);
  }

  method Empty(q: Q.TaskQueue, ghost consumers: seq<Consumer>)
    requires q.Valid()
    modifies q, q.items
    ensures q.Valid()
    ensures Next(q.capacity, old(Protocol(q, consumers)), Operate(Cleared), Protocol(q, consumers))
  {
    q.Clear();
  }

  method TakeAll(q: Q.TaskQueue, ghost consumers: seq<Consumer>) returns (tasks: seq<Task>)
    requires q.Valid()
    modifies q, q.items
    ensures q.Valid()
    ensures Next(q.capacity, old(Protocol(q, consumers)), Operate(Drained(tasks)), Protocol(q, consumers))
  {
    tasks := q.Drain();
  }
}
