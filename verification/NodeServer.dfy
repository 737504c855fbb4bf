/** The node server's methods, over its own fields. Each small method is one atomic
    step of module Lifecycle; ProcessTask runs them in the order a worker does. */
module NodeServer {
  import opened Tasks
  import opened Nodes
  import opened Counting
  import opened NodeState
  import opened QueueSpec
  import Q = TaskQueue

  datatype Reply = BadRequest | Queued | QueueFull | PushFailed

  /** What a submission asks for is refused before a task is made of it. */
  predicate Malformed(payloadLength: nat, priority: int) {
    payloadLength == 0 || priority < 0 || priority > 10
  }

  function NewTask(id: TaskId, payloadLength: nat, priority: int, now: int): Task {
    Task(id, payloadLength, priority, now, payloadLength / 4)
  }

  class NodeServer {
    const capacity: NodeCapacity
    const queue: Q.TaskQueue
    var tasks: map<TaskId, Record>
    var tracked: set<TaskId>
    var errorCounts: map<string, nat>
    var successCounts: map<string, nat>

    ghost function View(): NodeView
      reads this, capacity
    {
      NodeView(tasks, tracked, capacity.View(), errorCounts, successCounts)
    }

    constructor (capacity: NodeCapacity, queue: Q.TaskQueue)
      ensures this.capacity == capacity && this.queue == queue
      ensures View() == NodeView(map[], {}, capacity.View(), map[], map[])
    {
      this.capacity, this.queue := capacity, queue;
      tasks, tracked, errorCounts, successCounts := map[], {}, map[], map[];
    }

    /** The first step of a submission: a malformed request changes nothing, any other
        makes a task that the tracker gets before the queue is asked. */
    method TrackSubmission(id: TaskId, payloadLength: nat, priority: int, now: int) returns (task: Option<Task>)
      modifies `tasks, `tracked
      ensures task == if payloadLength == 0 || priority < 0 || priority > 10 then None
                      else Some(Task(id, payloadLength, priority, now, payloadLength / 4))
      ensures View() == if task == None then old(View()) else Submitted(old(View()), task.value)
    {
      if payloadLength == 0 {
        return None;
      }
      if priority < 0 || priority > 10 {
        return None;
      }
      var t := NewTask(id, payloadLength, priority, now);
      tasks := tasks[id := Record(t, Pending, None)];
      tracked := tracked + {id};
      return Some(t);
    }

    /** The last step: the push, which others may have made fail since the queue was
        found to have room. */
    method PushTracked(t: Task) returns (reply: Reply)
      requires queue.Valid() && t.payloadLength > 0
      modifies queue, queue.items
      ensures queue.Valid()
      ensures reply == if |old(queue.Contents())| < queue.capacity then Queued else PushFailed
      ensures Step(queue.capacity, old(queue.Contents()),
                   if reply == Queued then Pushed(t) else Rejected, queue.Contents())
    {
      var error := queue.Push(Some(t));
      if error != Q.NoError {
        return PushFailed;
      }
      return Queued;
    }

    /** A whole submission, undisturbed: nobody else uses the queue between the
        question whether it is full and the push. */
    method HandleSubmitTask(id: TaskId, payloadLength: nat, priority: int, now: int) returns (reply: Reply)
      requires queue.Valid()
      modifies this, queue, queue.items
      ensures queue.Valid()
      ensures reply == if Malformed(payloadLength, priority) then BadRequest
                       else if |old(queue.Contents())| < queue.capacity then Queued
                       else QueueFull
      ensures var t := NewTask(id, payloadLength, priority, now);
              && View() == (if reply == BadRequest then old(View()) else Submitted(old(View()), t))
              && Step(queue.capacity, old(queue.Contents()),
                      if reply == Queued then Pushed(t) else Rejected, queue.Contents())
    {
      var task := TrackSubmission(id, payloadLength, priority, now);
      if task == None {
        return BadRequest;
      }
      var full := queue.IsFull();
      if full {
        return QueueFull;
      }
      reply := PushTracked(task.value);
    }

    /** The source writes the status through its own pointer and again through the
        tracker, which does nothing when the tracker no longer lists the task. */
    method SetStatus(id: TaskId, status: TaskStatus)
      modifies `tasks
      ensures View() == WithStatus(old(View()), id, status)
    {
      if id in tasks {
        tasks := tasks[id := tasks[id].(status := status)];
        if id in tracked {
          tasks := tasks[id := tasks[id].(status := status)];
        }
      }
    }

    method RecordOutcome(error: Option<string>)
      modifies `errorCounts, `successCounts
      ensures View() == Tallied(old(View()), error)
      ensures error.Some? ==>
                && successCounts == old(successCounts)
                && errorCounts == old(errorCounts)[error.value :=
                     1 + if error.value in old(errorCounts) then old(errorCounts)[error.value] else 0]
    {
      match error
      case Some(message) => errorCounts := Bump(errorCounts, message);
      case None => successCounts := Bump(successCounts, COMPLETED);
    }

    /** handleProcessingError and handleProcessingSuccess. */
    method HandleOutcome(t: Task, error: Option<string>)
      modifies `tasks, `errorCounts, `successCounts
      ensures View() == Concluded(old(View()), t, error)
    {
      SetStatus(t.id, if error == None then Completed else Failed);
      RecordOutcome(error);
    }

    method SetStarted(id: TaskId, now: int)
      modifies `tasks
      ensures View() == Started(old(View()), id, now)
    {
      if id in tasks {
        tasks := tasks[id := tasks[id].(status := Running, startedAt := Some(now))];
        if id in tracked {
          tasks := tasks[id := tasks[id].(status := Running, startedAt := Some(now))];
        }
      }
    }

    /** error is what the model call returned. */
    method ProcessTask(t: Task, now: int, error: Option<string>)
      modifies this, capacity
      ensures View() == Processed(old(View()), t, now, error)
    {
      SetStarted(t.id, now);
      capacity.IncrementTaskCounts(t.estimatedTokens);
      RecordOutcome(error);
      HandleOutcome(t, error);
      capacity.DecrementTaskCounts(t.estimatedTokens);
    }

    /** order is the order in which the tracker's table is ranged over. */
    method Cleanup(order: seq<TaskId>, now: int)
      requires tracked <= tasks.Keys && forall id :: id in order <==> id in tracked
      modifies `tracked
      ensures View() == CleanedUp(old(View()), now)
      ensures forall id :: id in tracked <==>
                id in old(tracked) && now - tasks[id].task.createdAt <= 86_400_000_000_000
    {
      ghost var expired := TooOld(View(), now);
      ghost var all := tracked;
      for i := 0 to |order|
        invariant tracked == all - (set id | id in order[..i] && id in expired)
      {
        assert order[i] in all;
        if now - tasks[order[i]].task.createdAt > MAX_TASK_AGE {
          tracked := tracked - {order[i]};
        }
      }
      assert order[..|order|] == order;
    }

    method GetFailedTasks(order: seq<TaskId>, now: int) returns (failed: seq<TaskId>)
      requires tracked <= tasks.Keys && forall id :: id in order <==> id in tracked
      ensures forall id :: id in failed <==>
                id in tracked &&
                var r := tasks[id];
                r.status == Failed ||
                (r.status == Running && r.startedAt.Some? && now - r.startedAt.value > 300_000_000_000)
    {
      failed := [];
      for i := 0 to |order|
        invariant forall id :: id in failed <==> id in order[..i] && id in tasks && CountsAsFailed(tasks[id], now)
      {
        assert order[i] in tracked;
        var r := tasks[order[i]];
        if r.status == Failed {
          failed := failed + [order[i]];
        } else if r.status == Running {
          if r.startedAt != None && now - r.startedAt.value > MAX_RUNNING_TIME {
            failed := failed + [order[i]];
          }
        }
      }
      assert order[..|order|] == order;
    }

    method GetOrphanedTasks(order: seq<TaskId>, now: int) returns (orphaned: seq<TaskId>)
      requires tracked <= tasks.Keys && forall id :: id in order <==> id in tracked
      ensures forall id :: id in orphaned <==>
                id in tracked && tasks[id].status == Pending && now - tasks[id].task.createdAt > 600_000_000_000
    {
      orphaned := [];
      for i := 0 to |order|
        invariant forall id :: id in orphaned <==> id in order[..i] && id in tasks && CountsAsOrphaned(tasks[id], now)
      {
        assert order[i] in tracked;
        var r := tasks[order[i]];
        if r.status == Pending {
          if now - r.task.createdAt > MAX_PENDING_TIME {
            orphaned := orphaned + [order[i]];
          }
        }
      }
      assert order[..|order|] == order;
    }

    method GetTasksForRedistribution(order: seq<TaskId>, now: int) returns (offered: set<TaskId>)
      requires tracked <= tasks.Keys && forall id :: id in order <==> id in tracked
      ensures offered == Offered(View(), now)
    {
      var failedTasks := GetFailedTasks(order, now);
      var orphanedTasks := GetOrphanedTasks(order, now);
      offered := {};
      for i := 0 to |failedTasks|
        invariant forall id :: id in offered <==> id in failedTasks[..i]
      {
        offered := offered + {failedTasks[i]};
      }
      for i := 0 to |orphanedTasks|
        invariant forall id :: id in offered <==> id in failedTasks || id in orphanedTasks[..i]
      {
        offered := offered + {orphanedTasks[i]};
      }
    }

    static method SumCounts(counts: map<string, nat>) returns (total: nat)
      ensures total == MapSum(counts)
    {
      total := 0;
      var rest := counts;
      while rest != map[]
        invariant total + MapSum(rest) == MapSum(counts)
        decreases |rest|
      {
        var k :| k in rest;
        MapSumTakeOut(rest, k);
        total := total + rest[k];
        rest := rest - {k};
      }
    }

    method CalculateErrorRate() returns (rate: real)
      ensures rate == ErrorRate(View())
    {
      var totalErrors := SumCounts(errorCounts);
      var totalSuccess := SumCounts(successCounts);
      if totalSuccess + totalErrors == 0 {
        return 0.0;
      }
      return totalErrors as real / (totalErrors + totalSuccess) as real;
    }
  }
}
