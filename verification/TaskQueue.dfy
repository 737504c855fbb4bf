/** The bounded priority queue, as a class over the heap array.

    The source's taskHeap.Push and taskHeap.Pop have value receivers, so the
    slice they grow or shrink is lost. What is modelled is what the queue is
    documented to do: the backing slice grows with each accepted task and
    shrinks with each departure. The array is allocated once, at capacity, and
    `size` is the length of the slice. Each method is one lock-protected step;
    the waiting between the steps of PopWithTimeout is in module Wakeup. A
    field that a `modifies` clause does not name stays as it was. */
module TaskQueue {
  import opened Tasks
  import opened BinaryHeap
  import opened QueueSpec

  datatype Error = NoError | ErrInvalidTask | ErrQueueFull

  /** The names under which operations and errors are counted. */
  datatype Operation = PushOp | PopOp | RemoveOp | UpdateOp | ClearOp | DrainOp
  datatype ErrorKind =
    | PushNilTask | PushEmptyPayload | PushQueueFull
    | RemoveTaskNotFound | UpdateTaskNotFound

  function Averaged(average: nat, waited: nat): nat {
    if average == 0 then waited else (average + waited) / 2
  }

  ghost predicate Holds(content: multiset<Task>, taskID: TaskId) {
    exists t :: t in content && t.id == taskID
  }

  /** The heap with one more task. */
  function Inserted(s: seq<Task>, t: Task): seq<Task> {
    SiftUp(s + [t], |s|)
  }

  lemma InsertedRestores(s: seq<Task>, t: Task)
    requires IsHeap(s)
    ensures IsHeap(Inserted(s, t))
    ensures multiset(Inserted(s, t)) == multiset(s) + multiset{t}
  {
    Appended(s, t);
    SiftUpRestores(s + [t], |s|);
  }

  lemma UpdatedRestores(s: seq<Task>, k: nat, t: Task)
    requires IsHeap(s) && k < |s|
    ensures IsHeap(Fixed(s[k := t], k))
    ensures multiset(Fixed(s[k := t], k)) == multiset(s) - multiset{s[k]} + multiset{t}
  {
    OneKeyChanged(s, k, t);
    FixedRestores(s[k := t], k);
  }

  class TaskQueue {
    const capacity: int
    const items: array<Task>
    var size: nat
    var peakSize: nat
    var operationCounts: map<Operation, nat>
    var errorCounts: map<ErrorKind, nat>
    var avgWaitTime: nat
    /** The slice behind the heap: the first `size` places of the array. */
    ghost var heap: seq<Task>
    /** The one slot of the notify channel. */
    var notify: bool

    ghost predicate Valid()
      reads this, items
    {
      items.Length == Max(capacity, 0) &&
      InOrder() && size <= peakSize <= items.Length
    }

    ghost function Contents(): multiset<Task>
      reads `heap
    {
      multiset(heap)
    }

    constructor (capacity: int)
      ensures Valid() && fresh(items)
      ensures this.capacity == capacity
      ensures Contents() == multiset{}
      ensures peakSize == 0 && !notify && avgWaitTime == 0
      ensures operationCounts == map[] && errorCounts == map[]
    {
      this.capacity := capacity;
      items := new Task[Max(capacity, 0)];
      size, peakSize, avgWaitTime := 0, 0, 0;
      operationCounts, errorCounts := map[], map[];
      notify := false;
      heap := [];
    }

    /** The slice is the heap, in order. */
    ghost predicate InOrder()
      reads `size, `heap, items
    {
      size <= items.Length && heap == items[..size] && IsHeap(heap)
    }

    /** Grows the slice by one place. */
    method Append(t: Task)
      requires size < items.Length
      modifies `size, items
      ensures size == old(size) + 1
      ensures items[..size] == old(items[..size]) + [t]
    {
      items[size] := t;
      size := size + 1;
    }

    method HeapPush(t: Task)
      requires InOrder() && size < items.Length
      modifies `size, `heap, items
      ensures InOrder() && size == old(size) + 1
      ensures Contents() == old(Contents()) + multiset{t}
    {
      InsertedRestores(heap, t);
      ghost var restored := Inserted(heap, t);
      Append(t);
      Up(items, size - 1, size);
      heap := restored;
    }

    method HeapRemove(k: nat) returns (t: Task)
      requires InOrder() && k < size
      modifies `size, `heap, items
      ensures InOrder() && size == old(size) - 1
      ensures t == old(heap)[k]
      ensures Contents() == old(Contents()) - multiset{t}
    {
      WithoutRestores(heap, k);
      t := Remove(items, k, size);
      size := size - 1;
      heap := items[..size];
    }

    /** Popping is removing the root: from there nothing can move up. */
    method HeapPop() returns (t: Task)
      requires InOrder() && size > 0
      modifies `size, `heap, items
      ensures InOrder() && size == old(size) - 1
      ensures IsFirst(t, old(Contents()))
      ensures Contents() == old(Contents()) - multiset{t}
    {
      HeapFirst(heap);
      t := HeapRemove(0);
    }

    method HeapUpdate(k: nat, t: Task)
      requires InOrder() && k < size
      modifies `heap, items
      ensures InOrder()
      ensures Contents() == old(Contents()) - multiset{old(heap)[k]} + multiset{t}
    {
      UpdatedRestores(heap, k, t);
      items[k] := t;
      assert items[..size] == heap[k := t];
      Fix(items, k, size);
      heap := items[..size];
    }

    method HeapDrain() returns (tasks: seq<Task>)
      requires InOrder()
      modifies `size, `heap, items
      ensures InOrder() && size == 0
      ensures DrainedSoFar(old(Contents()), tasks, Contents())
    {
      tasks := [];
      ghost var all := Contents();
      while size > 0
        invariant InOrder()
        invariant DrainedSoFar(all, tasks, Contents())
        decreases size
      {
        ghost var rest := Contents();
        var first := HeapPop();
        OneMoreDrained(all, tasks, rest, first);
        tasks := tasks + [first];
      }
    }

    method Accept(t: Task)
      requires Valid() && size < capacity
      modifies `size, `heap, items, `peakSize, `notify, `operationCounts
      ensures Valid() && size == old(size) + 1
      ensures Contents() == old(Contents()) + multiset{t}
      ensures notify
      ensures peakSize == Max(old(peakSize), size)
      ensures operationCounts == Bump(old(operationCounts), PushOp)
    {
      HeapPush(t);
      operationCounts := Bump(operationCounts, PushOp);
      if size > peakSize {
        peakSize := size;
      }
      notify := true;
    }

    method Push(task: Option<Task>) returns (error: Error)
      requires Valid()
      modifies `size, `heap, items, `peakSize, `notify, `operationCounts, `errorCounts
      ensures Valid()
      ensures error == if task == None || task.value.payloadLength == 0 then ErrInvalidTask
                       else if |old(Contents())| >= capacity then ErrQueueFull
                       else NoError
      ensures Step(capacity, old(Contents()),
                   if error == NoError then Pushed(task.value) else Rejected,
                   Contents())
      ensures notify == (error == NoError || old(notify))
      ensures peakSize == Max(old(peakSize), size)
      ensures operationCounts == if error == NoError then Bump(old(operationCounts), PushOp)
                                 else old(operationCounts)
      ensures errorCounts == if error == NoError then old(errorCounts)
                             else Bump(old(errorCounts),
                                       if task == None then PushNilTask
                                       else if error == ErrInvalidTask then PushEmptyPayload
                                       else PushQueueFull)
    {
      if task == None {
        errorCounts := Bump(errorCounts, PushNilTask);
        return ErrInvalidTask;
      }
      if task.value.payloadLength == 0 {
        errorCounts := Bump(errorCounts, PushEmptyPayload);
        return ErrInvalidTask;
      }
      if size >= capacity {
        errorCounts := Bump(errorCounts, PushQueueFull);
        return ErrQueueFull;
      }
      Accept(task.value);
      return NoError;
    }

    method IsFull() returns (full: bool)
      requires Valid()
      ensures full <==> |Contents()| >= capacity
    {
      full := size >= capacity;
    }

    /** The lock-protected part of PopWithTimeout; None when the queue is empty.
        The wait time is what the caller's clock says it has waited so far. */
    method TryPop(waited: nat) returns (task: Option<Task>)
      requires Valid()
      modifies `size, `heap, items, `operationCounts, `avgWaitTime
      ensures Valid()
      ensures task == None <==> old(Contents()) == multiset{}
      ensures Step(capacity, old(Contents()),
                   if task == None then FoundEmpty else Popped(task.value),
                   Contents())
      ensures operationCounts == if task == None then old(operationCounts)
                                 else Bump(old(operationCounts), PopOp)
      ensures avgWaitTime == if task == None then old(avgWaitTime)
                             else if old(avgWaitTime) == 0 then waited
                             else (old(avgWaitTime) + waited) / 2
    {
      if size == 0 {
        return None;
      }
      var first := HeapPop();
      operationCounts := Bump(operationCounts, PopOp);
      avgWaitTime := Averaged(avgWaitTime, waited);
      return Some(first);
    }

    /** The position of the first task with this ID, or the size when there is none. */
    method Find(taskID: TaskId) returns (k: nat)
      requires Valid()
      ensures k <= size
      ensures k < size <==> Holds(Contents(), taskID)
      ensures k < size ==> heap[k].id == taskID
    {
      k := 0;
      while k < size
        invariant k <= size
        invariant forall j :: 0 <= j < k ==> heap[j].id != taskID
      {
        if items[k].id == taskID {
          assert heap[k] in Contents();
          return;
        }
        k := k + 1;
      }
    }

    /** Removes the first task with this ID, if there is one. */
    method TakeOut(taskID: TaskId) returns (found: bool, ghost removed: Task)
      requires Valid()
      modifies `size, `heap, items
      ensures InOrder() && size <= old(size)
      ensures found == Holds(old(Contents()), taskID)
      ensures found ==> removed.id == taskID
      ensures Step(capacity, old(Contents()), if found then Removed(removed) else Missed, Contents())
    {
      var k := Find(taskID);
      found := k < size;
      if found {
        assert heap[k] in Contents();
        var task := HeapRemove(k);
        removed := task;
      } else {
        removed := Task(0, 0, 0, 0, 0);
      }
    }

    /** Counts the operation, or the error that there was no such task. */
    method CountOutcome(found: bool, operation: Operation, missing: ErrorKind)
      modifies `operationCounts, `errorCounts
      ensures operationCounts == if found then Bump(old(operationCounts), operation) else old(operationCounts)
      ensures errorCounts == if found then old(errorCounts) else Bump(old(errorCounts), missing)
    {
      if found {
        operationCounts := Bump(operationCounts, operation);
      } else {
        errorCounts := Bump(errorCounts, missing);
      }
    }

    method RemoveTask(taskID: TaskId) returns (found: bool, ghost removed: Task)
      requires Valid()
      modifies `size, `heap, items, `operationCounts, `errorCounts
      ensures Valid()
      ensures found == Holds(old(Contents()), taskID)
      ensures found ==> removed.id == taskID
      ensures Step(capacity, old(Contents()), if found then Removed(removed) else Missed, Contents())
      ensures operationCounts == if found then Bump(old(operationCounts), RemoveOp) else old(operationCounts)
      ensures errorCounts == if found then old(errorCounts)
                             else Bump(old(errorCounts), RemoveTaskNotFound)
    {
      found, removed := TakeOut(taskID);
      CountOutcome(found, RemoveOp, RemoveTaskNotFound);
    }

    method Rewrite(taskID: TaskId, updater: Task -> Task) returns (found: bool, ghost before: Task)
      requires Valid()
      modifies `heap, items
      ensures InOrder()
      ensures found == Holds(old(Contents()), taskID)
      ensures found ==> before.id == taskID
      ensures Step(capacity, old(Contents()),
                   if found then Updated(before, updater(before)) else Missed,
                   Contents())
    {
      var k := Find(taskID);
      found := k < size;
      if found {
        before := items[k];
        assert heap[k] in Contents();
        HeapUpdate(k, updater(items[k]));
      } else {
        before := Task(0, 0, 0, 0, 0);
      }
    }

    /** Applies any change to the first task with this ID, then restores the heap. */
    method UpdateTask(taskID: TaskId, updater: Task -> Task) returns (found: bool, ghost before: Task)
      requires Valid()
      modifies `heap, items, `operationCounts, `errorCounts
      ensures Valid()
      ensures found == Holds(old(Contents()), taskID)
      ensures found ==> before.id == taskID
      ensures Step(capacity, old(Contents()),
                   if found then Updated(before, updater(before)) else Missed,
                   Contents())
      ensures operationCounts == if found then Bump(old(operationCounts), UpdateOp) else old(operationCounts)
      ensures errorCounts == if found then old(errorCounts)
                             else Bump(old(errorCounts), UpdateTaskNotFound)
    {
      found, before := Rewrite(taskID, updater);
      CountOutcome(found, UpdateOp, UpdateTaskNotFound);
    }

    method Clear()
      requires Valid()
      modifies `size, `heap, `operationCounts
      ensures Valid()
      ensures Step(capacity, old(Contents()), Cleared, Contents())
      ensures operationCounts == Bump(old(operationCounts), ClearOp)
    {
      size, heap := 0, [];
      operationCounts := Bump(operationCounts, ClearOp);
    }

    /** Pops until the queue is empty. */
    method Drain() returns (tasks: seq<Task>)
      requires Valid()
      modifies `size, `heap, items, `operationCounts
      ensures Valid()
      ensures Step(capacity, old(Contents()), Drained(tasks), Contents())
      ensures operationCounts == Bump(old(operationCounts), DrainOp)
    {
      tasks := HeapDrain();
      operationCounts := Bump(operationCounts, DrainOp);
    }
  }

  /** What has been drained is sorted, leaves before what remains, and nothing is lost. */
  ghost predicate DrainedSoFar(all: multiset<Task>, tasks: seq<Task>, rest: multiset<Task>) {
    Sorted(tasks) &&
    (forall x, y :: x in tasks && y in rest ==> NoLater(x, y)) &&
    multiset(tasks) + rest == all
  }

  lemma OneMoreDrained(all: multiset<Task>, tasks: seq<Task>, rest: multiset<Task>, first: Task)
    requires DrainedSoFar(all, tasks, rest) && IsFirst(first, rest)
    ensures DrainedSoFar(all, tasks + [first], rest - multiset{first})
  {
  }

  lemma InsertedInOrder(s: seq<Task>, t: Task)
    requires s != [] ==> !Precedes(t, s[Parent(|s|)])
    ensures Inserted(s, t) == s + [t]
  {
  }

  lemma LastTakesTheRoot(a: Task, b: Task, c: Task)
    requires !Precedes(b, c)
    ensures Without([a, b, c], 0) == [c, b]
  {
    assert [a, b, c][..2][0 := c] == [c, b];
    assert !MovesDown([c, b], 0);
  }

  /** Creation order within a priority needs distinct creation times: the heap is
      not stable. Whenever three tasks with one key are pushed into an empty queue,
      the third leaves before the second. */
  lemma TiesLeaveOutOfOrder(a: Task, b: Task, c: Task)
    requires !Precedes(a, b) && !Precedes(b, a) && !Precedes(b, c) && !Precedes(c, b)
    ensures Inserted(Inserted(Inserted([], a), b), c) == [a, b, c]
    ensures Without([a, b, c], 0) == [c, b]
  {
    InsertedInOrder([], a);
    InsertedInOrder([a], b);
    InsertedInOrder([a, b], c);
    LastTakesTheRoot(a, b, c);
  }
}
