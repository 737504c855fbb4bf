/** The queued task and the order in which tasks leave the queue. */
module Tasks {

  datatype Option<+T> = None | Some(value: T)

  function Max(a: int, b: int): int {
    if a < b then b else a
  }

  /** Task IDs are only ever compared for equality. */
  type TaskId = nat

  /** The fields of a queued task that the queue and the node read. */
  datatype Task = Task(
    id: TaskId,
    payloadLength: nat,
    priority: int,
    createdAt: int,
    estimatedTokens: int)

  /** The heap's order: higher priority first, then earlier creation time. */
  predicate Precedes(a: Task, b: Task) {
    if a.priority != b.priority then a.priority > b.priority else a.createdAt < b.createdAt
  }

  predicate NoLater(a: Task, b: Task) {
    !Precedes(b, a)
  }

  /** No member of the queue content precedes t. */
  ghost predicate IsFirst(t: Task, content: multiset<Task>) {
    t in content && forall x :: x in content ==> NoLater(t, x)
  }

  ghost predicate Sorted(s: seq<Task>) {
    forall i, j :: 0 <= i < j < |s| ==> NoLater(s[i], s[j])
  }

  /** Counts one more event under a name, as the metric maps do. */
  function Bump<K>(counts: map<K, nat>, name: K): map<K, nat> {
    counts[name := (if name in counts then counts[name] else 0) + 1]
  }
}
