/** The queue as a multiset: what one operation may do to the content. */
module QueueSpec {
  import opened Tasks

  datatype Op =
    | Pushed(task: Task)
    | Rejected
    | Popped(task: Task)
    | FoundEmpty
    | Removed(task: Task)
    | Updated(before: Task, after: Task)
    | Missed
    | Cleared
    | Drained(tasks: seq<Task>)

  ghost predicate Step(capacity: int, q: multiset<Task>, op: Op, q': multiset<Task>) {
    match op
    case Pushed(t) => |q| < capacity && q' == q + multiset{t}
    case Rejected => q' == q
    case Popped(t) => IsFirst(t, q) && q' == q - multiset{t}
    case FoundEmpty => q == multiset{} && q' == q
    case Removed(t) => t in q && q' == q - multiset{t}
    case Updated(b, a) => b in q && q' == q - multiset{b} + multiset{a}
    case Missed => q' == q
    case Cleared => q' == multiset{}
    case Drained(ts) => Sorted(ts) && multiset(ts) == q && q' == multiset{}
  }
}
