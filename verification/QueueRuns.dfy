/** What holds of every run of the queue, whatever the order of its operations. */
module QueueRuns {
  import opened Tasks
  import opened QueueSpec

  ghost predicate StepAt(capacity: int, ops: seq<Op>, states: seq<multiset<Task>>, i: nat)
    requires i < |ops| && i + 1 < |states|
  {
    Step(capacity, states[i], ops[i], states[i + 1])
  }

  /** A stretch of a run: states[i] is the content before operation i. */
  ghost predicate IsStretch(capacity: int, ops: seq<Op>, states: seq<multiset<Task>>) {
    |states| == |ops| + 1 &&
    forall i :: 0 <= i < |ops| ==> StepAt(capacity, ops, states, i)
  }

  /** A run from the empty queue. */
  ghost predicate IsRun(capacity: int, ops: seq<Op>, states: seq<multiset<Task>>) {
    IsStretch(capacity, ops, states) && states[0] == multiset{}
  }

  lemma StretchPrefix(capacity: int, ops: seq<Op>, states: seq<multiset<Task>>, n: nat)
    requires IsStretch(capacity, ops, states) && n <= |ops|
    ensures IsStretch(capacity, ops[..n], states[..n + 1])
    ensures states[..n + 1][0] == states[0] && states[..n + 1][n] == states[n]
    ensures n < |ops| ==> Step(capacity, states[n], ops[n], states[n + 1])
  {
    var before, prefix := ops[..n], states[..n + 1];
    forall i | 0 <= i < n ensures StepAt(capacity, before, prefix, i) {
      assert StepAt(capacity, ops, states, i);
    }
    assert n < |ops| ==> StepAt(capacity, ops, states, n);
  }

  lemma RunPrefix(capacity: int, ops: seq<Op>, states: seq<multiset<Task>>, n: nat)
    requires IsRun(capacity, ops, states) && n <= |ops|
    ensures IsRun(capacity, ops[..n], states[..n + 1])
  {
    StretchPrefix(capacity, ops, states, n);
  }

  // ---------- Size ----------

  lemma {:induction false} CapacityHolds(capacity: int, ops: seq<Op>, states: seq<multiset<Task>>, i: nat)
    requires IsRun(capacity, ops, states) && i < |states|
    ensures |states[i]| <= if capacity < 0 then 0 else capacity
  {
    if i > 0 {
      CapacityHolds(capacity, ops, states, i - 1);
      assert StepAt(capacity, ops, states, i - 1);
    }
  }

  // ---------- Order of departure ----------

  /** The tasks that one operation hands out, in order. */
  function Leaving(op: Op): seq<Task> {
    match op
    case Popped(t) => [t]
    case Drained(ts) => ts
    case _ => []
  }

  /** Every task that the run handed out, in order. */
  function Departures(ops: seq<Op>): seq<Task> {
    if ops == [] then [] else Departures(ops[..|ops| - 1]) + Leaving(ops[|ops| - 1])
  }

  function Arriving(op: Op): seq<Task> {
    if op.Pushed? then [op.task] else []
  }

  function Arrivals(ops: seq<Op>): seq<Task> {
    if ops == [] then []
    else Arrivals(ops[..|ops| - 1]) + Arriving(ops[|ops| - 1])
  }

  predicate SameKey(a: Task, b: Task) {
    a.priority == b.priority && a.createdAt == b.createdAt
  }

  /** Tasks of one priority are created in the order in which they are pushed. */
  ghost predicate ArriveInOrder(ops: seq<Op>) {
    InOrderWithin(Arrivals(ops))
  }

  ghost predicate UpdatesKeepKeys(ops: seq<Op>) {
    forall op :: op in ops && op.Updated? ==> SameKey(op.before, op.after)
  }

  /** Tasks of equal priority come in the order of their creation. */
  ghost predicate InOrderWithin(ts: seq<Task>) {
    forall i, j :: 0 <= i < j < |ts| && ts[i].priority == ts[j].priority ==>
      ts[i].createdAt < ts[j].createdAt
  }

  /** No two queued tasks of one priority were created at the same time. */
  ghost predicate DistinctTimes(q: multiset<Task>) {
    (forall x :: x in q ==> q[x] == 1) &&
    forall x, y :: x in q && y in q && x != y ==> !SameKey(x, y)
  }

  /** Whatever left did so before anything of its priority that is still queued. */
  ghost predicate LeftBefore(ts: seq<Task>, q: multiset<Task>) {
    forall d, x :: d in ts && x in q && d.priority == x.priority ==> d.createdAt < x.createdAt
  }

  ghost predicate HasKey(arrivals: seq<Task>, x: Task) {
    exists a :: a in arrivals && SameKey(a, x)
  }

  /** Whatever was seen so far arrived, with its priority and creation time. */
  ghost predicate SeenBy(ts: seq<Task>, q: multiset<Task>, arrivals: seq<Task>) {
    forall x :: x in q || x in ts ==> HasKey(arrivals, x)
  }

  /** The task is younger than every earlier arrival of its priority. */
  ghost predicate Youngest(arrivals: seq<Task>, t: Task) {
    forall a :: a in arrivals && a.priority == t.priority ==> a.createdAt < t.createdAt
  }

  ghost predicate Orderly(ts: seq<Task>, q: multiset<Task>, arrivals: seq<Task>) {
    DistinctTimes(q) && LeftBefore(ts, q) && InOrderWithin(ts) && SeenBy(ts, q, arrivals)
  }

  lemma PushOrderly(ts: seq<Task>, q: multiset<Task>, arrivals: seq<Task>, t: Task)
    requires Orderly(ts, q, arrivals)
    requires Youngest(arrivals, t)
    ensures Orderly(ts, q + multiset{t}, arrivals + [t])
  {
    var q' := q + multiset{t};
    forall x | x in q || x in ts ensures HasKey(arrivals + [t], x) && !SameKey(x, t) {
      var a :| a in arrivals && SameKey(a, x);
      assert a in arrivals + [t];
    }
    assert t in arrivals + [t] && HasKey(arrivals + [t], t);
    assert forall x :: x in q' ==> x == t || x in q;
  }

  lemma OneMoreInOrder(ts: seq<Task>, t: Task)
    requires InOrderWithin(ts)
    requires forall d :: d in ts && d.priority == t.priority ==> d.createdAt < t.createdAt
    ensures InOrderWithin(ts + [t])
  {
    var all := ts + [t];
    forall i, j | 0 <= i < j < |all| && all[i].priority == all[j].priority ensures all[i].createdAt < all[j].createdAt {
      assert all[i] == ts[i];
    }
  }

  lemma PopOrderly(ts: seq<Task>, q: multiset<Task>, arrivals: seq<Task>, t: Task)
    requires Orderly(ts, q, arrivals) && IsFirst(t, q)
    ensures Orderly(ts + [t], q - multiset{t}, arrivals)
  {
    OneMoreInOrder(ts, t);
    FewerKeepTimes(q, t);
    assert forall x :: x in q - multiset{t} ==> x in q;
    assert forall d :: d in ts + [t] ==> d in ts || d == t;
  }

  lemma RemoveOrderly(ts: seq<Task>, q: multiset<Task>, q': multiset<Task>, arrivals: seq<Task>)
    requires Orderly(ts, q, arrivals) && q' <= q
    ensures Orderly(ts, q', arrivals)
  {
    assert forall x :: x in q' ==> x in q;
  }

  lemma UpdateKeepsTimes(q: multiset<Task>, b: Task, a: Task)
    requires DistinctTimes(q) && b in q && SameKey(a, b)
    ensures DistinctTimes(q - multiset{b} + multiset{a})
  {
    var r := q - multiset{b};
    assert forall x :: x in r ==> x in q && x != b;
    assert a !in r;
    assert forall x :: x in r + multiset{a} ==> x == a || x in r;
  }

  lemma UpdateOrderly(ts: seq<Task>, q: multiset<Task>, arrivals: seq<Task>, b: Task, a: Task)
    requires Orderly(ts, q, arrivals) && b in q && SameKey(a, b)
    ensures Orderly(ts, q - multiset{b} + multiset{a}, arrivals)
  {
    UpdateKeepsTimes(q, b, a);
    assert HasKey(arrivals, b) && HasKey(arrivals, a);
    assert forall x :: x in q - multiset{b} + multiset{a} ==> x == a || x in q;
  }

  /** A sorted sequence is its first task and what is left after taking it. */
  lemma HeadAndTail(s: seq<Task>) returns (head: Task, tail: seq<Task>)
    requires Sorted(s) && s != []
    ensures s == [head] + tail && Sorted(tail)
    ensures IsFirst(head, multiset(s))
    ensures multiset(tail) == multiset(s) - multiset{head}
  {
    head, tail := s[0], s[1..];
    assert s == [head] + tail;
    forall x | x in multiset(s) ensures NoLater(head, x) {
      var k :| 0 <= k < |s| && s[k] == x;
      assert k == 0 || NoLater(s[0], s[k]);
    }
  }

  lemma FewerKeepTimes(q: multiset<Task>, t: Task)
    requires DistinctTimes(q) && t in q
    ensures DistinctTimes(q - multiset{t})
    ensures forall x :: x in q - multiset{t} ==> !SameKey(x, t)
  {
    assert forall x :: x in q - multiset{t} ==> x in q && x != t;
  }

  lemma {:induction false} SortedLeavesInOrder(drained: seq<Task>)
    requires Sorted(drained) && DistinctTimes(multiset(drained))
    ensures InOrderWithin(drained)
    decreases |drained|
  {
    if drained != [] {
      var head, tail := HeadAndTail(drained);
      FewerKeepTimes(multiset(drained), head);
      SortedLeavesInOrder(tail);
      assert forall x :: x in tail ==> x in multiset(tail);
      HeadLeavesFirst(head, tail);
    }
  }

  lemma HeadLeavesFirst(head: Task, tail: seq<Task>)
    requires InOrderWithin(tail)
    requires forall x :: x in tail ==> NoLater(head, x) && !SameKey(x, head)
    ensures InOrderWithin([head] + tail)
  {
    var s := [head] + tail;
    forall i, j | 0 <= i < j < |s| && s[i].priority == s[j].priority ensures s[i].createdAt < s[j].createdAt {
      if i == 0 {
        assert s[j] in tail;
      } else {
        assert s[i] == tail[i - 1] && s[j] == tail[j - 1];
      }
    }
  }

  lemma DrainOrderly(ts: seq<Task>, q: multiset<Task>, arrivals: seq<Task>, drained: seq<Task>)
    requires Orderly(ts, q, arrivals) && Sorted(drained) && multiset(drained) == q
    ensures Orderly(ts + drained, multiset{}, arrivals)
  {
    SortedLeavesInOrder(drained);
    assert forall x :: x in drained ==> x in q;
    var all := ts + drained;
    forall i, j | 0 <= i < j < |all| && all[i].priority == all[j].priority ensures all[i].createdAt < all[j].createdAt {
      if i < |ts| <= j {
        assert all[i] in ts && all[j] in drained;
      } else if |ts| <= i {
        assert all[i] == drained[i - |ts|] && all[j] == drained[j - |ts|];
      }
    }
  }

  lemma {:induction false} StepOrderly(capacity: int, ts: seq<Task>, q: multiset<Task>, op: Op, q': multiset<Task>,
                                       arrivals: seq<Task>)
    requires Orderly(ts, q, arrivals) && Step(capacity, q, op, q')
    requires op.Pushed? ==> Youngest(arrivals, op.task)
    requires op.Updated? ==> SameKey(op.before, op.after)
    ensures Orderly(ts + Leaving(op), q', arrivals + Arriving(op))
  {
    assert ts + [] == ts && arrivals + [] == arrivals;
    match op
    case Pushed(t) => PushOrderly(ts, q, arrivals, t);
    case Popped(t) => PopOrderly(ts, q, arrivals, t);
    case Drained(drained) => DrainOrderly(ts, q, arrivals, drained);
    case Updated(b, a) => UpdateOrderly(ts, q, arrivals, b, a);
    case _ => RemoveOrderly(ts, q, q', arrivals);
  }

  lemma ArrivalsPrefix(ops: seq<Op>, earlier: seq<Op>, op: Op)
    requires ops == earlier + [op] && ArriveInOrder(ops) && UpdatesKeepKeys(ops)
    ensures ArriveInOrder(earlier) && UpdatesKeepKeys(earlier)
    ensures op.Pushed? ==> Youngest(Arrivals(earlier), op.task)
    ensures op.Updated? ==> SameKey(op.before, op.after)
  {
    assert ops[..|ops| - 1] == earlier && op in ops;
    var p := Arrivals(earlier);
    assert Arrivals(ops) == p + Arriving(op);
    assert forall i :: 0 <= i < |p| ==> Arrivals(ops)[i] == p[i];
    assert op.Pushed? ==> Arrivals(ops)[|p|] == op.task;
    assert forall o :: o in earlier ==> o in ops;
  }

  lemma {:induction false} RunOrderly(capacity: int, ops: seq<Op>, states: seq<multiset<Task>>)
    requires IsRun(capacity, ops, states)
    requires ArriveInOrder(ops) && UpdatesKeepKeys(ops)
    ensures Orderly(Departures(ops), states[|ops|], Arrivals(ops))
    decreases |ops|
  {
    if ops != [] {
      var n := |ops| - 1;
      var earlier, op := ops[..n], ops[n];
      RunPrefix(capacity, ops, states, n);
      ArrivalsPrefix(ops, earlier, op);
      RunOrderly(capacity, earlier, states[..n + 1]);
      assert states[..n + 1][n] == states[n] && StepAt(capacity, ops, states, n);
      assert Departures(ops) == Departures(earlier) + Leaving(op) && Arrivals(ops) == Arrivals(earlier) + Arriving(op);
      StepOrderly(capacity, Departures(earlier), states[n], op, states[n + 1], Arrivals(earlier));
    }
  }

  /** First in, first out within a priority, over every run: with increasing
      creation times, tasks of equal priority are handed out in creation order,
      by Pop and Drain alike. */
  lemma {:induction false} FirstInFirstOut(capacity: int, ops: seq<Op>, states: seq<multiset<Task>>)
    requires IsRun(capacity, ops, states)
    requires ArriveInOrder(ops) && UpdatesKeepKeys(ops)
    ensures InOrderWithin(Departures(ops))
  {
    RunOrderly(capacity, ops, states);
  }

  /** What is still queued is younger than all that left with its priority. */
  lemma {:induction false} YoungerStay(capacity: int, ops: seq<Op>, states: seq<multiset<Task>>,
                                       left: Task, stays: Task)
    requires IsRun(capacity, ops, states)
    requires ArriveInOrder(ops) && UpdatesKeepKeys(ops)
    requires left in Departures(ops) && stays in states[|ops|] && left.priority == stays.priority
    ensures left.createdAt < stays.createdAt
  {
    RunOrderly(capacity, ops, states);
  }

  // ---------- Who leaves first ----------

  /** Wherever y comes, x has come before. */
  ghost predicate ComesFirst(ts: seq<Task>, x: Task, y: Task) {
    forall j :: 0 <= j < |ts| && ts[j] == y ==> x in ts[..j]
  }

  /** The operation neither takes the task out of turn nor changes it. */
  predicate Spares(op: Op, x: Task) {
    match op
    case Removed(t) => t != x
    case Updated(b, _) => b != x
    case Cleared => false
    case _ => true
  }

  /** As long as x has not left it is queued, and until then y does not leave. */
  ghost predicate Ahead(ts: seq<Task>, q: multiset<Task>, x: Task, y: Task) {
    ComesFirst(ts, x, y) && (x !in ts ==> x in q)
  }

  lemma ComesFirstAfter(ts: seq<Task>, more: seq<Task>, x: Task, y: Task)
    requires ComesFirst(ts, x, y) && (x in ts || ComesFirst(more, x, y))
    ensures ComesFirst(ts + more, x, y)
  {
    var all := ts + more;
    forall j | 0 <= j < |all| && all[j] == y ensures x in all[..j] {
      if j < |ts| {
        assert all[..j] == ts[..j];
      } else {
        assert all[..j] == ts + more[..j - |ts|];
      }
    }
  }

  lemma SortedComesFirst(ts: seq<Task>, x: Task, y: Task)
    requires Sorted(ts) && x in ts && Precedes(x, y)
    ensures ComesFirst(ts, x, y)
  {
    var k :| 0 <= k < |ts| && ts[k] == x;
    forall j | 0 <= j < |ts| && ts[j] == y ensures x in ts[..j] {
      assert k < j;
      assert ts[..j][k] == x;
    }
  }

  lemma {:induction false} StepAhead(capacity: int, ts: seq<Task>, q: multiset<Task>, op: Op, q': multiset<Task>,
                                     x: Task, y: Task)
    requires Precedes(x, y) && Ahead(ts, q, x, y) && Step(capacity, q, op, q') && Spares(op, x)
    ensures Ahead(ts + Leaving(op), q', x, y)
  {
    if x !in ts {
      match op
      case Popped(t) => assert t != y;
      case Drained(drained) => assert x in multiset(drained); SortedComesFirst(drained, x, y);
      case _ =>
    }
    ComesFirstAfter(ts, Leaving(op), x, y);
  }

  /** Over any run and from any of its states, a queued task leaves before every task
      that it precedes, as long as it is not removed, changed or cleared away. */
  lemma {:induction false} PrecedingLeavesFirst(capacity: int, ops: seq<Op>, states: seq<multiset<Task>>,
                                                x: Task, y: Task)
    requires IsStretch(capacity, ops, states) && x in states[0] && Precedes(x, y)
    requires forall op :: op in ops ==> Spares(op, x)
    ensures Ahead(Departures(ops), states[|ops|], x, y)
    decreases |ops|
  {
    if ops != [] {
      var n := |ops| - 1;
      var earlier, op := ops[..n], ops[n];
      assert op in ops && forall o :: o in earlier ==> o in ops;
      StretchPrefix(capacity, ops, states, n);
      PrecedingLeavesFirst(capacity, earlier, states[..n + 1], x, y);
      StepAhead(capacity, Departures(earlier), states[n], op, states[n + 1], x, y);
      assert Departures(ops) == Departures(earlier) + Leaving(op);
    }
  }

  /** t leaves at this place for the first time. */
  predicate FirstLeaves(ts: seq<Task>, t: Task, at: nat) {
    at < |ts| && ts[at] == t && t !in ts[..at]
  }

  /** Two tasks of one priority with different creation times are queued together and
      both leave: x leaves first exactly if it was created first. So the order in which
      they were pushed is kept exactly if it is the order of their creation. */
  lemma {:induction false} LeavesFirstExactly(capacity: int, ops: seq<Op>, states: seq<multiset<Task>>,
                                              x: Task, xAt: nat, y: Task, yAt: nat)
    requires IsStretch(capacity, ops, states) && x in states[0] && y in states[0]
    requires x.priority == y.priority && x.createdAt != y.createdAt
    requires forall op :: op in ops ==> Spares(op, x) && Spares(op, y)
    requires FirstLeaves(Departures(ops), x, xAt) && FirstLeaves(Departures(ops), y, yAt)
    ensures xAt < yAt <==> x.createdAt < y.createdAt
  {
    if x.createdAt < y.createdAt {
      PrecedingLeavesFirst(capacity, ops, states, x, y);
      FirstComesFirst(Departures(ops), x, xAt, y, yAt);
    } else {
      PrecedingLeavesFirst(capacity, ops, states, y, x);
      FirstComesFirst(Departures(ops), y, yAt, x, xAt);
    }
  }

  lemma FirstComesFirst(ts: seq<Task>, x: Task, xAt: nat, y: Task, yAt: nat)
    requires ComesFirst(ts, x, y) && FirstLeaves(ts, x, xAt) && FirstLeaves(ts, y, yAt)
    ensures xAt < yAt
  {
    assert x in ts[..yAt];
    var k :| 0 <= k < yAt && ts[..yAt][k] == x;
  }

  /** No popped task has a lower priority than one that stays. */
  lemma NoLowerPriorityLeaves(capacity: int, ops: seq<Op>, states: seq<multiset<Task>>, i: nat, x: Task)
    requires IsRun(capacity, ops, states) && i < |ops| && ops[i].Popped?
    requires x in states[i + 1]
    ensures ops[i].task.priority >= x.priority
  {
    assert StepAt(capacity, ops, states, i);
    assert x in states[i];
  }

  // ---------- Conservation ----------

  predicate OnlyPushesAndPops(ops: seq<Op>) {
    forall op :: op in ops ==> !op.Removed? && !op.Updated? && !op.Cleared?
  }

  lemma StepConserves(capacity: int, q: multiset<Task>, op: Op, q': multiset<Task>)
    requires Step(capacity, q, op, q') && !op.Removed? && !op.Updated? && !op.Cleared?
    ensures q + multiset(Arriving(op)) == multiset(Leaving(op)) + q'
  {
  }

  /** Without removals, updates and clears, what arrived is exactly what left and what is queued. */
  lemma {:induction false} NothingIsLost(capacity: int, ops: seq<Op>, states: seq<multiset<Task>>)
    requires IsRun(capacity, ops, states) && OnlyPushesAndPops(ops)
    ensures multiset(Arrivals(ops)) == multiset(Departures(ops)) + states[|ops|]
    decreases |ops|
  {
    if ops != [] {
      var n := |ops| - 1;
      RunPrefix(capacity, ops, states, n);
      NothingIsLost(capacity, ops[..n], states[..n + 1]);
      assert ops[n] in ops && StepAt(capacity, ops, states, n);
      StepConserves(capacity, states[n], ops[n], states[n + 1]);
      assert multiset(Departures(ops)) == multiset(Departures(ops[..n])) + multiset(Leaving(ops[n]));
    }
  }

  // ---------- Draining is canonical ----------

  lemma OneFirst(x: Task, y: Task, q: multiset<Task>)
    requires IsFirst(x, q) && IsFirst(y, q) && DistinctTimes(q)
    ensures x == y
  {
    assert NoLater(x, y) && NoLater(y, x);
  }

  /** With distinct creation times the drained order depends on the content alone,
      not on how the heap came to be arranged. */
  lemma {:induction false} DrainIsCanonical(a: seq<Task>, b: seq<Task>)
    requires Sorted(a) && Sorted(b) && multiset(a) == multiset(b)
    requires DistinctTimes(multiset(a))
    ensures a == b
    decreases |a|
  {
    assert |a| == |multiset(a)| == |multiset(b)| == |b|;
    if a != [] {
      var x, ra := HeadAndTail(a);
      var y, rb := HeadAndTail(b);
      OneFirst(x, y, multiset(a));
      FewerKeepTimes(multiset(a), x);
      DrainIsCanonical(ra, rb);
    }
  }
}
