/** The waiting protocol of PopWithTimeout, for any number of producers and
    consumers, before Close.

    The queue operations are atomic because they hold the queue's lock, and the
    notification is sent while Push still holds it. What is not atomic is the
    gap between a consumer's empty check and its wait on the notify channel:
    a consumer is then in a state of its own, and anything may happen in between.
    A consumer in that state may be in the gap or already parked on the channel.
    Where the channel hands a token directly to a parked consumer, the push is
    followed at once by that consumer's Wake. */
module Wakeup {
  import opened Tasks
  import opened QueueSpec

  /** Outside: not in a pop call. Checking: about to lock the queue and look.
      Waiting: found the queue empty and waits on the channel. */
  datatype Consumer = Outside | Checking | Waiting

  datatype State = State(content: multiset<Task>, token: bool, consumers: seq<Consumer>)

  datatype Event =
    | Operate(op: Op)           // a push, removal, update, clear or drain
    | Enter(c: nat)             // consumer c calls PopWithTimeout
    | Check(c: nat, op: Op)     // consumer c locks the queue and looks
    | Wake(c: nat)              // consumer c receives the token
    | GiveUp(c: nat)            // consumer c times out

  predicate Initial(s: State) {
    s.content == multiset{} && !s.token &&
    forall c :: 0 <= c < |s.consumers| ==> s.consumers[c] == Outside
  }

  predicate At(s: State, c: nat, where: Consumer) {
    c < |s.consumers| && s.consumers[c] == where
  }

  ghost predicate Next(capacity: int, s: State, e: Event, s': State) {
    match e
    case Operate(op) =>
      !op.Popped? && !op.FoundEmpty? &&
      Step(capacity, s.content, op, s'.content) &&
      s'.token == (s.token || op.Pushed?) &&
      s'.consumers == s.consumers
    case Enter(c) =>
      At(s, c, Outside) && s' == s.(consumers := s.consumers[c := Checking])
    case Check(c, op) =>
      At(s, c, Checking) && (op.Popped? || op.FoundEmpty?) &&
      Step(capacity, s.content, op, s'.content) &&
      s'.token == s.token &&
      s'.consumers == s.consumers[c := if op.Popped? then Outside else Waiting]
    case Wake(c) =>
      At(s, c, Waiting) && s.token &&
      s' == s.(token := false, consumers := s.consumers[c := Checking])
    case GiveUp(c) =>
      At(s, c, Waiting) && s' == s.(consumers := s.consumers[c := Outside])
  }

  /** Step i leads from states[i] to states[i + 1]. */
  ghost predicate StepAt(capacity: int, events: seq<Event>, states: seq<State>, i: nat)
    requires i < |events| && i + 1 < |states|
  {
    Next(capacity, states[i], events[i], states[i + 1])
  }

  /** states[i] is the state before events[i]. */
  ghost predicate IsRun(capacity: int, events: seq<Event>, states: seq<State>) {
    |states| == |events| + 1 && forall i :: 0 <= i < |events| ==> StepAt(capacity, events, states, i)
  }

  lemma RunPrefix(capacity: int, events: seq<Event>, states: seq<State>, n: nat)
    requires IsRun(capacity, events, states) && n <= |events|
    ensures IsRun(capacity, events[..n], states[..n + 1]) && states[..n + 1][n] == states[n]
    ensures n < |events| ==> Next(capacity, states[n], events[n], states[n + 1])
  {
    var before, prefix := events[..n], states[..n + 1];
    forall i | 0 <= i < n ensures StepAt(capacity, before, prefix, i) {
      assert StepAt(capacity, events, states, i);
    }
    assert n < |events| ==> StepAt(capacity, events, states, n);
  }

  // ---------- Safety ----------

  predicate AllWaiting(s: State) {
    forall c :: 0 <= c < |s.consumers| ==> s.consumers[c] == Waiting
  }

  /** If there is something to take and everyone is waiting for it, the token is there. */
  predicate Safe(s: State) {
    s.content != multiset{} && AllWaiting(s) ==> s.token
  }

  lemma StepSafe(capacity: int, s: State, e: Event, s': State)
    requires Safe(s) && Next(capacity, s, e, s')
    ensures Safe(s')
  {
    match e
    case Operate(op) =>
      assert AllWaiting(s') <==> AllWaiting(s);
    case Enter(c) => assert s'.consumers[c] == Checking;
    case Check(c, op) =>
      if op.Popped? { assert s'.consumers[c] == Outside; }
    case Wake(c) => assert s'.consumers[c] == Checking;
    case GiveUp(c) => assert s'.consumers[c] == Outside;
  }

  /** In every reachable state, whatever the producers and consumers did and in
      whatever order, a non-empty queue with all consumers waiting has a token. */
  lemma {:induction false} NoLostWakeup(capacity: int, events: seq<Event>, states: seq<State>, i: nat)
    requires IsRun(capacity, events, states) && Initial(states[0]) && i < |states|
    ensures Safe(states[i])
  {
    if i > 0 {
      NoLostWakeup(capacity, events, states, i - 1);
      RunPrefix(capacity, events, states, i - 1);
      StepSafe(capacity, states[i - 1], events[i - 1], states[i]);
    }
  }

  /** With a single consumer: whenever it waits while something is queued, it can wake. */
  lemma NoLostWakeupAlone(capacity: int, events: seq<Event>, states: seq<State>, i: nat)
    requires IsRun(capacity, events, states) && Initial(states[0]) && i < |states|
    requires |states[i].consumers| == 1
    ensures states[i].content != multiset{} && states[i].consumers[0] == Waiting ==> states[i].token
  {
    NoLostWakeup(capacity, events, states, i);
  }

  // ---------- Progress ----------

  /** Consumer c can take a step of its own, other than giving up. */
  predicate CanMove(s: State, c: nat) {
    At(s, c, Outside) || At(s, c, Checking) || (At(s, c, Waiting) && s.token)
  }

  predicate IsMove(e: Event) {
    e.Enter? || e.Check? || e.Wake?
  }

  /** CanMove is exactly having an enabled move. */
  lemma CanMoveIsEnabled(capacity: int, s: State, c: nat)
    ensures CanMove(s, c) <==>
            exists e: Event, s': State :: IsMove(e) && e.c == c && Next(capacity, s, e, s')
  {
    if At(s, c, Outside) {
      assert Next(capacity, s, Enter(c), s.(consumers := s.consumers[c := Checking]));
    } else if At(s, c, Checking) {
      var op := LookAt(s.content);
      var rest := if op.Popped? then s.content - multiset{op.task} else s.content;
      var there := if op.Popped? then Outside else Waiting;
      assert Next(capacity, s, Check(c, op), State(rest, s.token, s.consumers[c := there]));
    } else if At(s, c, Waiting) && s.token {
      assert Next(capacity, s, Wake(c), s.(token := false, consumers := s.consumers[c := Checking]));
    }
  }

  /** A queue that is not empty has a first task. */
  lemma {:induction false} HasFirst(content: multiset<Task>) returns (t: Task)
    requires content != multiset{}
    ensures IsFirst(t, content)
    decreases |content|
  {
    var x :| x in content;
    var rest := content - multiset{x};
    if rest == multiset{} {
      assert forall y :: y in content ==> y == x || y in rest;
      t := x;
    } else {
      var r := HasFirst(rest);
      t := if Precedes(r, x) then r else x;
      forall y | y in content ensures NoLater(t, y) {
        assert y == x || y in rest;
      }
    }
  }

  ghost function LookAt(content: multiset<Task>): (op: Op)
    ensures op.Popped? || op.FoundEmpty?
    ensures op.Popped? ==> IsFirst(op.task, content)
    ensures op.FoundEmpty? ==> content == multiset{}
  {
    if content == multiset{} then FoundEmpty
    else
      assert exists t :: IsFirst(t, content) by { var t := HasFirst(content); }
      var t :| IsFirst(t, content); Popped(t)
  }

  function Weight(c: Consumer): nat {
    match c
    case Outside => 2
    case Checking => 1
    case Waiting => 0
  }

  function Weights(cs: seq<Consumer>): (w: nat)
    ensures w <= 2 * |cs|
  {
    if cs == [] then 0 else Weights(cs[..|cs| - 1]) + Weight(cs[|cs| - 1])
  }

  /** How many moves can still be made without new tasks and timeouts. */
  function Rank(s: State): nat {
    2 * |s.content| + Weights(s.consumers) + (if s.token then 2 else 0)
  }

  lemma {:induction false} WeightsUpdate(cs: seq<Consumer>, c: nat, to: Consumer)
    requires c < |cs|
    ensures Weights(cs[c := to]) == Weights(cs) - Weight(cs[c]) + Weight(to)
  {
    var n := |cs| - 1;
    var r := cs[c := to];
    if c < n {
      assert r[..n] == cs[..n][c := to];
      WeightsUpdate(cs[..n], c, to);
    } else {
      assert r[..n] == cs[..n];
    }
  }

  lemma MoveLowersRank(capacity: int, s: State, e: Event, s': State)
    requires Next(capacity, s, e, s') && IsMove(e)
    ensures Rank(s') < Rank(s)
    ensures |s'.consumers| == |s.consumers|
  {
    WeightsUpdate(s.consumers, e.c, s'.consumers[e.c]);
    assert s'.consumers == s.consumers[e.c := s'.consumers[e.c]];
  }

  lemma {:induction false} MovesAreBounded(capacity: int, events: seq<Event>, states: seq<State>)
    requires IsRun(capacity, events, states)
    requires forall e :: e in events ==> IsMove(e)
    requires Safe(states[0])
    ensures Rank(states[|events|]) + |events| <= Rank(states[0])
    ensures Safe(states[|events|])
    ensures |states[|events|].consumers| == |states[0].consumers|
    decreases |events|
  {
    if events != [] {
      var n := |events| - 1;
      RunPrefix(capacity, events, states, n);
      assert forall e :: e in events[..n] ==> e in events;
      MovesAreBounded(capacity, events[..n], states[..n + 1]);
      assert events[n] in events;
      MoveLowersRank(capacity, states[n], events[n], states[n + 1]);
      StepSafe(capacity, states[n], events[n], states[n + 1]);
    }
  }

  /** Left to themselves, at least one consumer empties the queue: from any safe
      state, moves by the consumers, in any order they are scheduled, come to an
      end within 2 * (tasks + consumers + 1) steps, and as long as the queue is not
      empty some consumer can still move. So they can only stop when it is empty. */
  lemma ConsumersEmptyTheQueue(capacity: int, events: seq<Event>, states: seq<State>)
    requires IsRun(capacity, events, states)
    requires forall e :: e in events ==> IsMove(e)
    requires Safe(states[0]) && |states[0].consumers| > 0
    ensures |events| <= 2 * (|states[0].content| + |states[0].consumers| + 1)
    ensures var last := states[|events|];
            last.content == multiset{} || exists c :: CanMove(last, c)
  {
    MovesAreBounded(capacity, events, states);
    var last := states[|events|];
    if last.content != multiset{} {
      if AllWaiting(last) {
        assert CanMove(last, 0);
      } else {
        var c :| 0 <= c < |last.consumers| && last.consumers[c] != Waiting;
        assert CanMove(last, c);
      }
    }
  }

  // ---------- One token wakes one consumer ----------

  ghost predicate Reachable(capacity: int, s: State) {
    exists events, states :: IsRun(capacity, events, states) && Initial(states[0]) && states[|events|] == s
  }

  lemma ReachNext(capacity: int, s: State, e: Event, s': State)
    requires Reachable(capacity, s) && Next(capacity, s, e, s')
    ensures Reachable(capacity, s')
  {
    var events, states :| IsRun(capacity, events, states) && Initial(states[0]) && states[|events|] == s;
    var further, longer := events + [e], states + [s'];
    forall i | 0 <= i < |further| ensures StepAt(capacity, further, longer, i) {
      assert i < |events| ==> StepAt(capacity, events, states, i);
    }
    assert IsRun(capacity, further, longer) && longer[|further|] == s';
  }

  lemma InitialReachable(capacity: int, s: State)
    requires Initial(s)
    ensures Reachable(capacity, s)
  {
    var events: seq<Event>, states := [], [s];
    assert IsRun(capacity, events, states);
    assert states[|events|] == s;
  }

  /** The sharper property: whoever waits beside a queued task finds the token. */
  predicate Sharp(s: State) {
    s.content != multiset{} && (exists c :: 0 <= c < |s.consumers| && s.consumers[c] == Waiting) ==> s.token
  }

  /** A consumer takes the token while tasks are queued and another consumer waits. */
  predicate Strands(s: State, e: Event) {
    e.Wake? && s.content != multiset{} &&
    exists c :: 0 <= c < |s.consumers| && c != e.c && s.consumers[c] == Waiting
  }

  lemma StepSharp(capacity: int, s: State, e: Event, s': State)
    requires Sharp(s) && Next(capacity, s, e, s')
    ensures Sharp(s') <==> !Strands(s, e)
  {
    if Strands(s, e) {
      var c :| 0 <= c < |s.consumers| && c != e.c && s.consumers[c] == Waiting;
      assert s'.consumers[c] == Waiting;
    } else if c :| 0 <= c < |s'.consumers| && s'.consumers[c] == Waiting {
      assert s.consumers[c] == Waiting || s'.content == multiset{};
    }
  }

  predicate IsAcceptedPush(e: Event) {
    e.Operate? && e.op.Pushed?
  }

  /** A push wakes: whatever happened before, after an accepted push everyone who waits
      can go on. */
  lemma PushLetsAnyoneMove(capacity: int, s: State, e: Event, s': State, c: nat)
    requires Next(capacity, s, e, s') && IsAcceptedPush(e)
    ensures s'.token && Sharp(s')
    ensures c < |s'.consumers| ==> CanMove(s', c)
  {
  }

  /** A push was accepted after the last time a consumer took the token. */
  predicate PushedSinceWake(events: seq<Event>) {
    events != [] &&
    var last := events[|events| - 1];
    (IsAcceptedPush(last) || (!last.Wake? && PushedSinceWake(events[..|events| - 1])))
  }

  /** The token says exactly that: nothing else offers it, and nothing else takes it. */
  lemma {:induction false} TokenIsPushSinceWake(capacity: int, events: seq<Event>, states: seq<State>)
    requires IsRun(capacity, events, states) && Initial(states[0])
    ensures states[|events|].token <==> PushedSinceWake(events)
    decreases |events|
  {
    if events != [] {
      var n := |events| - 1;
      var before := states[..n + 1];
      RunPrefix(capacity, events, states, n);
      TokenIsPushSinceWake(capacity, events[..n], before);
    }
  }

  /** Over any run, someone waits beside a queued task without a token only since a
      stranding wake after which no push was accepted. */
  lemma {:induction false} StrandedSinceWake(capacity: int, events: seq<Event>, states: seq<State>) returns (k: nat)
    requires IsRun(capacity, events, states) && Initial(states[0]) && !Sharp(states[|events|])
    ensures k < |events| && Strands(states[k], events[k])
    ensures forall j :: k < j < |events| ==> !IsAcceptedPush(events[j])
    decreases |events|
  {
    var n := |events| - 1;
    assert |events| > 0;
    var before := states[..n + 1];
    RunPrefix(capacity, events, states, n);
    if Sharp(states[n]) {
      StepSharp(capacity, states[n], events[n], states[n + 1]);
      k := n;
    } else {
      k := StrandedSinceWake(capacity, events[..n], before);
      assert forall j :: k < j < n ==> events[..n][j] == events[j];
    }
  }

  ghost predicate AlwaysSharp(states: seq<State>) {
    forall i :: 0 <= i < |states| ==> Sharp(states[i])
  }

  predicate NobodyStranded(events: seq<Event>, states: seq<State>)
    requires |events| <= |states|
  {
    forall i :: 0 <= i < |events| ==> !Strands(states[i], events[i])
  }

  /** Over any run the sharper property holds throughout if and only if no consumer
      takes the token while tasks are queued and another consumer waits. */
  lemma {:induction false} SharpExactlyWithoutStranding(capacity: int, events: seq<Event>, states: seq<State>)
    requires IsRun(capacity, events, states) && Initial(states[0])
    ensures AlwaysSharp(states) <==> NobodyStranded(events, states)
    decreases |events|
  {
    if events != [] {
      var n := |events| - 1;
      var before := states[..n + 1];
      RunPrefix(capacity, events, states, n);
      SharpExactlyWithoutStranding(capacity, events[..n], before);
      assert AlwaysSharp(states) <==> AlwaysSharp(before) && Sharp(states[n + 1]) by {
        assert forall i :: 0 <= i < |before| ==> before[i] == states[i];
      }
      if Sharp(states[n]) {
        StepSharp(capacity, states[n], events[n], states[n + 1]);
      }
    }
  }

  lemma BothWait(capacity: int)
    ensures Reachable(capacity, State(multiset{}, false, [Waiting, Waiting]))
  {
    var none: multiset<Task> := multiset{};
    var s0 := State(none, false, [Outside, Outside]);
    var s1 := State(none, false, [Checking, Outside]);
    var s2 := State(none, false, [Waiting, Outside]);
    var s3 := State(none, false, [Waiting, Checking]);
    InitialReachable(capacity, s0);
    ReachNext(capacity, s0, Enter(0), s1);
    ReachNext(capacity, s1, Check(0, FoundEmpty), s2);
    ReachNext(capacity, s2, Enter(1), s3);
    ReachNext(capacity, s3, Check(1, FoundEmpty), State(none, false, [Waiting, Waiting]));
  }

  /** Stranding does happen: two pushes leave one token, so after one consumer took
      its task the other still waits beside a queued task, without a token. It is the
      first consumer's next call that picks the task up. */
  lemma OneTokenWakesOne(capacity: int, a: Task, b: Task)
    requires capacity >= 2 && Precedes(a, b)
    ensures Reachable(capacity, State(multiset{b}, false, [Outside, Waiting]))
  {
    var s4 := State(multiset{}, false, [Waiting, Waiting]);
    var s5 := State(multiset{a}, true, [Waiting, Waiting]);
    var s6 := State(multiset{a, b}, true, [Waiting, Waiting]);
    var s7 := State(multiset{a, b}, false, [Checking, Waiting]);
    BothWait(capacity);
    ReachNext(capacity, s4, Operate(Pushed(a)), s5);
    ReachNext(capacity, s5, Operate(Pushed(b)), s6);
    ReachNext(capacity, s6, Wake(0), s7);
    ReachNext(capacity, s7, Check(0, Popped(a)), State(multiset{b}, false, [Outside, Waiting]));
  }
}
