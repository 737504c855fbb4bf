/** The circuit breaker at lock granularity.

    IsAvailable decides under the read lock, drops it, and only then takes the
    write lock to make the breaker half-open. Any number of callers may be in
    that gap, and successes and failures may be recorded meanwhile. */
module BreakerLocks {
  import opened CircuitBreaker

  /** pending counts the callers that saw an expired open breaker and have not
      written yet. */
  datatype State = State(b: Breaker, pending: nat)

  datatype Step =
    | RecordSuccess
    | RecordFailure(now: int)
    | Look(now: int)     // IsAvailable under the read lock
    | Write(now: int)    // one pending caller takes the write lock

  function Next(s: State, e: Step): State {
    match e
    case RecordSuccess => s.(b := AfterSuccess(s.b))
    case RecordFailure(now) => s.(b := AfterFailure(s.b, now))
    case Look(now) => if s.b.state == Open && Expired(s.b, now) then s.(pending := s.pending + 1) else s
    case Write(_) => if s.pending == 0 then s else State(s.b.(state := HalfOpen), s.pending - 1)
  }

  function Run(threshold: int, timeout: int, steps: seq<Step>): State {
    if steps == [] then State(NewBreaker(threshold, timeout), 0)
    else Next(Run(threshold, timeout, steps[..|steps| - 1]), steps[|steps| - 1])
  }

  /** Without a gap the two granularities agree. */
  lemma LookThenWriteIsQuery(b: Breaker, now: int)
    ensures b.state == Open && Expired(b, now) ==>
              Next(Next(State(b, 0), Look(now)), Write(now)) == State(AfterQuery(b, now), 0)
    ensures !(b.state == Open && Expired(b, now)) ==> Next(State(b, 0), Look(now)) == State(AfterQuery(b, now), 0)
  {
  }

  // ---------- What survives ----------

  predicate Closes(s: State, e: Step) {
    s.b.state != Closed && Next(s, e).b.state == Closed
  }

  /** A failure that opens the breaker, from whatever state. */
  predicate Opens(s: State, e: Step) {
    e.RecordFailure? && s.b.failureCount + 1 >= s.b.threshold
  }

  /** Successes since the last close or opening failure. */
  function SuccessesSinceTurn(threshold: int, timeout: int, steps: seq<Step>): nat {
    if steps == [] then 0
    else
      var before, e := steps[..|steps| - 1], steps[|steps| - 1];
      var s := Run(threshold, timeout, before);
      if Closes(s, e) || Opens(s, e) then 0
      else SuccessesSinceTurn(threshold, timeout, before) + (if e == RecordSuccess then 1 else 0)
  }

  lemma {:induction false} StateUnderInterleaving(threshold: int, timeout: int, steps: seq<Step>)
    requires threshold >= 1
    ensures var b := Run(threshold, timeout, steps).b;
            && b.threshold == threshold && b.timeout == timeout && b.failureCount >= 0
            && (b.state == Closed ==> b.failureCount < threshold)
            && (b.state == Open ==> b.failureCount >= threshold)
            && b.successCount == SuccessesSinceTurn(threshold, timeout, steps)
    decreases |steps|
  {
    if steps != [] {
      StateUnderInterleaving(threshold, timeout, steps[..|steps| - 1]);
    }
  }

  /** However callers interleave: a closed breaker has fewer than threshold
      failures, and it never closes before threshold successes have been recorded
      since it last closed or was opened by a failure. */
  lemma SafeUnderInterleaving(threshold: int, timeout: int, steps: seq<Step>, e: Step)
    requires threshold >= 1
    ensures var s := Run(threshold, timeout, steps);
            && (s.b.state == Closed ==> s.b.failureCount < threshold)
            && (Closes(s, e) ==> e == RecordSuccess
                                 && SuccessesSinceTurn(threshold, timeout, steps) + 1 >= threshold)
  {
    StateUnderInterleaving(threshold, timeout, steps);
  }

  // ---------- What does not ----------

  /** Half-open only after enough failures, as when calls are atomic. */
  predicate HalfOpenWasTripped(s: State) {
    s.b.state == HalfOpen ==> s.b.failureCount >= s.b.threshold
  }

  /** In every state of the run. */
  predicate AlwaysTripped(threshold: int, timeout: int, steps: seq<Step>) {
    HalfOpenWasTripped(Run(threshold, timeout, steps)) &&
    (steps != [] ==> AlwaysTripped(threshold, timeout, steps[..|steps| - 1]))
  }

  /** A pending caller writes after others have already closed the breaker. */
  predicate LateWrite(s: State, e: Step) {
    e.Write? && s.pending > 0 && s.b.state == Closed
  }

  predicate NoLateWrite(threshold: int, timeout: int, steps: seq<Step>) {
    steps != [] ==>
      NoLateWrite(threshold, timeout, steps[..|steps| - 1]) &&
      !LateWrite(Run(threshold, timeout, steps[..|steps| - 1]), steps[|steps| - 1])
  }

  /** Over any run, "half-open means tripped" holds throughout if and only if no
      pending write lands on a closed breaker. */
  lemma {:induction false} TrippedExactlyWithoutLateWrites(threshold: int, timeout: int, steps: seq<Step>)
    requires threshold >= 1
    ensures AlwaysTripped(threshold, timeout, steps) <==> NoLateWrite(threshold, timeout, steps)
    decreases |steps|
  {
    if steps != [] {
      var before := steps[..|steps| - 1];
      TrippedExactlyWithoutLateWrites(threshold, timeout, before);
      StateUnderInterleaving(threshold, timeout, before);
      if AlwaysTripped(threshold, timeout, before) {
        assert HalfOpenWasTripped(Run(threshold, timeout, before));
      }
    }
  }

  lemma RunOneMore(threshold: int, timeout: int, steps: seq<Step>, e: Step)
    ensures Run(threshold, timeout, steps + [e]) == Next(Run(threshold, timeout, steps), e)
  {
    assert (steps + [e])[..|steps|] == steps;
  }

  function Repeat(e: Step, n: nat): seq<Step> {
    if n == 0 then [] else Repeat(e, n - 1) + [e]
  }

  lemma {:induction false} FailuresOpen(threshold: int, timeout: int, n: nat)
    requires 1 <= threshold && n <= threshold
    ensures Run(threshold, timeout, Repeat(RecordFailure(0), n)) ==
            State(Breaker(if n < threshold then Closed else Open, n, 0, 0, threshold, timeout), 0)
  {
    if n > 0 {
      FailuresOpen(threshold, timeout, n - 1);
      RunOneMore(threshold, timeout, Repeat(RecordFailure(0), n - 1), RecordFailure(0));
    }
  }

  /** A half-open state with n successes; with enough of them it is closed instead. */
  function WithSuccesses(s: State, n: nat): State {
    s.(b := if n < s.b.threshold then s.b.(state := HalfOpen, successCount := n)
            else s.b.(state := Closed, failureCount := 0, successCount := 0))
  }

  lemma OneMoreSuccess(s: State, n: nat)
    requires n < s.b.threshold
    ensures Next(WithSuccesses(s, n), RecordSuccess) == WithSuccesses(s, n + 1)
  {
  }

  lemma {:induction false} SuccessesClose(threshold: int, timeout: int, steps: seq<Step>, s: State, n: nat)
    requires Run(threshold, timeout, steps) == WithSuccesses(s, 0) && n <= s.b.threshold
    ensures Run(threshold, timeout, steps + Repeat(RecordSuccess, n)) == WithSuccesses(s, n)
  {
    if n == 0 {
      assert steps + [] == steps;
    } else {
      var before := steps + Repeat(RecordSuccess, n - 1);
      SuccessesClose(threshold, timeout, steps, s, n - 1);
      RunOneMore(threshold, timeout, before, RecordSuccess);
      OneMoreSuccess(s, n - 1);
      assert steps + Repeat(RecordSuccess, n) == before + [RecordSuccess];
    }
  }

  /** A late write does happen, whatever the threshold: two callers see the expired
      breaker, one writes and enough calls succeed to close the breaker; then the
      other writes. */
  lemma LateWriteHappens(threshold: int, timeout: nat) returns (steps: seq<Step>)
    requires threshold >= 1
    ensures !NoLateWrite(threshold, timeout, steps)
    ensures var b := Run(threshold, timeout, steps).b; b.state == HalfOpen && b.failureCount == 0
  {
    var now := timeout + 1;
    var tripped := Repeat(RecordFailure(0), threshold);
    FailuresOpen(threshold, timeout, threshold);
    RunOneMore(threshold, timeout, tripped, Look(now));
    RunOneMore(threshold, timeout, tripped + [Look(now)], Look(now));
    var seen := tripped + [Look(now)] + [Look(now)];
    RunOneMore(threshold, timeout, seen, Write(now));
    var open := Run(threshold, timeout, seen + [Write(now)]);
    SuccessesClose(threshold, timeout, seen + [Write(now)], open, threshold);
    var closed := seen + [Write(now)] + Repeat(RecordSuccess, threshold);
    RunOneMore(threshold, timeout, closed, Write(now));
    steps := closed + [Write(now)];
    assert steps[..|steps| - 1] == closed;
  }

  // ---------- The closed form over time ----------

  /** All clock readings of the run are at or before now. */
  predicate NoLaterThan(steps: seq<Step>, now: int) {
    steps != [] ==>
      NoLaterThan(steps[..|steps| - 1], now) &&
      (steps[|steps| - 1] != RecordSuccess ==> steps[|steps| - 1].now <= now)
  }

  /** The clock does not run backwards. */
  predicate ClockRuns(steps: seq<Step>) {
    steps != [] ==>
      ClockRuns(steps[..|steps| - 1]) &&
      (steps[|steps| - 1] != RecordSuccess ==> NoLaterThan(steps[..|steps| - 1], steps[|steps| - 1].now))
  }

  /** Failures recorded since the breaker last closed. */
  function FailuresSinceLastClose(threshold: int, timeout: int, steps: seq<Step>): nat {
    if steps == [] then 0
    else
      var before, e := steps[..|steps| - 1], steps[|steps| - 1];
      if Closes(Run(threshold, timeout, before), e) then 0
      else FailuresSinceLastClose(threshold, timeout, before) + (if e.RecordFailure? then 1 else 0)
  }

  function TimeOfLastFailure(steps: seq<Step>): int {
    if steps == [] then 0
    else if steps[|steps| - 1].RecordFailure? then steps[|steps| - 1].now
    else TimeOfLastFailure(steps[..|steps| - 1])
  }

  /** However callers interleave, the record counts the failures since the last close
      and remembers the time of the last one. */
  lemma {:induction false} CountsFollowSteps(threshold: int, timeout: int, steps: seq<Step>)
    ensures var b := Run(threshold, timeout, steps).b;
            && b.threshold == threshold && b.timeout == timeout
            && b.failureCount == FailuresSinceLastClose(threshold, timeout, steps)
            && b.lastFailureTime == TimeOfLastFailure(steps)
    decreases |steps|
  {
    if steps != [] {
      CountsFollowSteps(threshold, timeout, steps[..|steps| - 1]);
    }
  }

  /** From now on, a call is let through exactly when fewer than threshold failures
      came since the last close or the timeout has passed since the last one. */
  ghost predicate ClosedFormAfter(threshold: int, timeout: int, steps: seq<Step>) {
    forall now :: NoLaterThan(steps, now) ==>
      (Available(Run(threshold, timeout, steps).b, now) <==>
       FailuresSinceLastClose(threshold, timeout, steps) < threshold || now - TimeOfLastFailure(steps) > timeout)
  }

  /** After every step of the run. */
  ghost predicate AlwaysClosedForm(threshold: int, timeout: int, steps: seq<Step>) {
    ClosedFormAfter(threshold, timeout, steps) &&
    (steps != [] ==> AlwaysClosedForm(threshold, timeout, steps[..|steps| - 1]))
  }

  /** A pending caller writes although the breaker is open and its timeout, because of
      a new failure, has not passed. */
  predicate HastyWrite(s: State, e: Step) {
    e.Write? && s.pending > 0 && s.b.state == Open && !Expired(s.b, e.now)
  }

  predicate NoHastyWrite(threshold: int, timeout: int, steps: seq<Step>) {
    steps != [] ==>
      NoHastyWrite(threshold, timeout, steps[..|steps| - 1]) &&
      !HastyWrite(Run(threshold, timeout, steps[..|steps| - 1]), steps[|steps| - 1])
  }

  lemma StepClosedForm(threshold: int, timeout: int, before: seq<Step>, e: Step)
    requires threshold >= 1 && ClockRuns(before + [e])
    requires ClosedFormAfter(threshold, timeout, before)
    ensures ClosedFormAfter(threshold, timeout, before + [e]) <==> !HastyWrite(Run(threshold, timeout, before), e)
  {
    var steps := before + [e];
    RunOneMore(threshold, timeout, before, e);
    StateUnderInterleaving(threshold, timeout, before);
    CountsFollowSteps(threshold, timeout, before);
    CountsFollowSteps(threshold, timeout, steps);
    assert steps[..|steps| - 1] == before;
    assert forall now :: NoLaterThan(steps, now) ==> NoLaterThan(before, now);
    if HastyWrite(Run(threshold, timeout, before), e) {
      assert NoLaterThan(steps, e.now);
    }
  }

  /** Over any run with a clock that does not run backwards, the timed closed form
      holds throughout if and only if no pending write lands on an open breaker whose
      timeout has not passed. */
  lemma {:induction false} ClosedFormExactlyWithoutHastyWrites(threshold: int, timeout: int, steps: seq<Step>)
    requires threshold >= 1 && ClockRuns(steps)
    ensures AlwaysClosedForm(threshold, timeout, steps) <==> NoHastyWrite(threshold, timeout, steps)
    decreases |steps|
  {
    if steps != [] {
      var before, e := steps[..|steps| - 1], steps[|steps| - 1];
      ClosedFormExactlyWithoutHastyWrites(threshold, timeout, before);
      assert before + [e] == steps;
      if AlwaysClosedForm(threshold, timeout, before) {
        assert ClosedFormAfter(threshold, timeout, before);
        StepClosedForm(threshold, timeout, before, e);
      }
    }
  }

  lemma {:induction false} RepeatedAtOnce(n: nat, now: int)
    requires now >= 0
    ensures ClockRuns(Repeat(RecordFailure(0), n)) && NoLaterThan(Repeat(RecordFailure(0), n), now)
  {
    if n > 0 {
      var before := Repeat(RecordFailure(0), n - 1);
      RepeatedAtOnce(n - 1, now);
      RepeatedAtOnce(n - 1, 0);
      assert (before + [RecordFailure(0)])[..|before|] == before;
    }
  }

  lemma ClockGoesOn(steps: seq<Step>, e: Step, now: int)
    requires ClockRuns(steps) && NoLaterThan(steps, now) && (e != RecordSuccess ==> e.now == now)
    ensures ClockRuns(steps + [e]) && NoLaterThan(steps + [e], now)
  {
    assert (steps + [e])[..|steps|] == steps;
  }

  /** A hasty write does happen, whatever the threshold: a caller in the gap makes the
      breaker half-open just after a new failure, so the next call is let through
      although the timeout has not passed. */
  lemma FreshFailureIgnored(threshold: int, timeout: nat) returns (steps: seq<Step>)
    requires threshold >= 1
    ensures ClockRuns(steps) && !NoHastyWrite(threshold, timeout, steps)
    ensures var b := Run(threshold, timeout, steps).b;
            Available(b, timeout + 1) && b.failureCount > threshold && !Expired(b, timeout + 1)
  {
    var now := timeout + 1;
    var tripped := Repeat(RecordFailure(0), threshold);
    FailuresOpen(threshold, timeout, threshold);
    RepeatedAtOnce(threshold, now);
    RunOneMore(threshold, timeout, tripped, Look(now));
    ClockGoesOn(tripped, Look(now), now);
    var seen := tripped + [Look(now)];
    RunOneMore(threshold, timeout, seen, RecordFailure(now));
    ClockGoesOn(seen, RecordFailure(now), now);
    var failed := seen + [RecordFailure(now)];
    RunOneMore(threshold, timeout, failed, Write(now));
    ClockGoesOn(failed, Write(now), now);
    steps := failed + [Write(now)];
    assert steps[..|steps| - 1] == failed;
  }
}
