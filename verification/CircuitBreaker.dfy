/** The circuit breaker: its state machine, and what that machine means in
    terms of the events recorded so far. */
module CircuitBreaker {

  datatype Mode = Closed | Open | HalfOpen

  datatype Breaker = Breaker(
    state: Mode,
    failureCount: int,
    lastFailureTime: int,
    successCount: int,
    threshold: int,
    timeout: int)

  function NewBreaker(threshold: int, timeout: int): Breaker {
    Breaker(Closed, 0, 0, 0, threshold, timeout)
  }

  function AfterSuccess(b: Breaker): Breaker {
    if b.state == HalfOpen && b.successCount + 1 >= b.threshold
    then b.(state := Closed, failureCount := 0, successCount := 0)
    else b.(successCount := b.successCount + 1)
  }

  function AfterFailure(b: Breaker, now: int): Breaker {
    var counted := b.(failureCount := b.failureCount + 1, lastFailureTime := now);
    if counted.failureCount >= b.threshold then counted.(state := Open, successCount := 0) else counted
  }

  predicate Expired(b: Breaker, now: int) {
    now - b.lastFailureTime > b.timeout
  }

  predicate Available(b: Breaker, now: int) {
    b.state != Open || Expired(b, now)
  }

  /** Asking an open breaker after its timeout makes it half-open. */
  function AfterQuery(b: Breaker, now: int): Breaker {
    if b.state == Open && Expired(b, now) then b.(state := HalfOpen) else b
  }

  /** The source's record, updated in place. */
  class CircuitBreaker {
    var state: Mode
    var failureCount: int
    var lastFailureTime: int
    var successCount: int
    const threshold: int
    const timeout: int

    function View(): Breaker
      reads this
    {
      Breaker(state, failureCount, lastFailureTime, successCount, threshold, timeout)
    }

    constructor (threshold: int, timeout: int)
      ensures View() == NewBreaker(threshold, timeout)
    {
      state, failureCount, lastFailureTime, successCount := Closed, 0, 0, 0;
      this.threshold, this.timeout := threshold, timeout;
    }

    method RecordSuccess()
      modifies this
      ensures View() == AfterSuccess(old(View()))
    {
      successCount := successCount + 1;
      if state == HalfOpen && successCount >= threshold {
        state := Closed;
        failureCount := 0;
        successCount := 0;
      }
    }

    method RecordFailure(now: int)
      modifies this
      ensures View() == AfterFailure(old(View()), now)
    {
      failureCount := failureCount + 1;
      lastFailureTime := now;
      if failureCount >= threshold {
        state := Open;
        successCount := 0;
      }
    }

    method IsAvailable(now: int) returns (available: bool)
      modifies this
      ensures available == Available(old(View()), now)
      ensures View() == AfterQuery(old(View()), now)
    {
      match state
      case Closed => return true;
      case Open =>
        if now - lastFailureTime > timeout {
          state := HalfOpen;
          return true;
        }
        return false;
      case HalfOpen => return true;
    }
  }

  // ---------- Runs ----------

  datatype Event = Success | Failure(now: int) | Query(now: int)

  function After(b: Breaker, e: Event): Breaker {
    match e
    case Success => AfterSuccess(b)
    case Failure(now) => AfterFailure(b, now)
    case Query(now) => AfterQuery(b, now)
  }

  function Run(threshold: int, timeout: int, h: seq<Event>): Breaker {
    if h == [] then NewBreaker(threshold, timeout)
    else After(Run(threshold, timeout, h[..|h| - 1]), h[|h| - 1])
  }

  // ---------- The same, from the history alone ----------

  function LastFailure(h: seq<Event>): int {
    if h == [] then 0
    else match h[|h| - 1]
      case Failure(now) => now
      case _ => LastFailure(h[..|h| - 1])
  }

  function SuccessesSinceFailure(h: seq<Event>): nat {
    if h == [] then 0
    else match h[|h| - 1]
      case Failure(_) => 0
      case Success => SuccessesSinceFailure(h[..|h| - 1]) + 1
      case Query(_) => SuccessesSinceFailure(h[..|h| - 1])
  }

  /** The breaker was asked, after its timeout, since the last failure. */
  predicate ProbedSinceFailure(timeout: int, h: seq<Event>) {
    h != [] &&
    match h[|h| - 1]
    case Failure(_) => false
    case Success => ProbedSinceFailure(timeout, h[..|h| - 1])
    case Query(now) =>
      ProbedSinceFailure(timeout, h[..|h| - 1]) || now - LastFailure(h[..|h| - 1]) > timeout
  }

  function FailuresSinceClose(threshold: int, timeout: int, h: seq<Event>): nat
    decreases |h|, 0
  {
    if h == [] then 0
    else
      var before := h[..|h| - 1];
      match h[|h| - 1]
      case Failure(_) => FailuresSinceClose(threshold, timeout, before) + 1
      case Success => if ClosesNow(threshold, timeout, before) then 0
                      else FailuresSinceClose(threshold, timeout, before)
      case Query(_) => FailuresSinceClose(threshold, timeout, before)
  }

  /** One more success closes the breaker: it tripped, was probed, and has
      collected its successes, all since the last failure. */
  predicate ClosesNow(threshold: int, timeout: int, h: seq<Event>)
    decreases |h|, 1
  {
    FailuresSinceClose(threshold, timeout, h) >= threshold &&
    ProbedSinceFailure(timeout, h) &&
    SuccessesSinceFailure(h) + 1 >= threshold
  }

  /** The state after any history. */
  lemma {:induction false} StateFromHistory(threshold: int, timeout: int, h: seq<Event>)
    requires threshold >= 1
    ensures var b := Run(threshold, timeout, h);
            var tripped := FailuresSinceClose(threshold, timeout, h) >= threshold;
            && b.threshold == threshold && b.timeout == timeout
            && b.failureCount == FailuresSinceClose(threshold, timeout, h)
            && b.lastFailureTime == LastFailure(h)
            && b.state == (if !tripped then Closed
                           else if ProbedSinceFailure(timeout, h) then HalfOpen
                           else Open)
            && (tripped ==> b.successCount == SuccessesSinceFailure(h))
    decreases |h|
  {
    if h != [] {
      StateFromHistory(threshold, timeout, h[..|h| - 1]);
    }
  }

  /** The clock did not run past now. */
  predicate NoQueryAfter(h: seq<Event>, now: int) {
    forall e :: e in h && e.Query? ==> e.now <= now
  }

  lemma {:induction false} ProbedMeansExpired(timeout: int, h: seq<Event>, now: int)
    requires ProbedSinceFailure(timeout, h) && NoQueryAfter(h, now)
    ensures now - LastFailure(h) > timeout
    decreases |h|
  {
    var last := h[|h| - 1];
    assert last in h;
    assert forall e :: e in h[..|h| - 1] ==> e in h;
    if ProbedSinceFailure(timeout, h[..|h| - 1]) {
      ProbedMeansExpired(timeout, h[..|h| - 1], now);
    }
  }

  /** The closed form: after any history the breaker lets a call through exactly
      when fewer than threshold failures were recorded since it last closed, or
      more than timeout has passed since the last failure. */
  lemma ClosedForm(threshold: int, timeout: int, h: seq<Event>, now: int)
    requires threshold >= 1 && NoQueryAfter(h, now)
    ensures Available(Run(threshold, timeout, h), now) <==>
            FailuresSinceClose(threshold, timeout, h) < threshold || now - LastFailure(h) > timeout
  {
    StateFromHistory(threshold, timeout, h);
    if ProbedSinceFailure(timeout, h) {
      ProbedMeansExpired(timeout, h, now);
    }
  }

  // ---------- What a return to Closed takes ----------

  function Successes(h: seq<Event>): nat {
    if h == [] then 0
    else Successes(h[..|h| - 1]) + (if h[|h| - 1] == Success then 1 else 0)
  }

  predicate NoFailure(h: seq<Event>) {
    forall e :: e in h ==> !e.Failure?
  }

  /** The counted successes are those of the stretch behind the last failure. */
  lemma {:induction false} QuietStretch(h: seq<Event>) returns (k: nat)
    ensures k <= |h| && NoFailure(h[k..]) && Successes(h[k..]) == SuccessesSinceFailure(h)
    ensures k > 0 ==> h[k - 1].Failure?
    decreases |h|
  {
    if h == [] {
      k := 0;
    } else if h[|h| - 1].Failure? {
      k := |h|;
    } else {
      var before, last := h[..|h| - 1], h[|h| - 1];
      k := QuietStretch(before);
      assert h[k..] == before[k..] + [last];
      assert h[k..][..|h[k..]| - 1] == before[k..];
    }
  }

  /** Whenever the breaker closes again, at least threshold successes were
      recorded since the last failure. */
  lemma ClosingTakesSuccesses(threshold: int, timeout: int, h: seq<Event>, last: Event) returns (k: nat)
    requires threshold >= 1
    requires Run(threshold, timeout, h).state != Closed
    requires Run(threshold, timeout, h + [last]).state == Closed
    ensures k <= |h| + 1
    ensures NoFailure((h + [last])[k..]) && Successes((h + [last])[k..]) >= threshold
    ensures k > 0 && (h + [last])[k - 1].Failure?
  {
    var h' := h + [last];
    assert h'[..|h'| - 1] == h;
    StateFromHistory(threshold, timeout, h);
    StateFromHistory(threshold, timeout, h');
    k := QuietStretch(h');
    if k == 0 {
      NoFailuresEver(threshold, timeout, h);
    }
  }

  lemma {:induction false} NoFailuresEver(threshold: int, timeout: int, h: seq<Event>)
    requires threshold >= 1 && NoFailure(h)
    ensures FailuresSinceClose(threshold, timeout, h) == 0
    decreases |h|
  {
    if h != [] {
      assert h[|h| - 1] in h;
      assert forall e :: e in h[..|h| - 1] ==> e in h;
      NoFailuresEver(threshold, timeout, h[..|h| - 1]);
    }
  }
}
