/** Round-robin turns: the index that moves around the list of healthy nodes. */
module Turns {

  function NextTurn(last: nat, count: nat): (next: nat)
    requires count > 0
    ensures next < count
  {
    (last + 1) % count
  }

  /** The index after k turns over a list of n nodes. */
  function TurnAfter(start: nat, n: nat, k: nat): nat
    requires n > 0
  {
    if k == 0 then start else NextTurn(TurnAfter(start, n, k - 1), n)
  }

  /** How many of the first k turns select index i. */
  function Turns(start: nat, n: nat, k: nat, i: nat): nat
    requires n > 0
  {
    if k == 0 then 0
    else Turns(start, n, k - 1, i) + (if TurnAfter(start, n, k) == i then 1 else 0)
  }

  lemma AtLeastOnce(m: int, n: int)
    requires m >= 1 && n > 0
    ensures m * n >= n
  {
  }

  /** Quotient and remainder are the only ones that fit. */
  lemma DivisionUnique(x: int, n: int, q: int, r: int)
    requires n > 0 && x == q * n + r && 0 <= r < n
    ensures x / n == q && x % n == r
  {
    var gap := x / n - q;
    assert gap * n == r - x % n;
    if gap > 0 {
      AtLeastOnce(gap, n);
    } else if gap < 0 {
      AtLeastOnce(-gap, n);
    }
  }

  lemma OneStep(x: int, n: int)
    requires n > 0
    ensures (x + 1) % n == (x % n + 1) % n
    ensures (x + 1) / n == x / n + (if (x + 1) % n == 0 then 1 else 0)
  {
    var q, r := x / n, x % n;
    if r + 1 == n {
      assert x + 1 == (q + 1) * n + 0;
      DivisionUnique(x + 1, n, q + 1, 0);
      DivisionUnique(r + 1, n, 1, 0);
    } else {
      DivisionUnique(x + 1, n, q, r + 1);
      DivisionUnique(r + 1, n, 0, r + 1);
    }
  }

  lemma OneLap(x: int, n: int)
    requires n > 0
    ensures (x + n) % n == x % n && (x + n) / n == x / n + 1
  {
    assert x + n == (x / n + 1) * n + x % n;
    DivisionUnique(x + n, n, x / n + 1, x % n);
  }

  /** k turns around the list advance the index by k. */
  lemma {:induction false} TurnAdvances(start: nat, n: nat, k: nat)
    requires n > 0 && k > 0
    ensures TurnAfter(start, n, k) == (start + k) % n
  {
    if k > 1 {
      TurnAdvances(start, n, k - 1);
      OneStep(start + k - 1, n);
    }
  }

  /** How many further turns come before index i is first selected. */
  function FirstDelay(start: nat, n: nat, i: nat): (d: nat)
    requires n > 0
    ensures d < n
  {
    (i - start - 1) % n
  }

  lemma SelectedEveryLap(start: nat, n: nat, i: nat, m: int)
    requires i < n && m >= 0
    ensures (start + m + 1) % n == i <==> (m - FirstDelay(start, n, i)) % n == 0
  {
    var q := (i - start - 1) / n;
    var rest := m - FirstDelay(start, n, i);
    assert start + m + 1 == i + rest - q * n;
    var a, b := rest / n, rest % n;
    assert i + rest - q * n == (a - q) * n + (i + b);
    if i + b < n {
      DivisionUnique(start + m + 1, n, a - q, i + b);
    } else {
      assert (a - q) * n + (i + b) == (a - q + 1) * n + (i + b - n);
      DivisionUnique(start + m + 1, n, a - q + 1, i + b - n);
    }
  }

  /** The exact count: after its first delay an index is selected once a lap. */
  lemma {:induction false} TurnsExactly(start: nat, n: nat, k: nat, i: nat)
    requires i < n
    ensures Turns(start, n, k, i) == (k + n - 1 - FirstDelay(start, n, i)) / n
  {
    var d := FirstDelay(start, n, i);
    if k == 0 {
      DivisionUnique(n - 1 - d, n, 0, n - 1 - d);
    } else {
      TurnsExactly(start, n, k - 1, i);
      TurnAdvances(start, n, k);
      SelectedEveryLap(start, n, i, k - 1);
      OneLap(k - 1 - d, n);
      OneStep(k - 1 + n - 1 - d, n);
    }
  }

  /** Fairness: over any number of consecutive turns with the same list, from
      whatever index the last list left behind, any two nodes are selected
      equally often, give or take one. */
  lemma TurnsAreFair(start: nat, n: nat, k: nat, i: nat, j: nat)
    requires i < n && j < n
    ensures -1 <= Turns(start, n, k, i) - Turns(start, n, k, j) <= 1
  {
    TurnsExactly(start, n, k, i);
    TurnsExactly(start, n, k, j);
    QuotientBetween(k, n, FirstDelay(start, n, i));
    QuotientBetween(k, n, FirstDelay(start, n, j));
  }

  lemma QuotientBetween(k: nat, n: nat, d: nat)
    requires d < n
    ensures k / n <= (k + n - 1 - d) / n <= k / n + 1
  {
    var q, r := k / n, k % n;
    if r + n - 1 - d < n {
      DivisionUnique(k + n - 1 - d, n, q, r + n - 1 - d);
    } else {
      DivisionUnique(k + n - 1 - d, n, q + 1, r - 1 - d);
    }
  }
}
