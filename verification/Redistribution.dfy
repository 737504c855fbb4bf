/** Greedy assignment of a failed node's tasks to the peers that are alive:
    each task is offered to the peer with the best score, and a successful send
    raises that peer's load before the next task is looked at. */
module Redistribution {
  import opened Tasks
  import opened Nodes
  import opened Draws
  import opened Routing

  /** The peers' loads, in the order of the list of available peers; latencies do
      not change during redistribution. */
  type Loads = seq<real>

  function LatencyScore(latency: int): real {
    var score := 1.0 - latency as real / SECOND as real;
    if score < 0.0 then 0.0 else score
  }

  function PeerScore(load: real, latency: int): real {
    (1.0 - load) * 0.6 + LatencyScore(latency) * 0.4
  }

  /** What one task adds to the load of the peer that takes it. */
  function Increment(t: Task): real {
    t.estimatedTokens as real / 1000.0
  }

  function PeerKeys(loads: Loads, latencies: seq<int>): (keys: seq<Option<real>>)
    requires |loads| == |latencies|
    ensures |keys| == |loads|
  {
    seq(|loads|, i requires 0 <= i < |loads| => Some(PeerScore(loads[i], latencies[i])))
  }

  /** The first of the best peers; none when no score exceeds -1. */
  ghost function BestPeer(loads: Loads, latencies: seq<int>): (best: int)
    requires |loads| == |latencies|
    ensures if best < 0 then NoneBeats(PeerKeys(loads, latencies), -1.0, true)
            else FirstBest(PeerKeys(loads, latencies), -1.0, true, best)
  {
    var keys := PeerKeys(loads, latencies);
    assert exists k :: IsBestOrNone(keys, k) by { var k := BestOrNone(keys, -1.0, true); assert IsBestOrNone(keys, k); }
    var k :| IsBestOrNone(keys, k); k
  }

  ghost predicate IsBestOrNone(keys: seq<Option<real>>, k: int) {
    if k < 0 then NoneBeats(keys, -1.0, true) else FirstBest(keys, -1.0, true, k)
  }

  ghost function AfterTask(loads: Loads, latencies: seq<int>, t: Task, sent: bool): (r: Loads)
    requires |loads| == |latencies|
    ensures |r| == |loads|
  {
    var best := BestPeer(loads, latencies);
    if best >= 0 && sent then loads[best := loads[best] + Increment(t)] else loads
  }

  /** The loads after all tasks; sends[i] tells whether sending task i succeeded. */
  ghost function AfterTasks(loads: Loads, latencies: seq<int>, tasks: seq<Task>, sends: seq<bool>): (r: Loads)
    requires |loads| == |latencies| && |sends| == |tasks|
    ensures |r| == |loads|
  {
    if tasks == [] then loads
    else
      var n := |tasks| - 1;
      AfterTask(AfterTasks(loads, latencies, tasks[..n], sends[..n]), latencies, tasks[n], sends[n])
  }

  // ---------- Which peer is chosen ----------

  /** What speaks against a peer: six tenths of its load, and four tenths of its latency
      in seconds, of which at most one second counts. */
  function Cost(load: real, latency: int): real {
    0.6 * load + 0.4 * (if latency > 1_000_000_000 then 1.0 else latency as real / 1_000_000_000.0)
  }

  lemma ScoreIsLackOfCost(load: real, latency: int)
    ensures PeerScore(load, latency) == 1.0 - Cost(load, latency)
  {
  }

  /** In loads and latencies alone: a peer is chosen exactly if it costs less than 2 and
      no more than any other, and less than those listed before it. */
  lemma ChosenExactly(loads: Loads, latencies: seq<int>, k: nat)
    requires |loads| == |latencies| && k < |loads|
    ensures BestPeer(loads, latencies) == k <==>
            && Cost(loads[k], latencies[k]) < 2.0
            && (forall j :: 0 <= j < |loads| ==> Cost(loads[k], latencies[k]) <= Cost(loads[j], latencies[j]))
            && (forall j :: 0 <= j < k ==> Cost(loads[k], latencies[k]) < Cost(loads[j], latencies[j]))
  {
    var keys := PeerKeys(loads, latencies);
    forall j | 0 <= j < |loads| ensures keys[j] == Some(1.0 - Cost(loads[j], latencies[j])) {
      ScoreIsLackOfCost(loads[j], latencies[j]);
    }
    var best := BestPeer(loads, latencies);
    if best >= 0 {
      BestIsUnique(keys, -1.0, true, best);
    }
    FirstBestByCost(loads, latencies, keys, k);
    assert FirstBest(keys, -1.0, true, k) ==> best >= 0 by {
      assert keys[k].Some?;
    }
  }

  lemma FirstBestByCost(loads: Loads, latencies: seq<int>, keys: seq<Option<real>>, k: nat)
    requires |loads| == |latencies| == |keys| && k < |loads|
    requires forall j :: 0 <= j < |loads| ==> keys[j] == Some(1.0 - Cost(loads[j], latencies[j]))
    ensures FirstBest(keys, -1.0, true, k) <==>
            && Cost(loads[k], latencies[k]) < 2.0
            && (forall j :: 0 <= j < |loads| ==> Cost(loads[k], latencies[k]) <= Cost(loads[j], latencies[j]))
            && (forall j :: 0 <= j < k ==> Cost(loads[k], latencies[k]) < Cost(loads[j], latencies[j]))
  {
    if FirstBest(keys, -1.0, true, k) {
      forall j | 0 <= j < |loads|
        ensures Cost(loads[k], latencies[k]) <= Cost(loads[j], latencies[j])
        ensures j < k ==> Cost(loads[k], latencies[k]) < Cost(loads[j], latencies[j])
      {
        assert keys[j].Some?;
      }
    }
  }

  /** No available peer is better in one respect and at least as good in the other;
      latencies from one second on count alike. */
  lemma ChosenNotDominated(loads: Loads, latencies: seq<int>, k: nat, j: nat)
    requires |loads| == |latencies| && k < |loads| && j < |loads| && BestPeer(loads, latencies) == k
    ensures !(loads[j] <= loads[k] && latencies[j] < latencies[k] && latencies[j] < 1_000_000_000)
    ensures !(loads[j] < loads[k] && latencies[j] <= latencies[k])
  {
    ChosenExactly(loads, latencies, k);
  }

  /** The exchange rate, below one second: of two peers the one that is faster by d is
      chosen, although its load is higher by x, exactly if 0.4 * d / second > 0.6 * x. */
  lemma ExchangeRate(load: real, latency: int, x: real, d: int)
    requires latency < 1_000_000_000 && d >= 0 && Cost(load, latency) < 2.0
    ensures BestPeer([load, load + x], [latency, latency - d]) == 1 <==>
            0.4 * d as real / 1_000_000_000.0 > 0.6 * x
  {
    var loads, latencies := [load, load + x], [latency, latency - d];
    ChosenExactly(loads, latencies, 1);
    assert Cost(loads[1], latencies[1]) == Cost(loads[0], latencies[0]) + 0.6 * x - 0.4 * d as real / 1_000_000_000.0;
  }

  // ---------- Balance ----------

  ghost predicate ScoreGapWithin(loads: Loads, latencies: seq<int>, gap: real)
    requires |loads| == |latencies|
  {
    forall i, j :: 0 <= i < |loads| && 0 <= j < |loads| ==>
      PeerScore(loads[i], latencies[i]) - PeerScore(loads[j], latencies[j]) <= gap
  }

  /** No task of negative size, and none that moves a score by more than gap. */
  ghost predicate StepsWithin(tasks: seq<Task>, gap: real) {
    forall t :: t in tasks ==> 0.0 <= Increment(t) * 0.6 <= gap
  }

  lemma TaskKeepsGap(loads: Loads, latencies: seq<int>, t: Task, sent: bool, gap: real)
    requires |loads| == |latencies| && ScoreGapWithin(loads, latencies, gap)
    requires 0.0 <= Increment(t) * 0.6 <= gap
    ensures ScoreGapWithin(AfterTask(loads, latencies, t, sent), latencies, gap)
  {
    var best := BestPeer(loads, latencies);
    var keys := PeerKeys(loads, latencies);
    var r := AfterTask(loads, latencies, t, sent);
    if best >= 0 && sent {
      forall i, j | 0 <= i < |r| && 0 <= j < |r|
        ensures PeerScore(r[i], latencies[i]) - PeerScore(r[j], latencies[j]) <= gap
      {
        // Nobody scored more than the chosen peer, whose score drops by the increment.
        assert keys[i].Some? && !Better(keys[i].value, keys[best].value, true);
        assert PeerScore(loads[i], latencies[i]) - PeerScore(loads[j], latencies[j]) <= gap;
        assert r[best] == loads[best] + Increment(t);
        assert PeerScore(r[best], latencies[best]) == PeerScore(loads[best], latencies[best]) - Increment(t) * 0.6;
      }
    }
  }

  /** The gap between the highest and the lowest score never exceeds the larger of
      its starting value and 0.6 times the largest increment, whichever sends fail. */
  lemma {:induction false} GapStaysWithin(loads: Loads, latencies: seq<int>, tasks: seq<Task>, sends: seq<bool>,
                                          gap: real)
    requires |loads| == |latencies| && |sends| == |tasks|
    requires ScoreGapWithin(loads, latencies, gap) && StepsWithin(tasks, gap)
    ensures ScoreGapWithin(AfterTasks(loads, latencies, tasks, sends), latencies, gap)
    decreases |tasks|
  {
    if tasks != [] {
      var n := |tasks| - 1;
      assert tasks[n] in tasks;
      assert forall t :: t in tasks[..n] ==> t in tasks;
      GapStaysWithin(loads, latencies, tasks[..n], sends[..n], gap);
      TaskKeepsGap(AfterTasks(loads, latencies, tasks[..n], sends[..n]), latencies, tasks[n], sends[n], gap);
    }
  }

  lemma {:induction false} SumAtLeast(xs: seq<real>, low: real)
    requires forall i :: 0 <= i < |xs| ==> xs[i] >= low
    ensures SumReal(xs) >= |xs| as real * low
    decreases |xs|
  {
    if xs != [] {
      SumAtLeast(xs[..|xs| - 1], low);
      assert |xs| as real * low == (|xs| - 1) as real * low + low;
    }
  }

  lemma {:induction false} SumReplace(xs: seq<real>, k: nat, x: real)
    requires k < |xs|
    ensures SumReal(xs[k := x]) == SumReal(xs) - xs[k] + x
    decreases |xs|
  {
    var n := |xs| - 1;
    if k < n {
      SumReplace(xs[..n], k, x);
      assert xs[k := x][..n] == xs[..n][k := x];
    } else {
      assert xs[k := x][..n] == xs[..n];
    }
  }

  /** Not above the average by more than (1 - 1/m) * step, multiplied by the number m. */
  ghost predicate NearAverage(xs: seq<real>, k: nat, step: real)
    requires k < |xs|
  {
    |xs| as real * xs[k] <= SumReal(xs) + (|xs| - 1) as real * step
  }

  /** If no load is more than step above another, none is more than (1 - 1/m) * step
      above the average of the m loads. */
  lemma MaximumNearAverage(xs: seq<real>, k: nat, step: real)
    requires k < |xs| && forall i :: 0 <= i < |xs| ==> xs[k] - xs[i] <= step
    ensures NearAverage(xs, k, step)
  {
    var low := xs[k] - step;
    var m := |xs| as real;
    var raised := xs[k := low];
    assert forall i :: 0 <= i < |raised| ==> raised[i] >= low;
    SumAtLeast(raised, low);
    SumReplace(xs, k, low);
    assert m * low == m * xs[k] - m * step;
    assert (|xs| - 1) as real * step == m * step - step;
  }

  ghost predicate LoadsWithin(loads: Loads, step: real) {
    forall i, j :: 0 <= i < |loads| && 0 <= j < |loads| ==> loads[i] - loads[j] <= step
  }

  predicate SameLatency(latencies: seq<int>) {
    forall i, j :: 0 <= i < |latencies| && 0 <= j < |latencies| ==> latencies[i] == latencies[j]
  }

  lemma ScoresOrderLoads(loads: Loads, latencies: seq<int>, step: real)
    requires |loads| == |latencies| && SameLatency(latencies)
    ensures ScoreGapWithin(loads, latencies, step * 0.6) <==> LoadsWithin(loads, step)
  {
    forall i, j | 0 <= i < |loads| && 0 <= j < |loads|
      ensures PeerScore(loads[i], latencies[i]) - PeerScore(loads[j], latencies[j])
              == (loads[j] - loads[i]) * 0.6
    {
      assert latencies[i] == latencies[j];
    }
    if LoadsWithin(loads, step) {
      forall i, j | 0 <= i < |loads| && 0 <= j < |loads|
        ensures PeerScore(loads[i], latencies[i]) - PeerScore(loads[j], latencies[j]) <= step * 0.6
      {
        assert loads[j] - loads[i] <= step;
      }
    }
    if ScoreGapWithin(loads, latencies, step * 0.6) {
      forall i, j | 0 <= i < |loads| && 0 <= j < |loads| ensures loads[i] - loads[j] <= step {
        assert PeerScore(loads[j], latencies[j]) - PeerScore(loads[i], latencies[i]) <= step * 0.6;
      }
    }
  }

  lemma ScaledSteps(tasks: seq<Task>, step: real)
    requires forall t :: t in tasks ==> 0.0 <= Increment(t) <= step
    ensures StepsWithin(tasks, step * 0.6)
  {
  }

  /** List scheduling: with equal latencies and starting loads within step of each
      other, no final load exceeds the average by more than (1 - 1/m) * step, where
      step bounds every increment; whichever sends fail. */
  lemma {:induction false} BalancedAtTheEnd(loads: Loads, latencies: seq<int>, tasks: seq<Task>, sends: seq<bool>,
                                            step: real, k: nat)
    requires |loads| == |latencies| && |sends| == |tasks| && k < |loads|
    requires SameLatency(latencies) && LoadsWithin(loads, step)
    requires forall t :: t in tasks ==> 0.0 <= Increment(t) <= step
    ensures NearAverage(AfterTasks(loads, latencies, tasks, sends), k, step)
  {
    ScoresOrderLoads(loads, latencies, step);
    ScaledSteps(tasks, step);
    GapStaysWithin(loads, latencies, tasks, sends, step * 0.6);
    var r := AfterTasks(loads, latencies, tasks, sends);
    ScoresOrderLoads(r, latencies, step);
    MaximumNearAverage(r, k, step);
  }

  // ---------- Conservation ----------

  /** The increments of the tasks that found a peer and were sent. */
  ghost function Delivered(loads: Loads, latencies: seq<int>, tasks: seq<Task>, sends: seq<bool>): real
    requires |loads| == |latencies| && |sends| == |tasks|
  {
    if tasks == [] then 0.0
    else
      var n := |tasks| - 1;
      Delivered(loads, latencies, tasks[..n], sends[..n]) +
      (if sends[n] && BestPeer(AfterTasks(loads, latencies, tasks[..n], sends[..n]), latencies) >= 0
       then Increment(tasks[n]) else 0.0)
  }

  /** Every delivered increment ends up on exactly one peer, and nothing else does. */
  lemma {:induction false} LoadIsConserved(loads: Loads, latencies: seq<int>, tasks: seq<Task>, sends: seq<bool>)
    requires |loads| == |latencies| && |sends| == |tasks|
    ensures SumReal(AfterTasks(loads, latencies, tasks, sends)) ==
            SumReal(loads) + Delivered(loads, latencies, tasks, sends)
    decreases |tasks|
  {
    if tasks != [] {
      var n := |tasks| - 1;
      LoadIsConserved(loads, latencies, tasks[..n], sends[..n]);
      var before := AfterTasks(loads, latencies, tasks[..n], sends[..n]);
      var best := BestPeer(before, latencies);
      if best >= 0 {
        SumReplace(before, best, before[best] + Increment(tasks[n]));
      }
    }
  }
}
