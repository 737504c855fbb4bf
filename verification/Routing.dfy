/** The quantities that routing compares, and what it means to choose by them. */
module Routing {
  import opened Tasks
  import opened Nodes
  import opened Draws

  /** What the balancer knows about the nodes. */
  datatype Cluster = Cluster(nodes: map<string, Status>, capacities: map<string, Capacity>)

  predicate Distinct(ids: seq<string>) {
    forall i, j :: 0 <= i < j < |ids| ==> ids[i] != ids[j]
  }

  ghost predicate Known(c: Cluster, ids: seq<string>) {
    forall i :: 0 <= i < |ids| ==> ids[i] in c.nodes
  }

  ghost predicate Limited(c: Cluster) {
    forall id :: id in c.capacities ==> PositiveLimits(c.capacities[id])
  }

  predicate CanTake(c: Cluster, id: string, tokens: int) {
    id in c.capacities && Accepts(c.capacities[id], tokens)
  }

  function Ratio(a: int, b: int): real
    requires b > 0
  {
    a as real / b as real
  }

  function Load(s: Status, c: Capacity, tokens: int): real
    requires PositiveLimits(c)
  {
    var load := Ratio(s.activeTasks, c.maxConcurrentTasks) * 0.5
              + Ratio(s.queueLength, c.maxQueueSize) * 0.3
              + Ratio(c.currentTokensPerMin, c.maxTokensPerMinute) * 0.2;
    if tokens > c.maxTokensPerMinute / 2 then load + 0.1 else load
  }

  function Score(s: Status, c: Capacity, now: int): real
    requires PositiveLimits(c)
  {
    var capacityScore := c.maxTokensPerMinute as real / 10000.0;
    var loadScore := 1.0 - Ratio(s.activeTasks, c.maxConcurrentTasks);
    var queueScore := 1.0 - Ratio(s.queueLength, c.maxQueueSize);
    var tokenScore := 1.0 - Ratio(c.currentTokensPerMin, c.maxTokensPerMinute);
    var healthScore := if now - s.lastHeartbeat > 30 * SECOND then 0.5 else 1.0;
    capacityScore * 0.25 + loadScore * 0.25 + queueScore * 0.2 + tokenScore * 0.2 + healthScore * 0.1
  }

  /** What each report adds to the load. An idle node has load 0, one more active task
      adds half a share of its limit, a queued task three tenths and a token a fifth;
      a task that needs more than half of the minute's tokens adds a tenth. */
  lemma LoadByShares(s: Status, c: Capacity, tokens: int)
    requires PositiveLimits(c)
    ensures s.activeTasks == 0 && s.queueLength == 0 && c.currentTokensPerMin == 0 ==>
              Load(s, c, 0) == 0.0
    ensures Load(s.(activeTasks := s.activeTasks + 1), c, tokens) ==
            Load(s, c, tokens) + 0.5 / c.maxConcurrentTasks as real
    ensures Load(s.(queueLength := s.queueLength + 1), c, tokens) ==
            Load(s, c, tokens) + 0.3 / c.maxQueueSize as real
    ensures Load(s, c.(currentTokensPerMin := c.currentTokensPerMin + 1), tokens) ==
            Load(s, c, tokens) + 0.2 / c.maxTokensPerMinute as real
    ensures Load(s, c, tokens) == Load(s, c, 0) + if 2 * tokens > c.maxTokensPerMinute then 0.1 else 0.0
  {
    OneMoreShare(s.activeTasks, c.maxConcurrentTasks, 0.5);
    OneMoreShare(s.queueLength, c.maxQueueSize, 0.3);
    OneMoreShare(c.currentTokensPerMin, c.maxTokensPerMinute, 0.2);
  }

  /** What each report takes from the score. A fresh idle node has three quarters of a
      point and a quarter for every 10000 tokens a minute; one more active task takes a
      quarter share of its limit, a queued task and a token a fifth each, and a report
      older than thirty seconds a twentieth. */
  lemma ScoreByShares(s: Status, c: Capacity, now: int)
    requires PositiveLimits(c)
    ensures s.activeTasks == 0 && s.queueLength == 0 && c.currentTokensPerMin == 0 &&
            now - s.lastHeartbeat <= 30 * SECOND ==>
              Score(s, c, now) == 0.75 + c.maxTokensPerMinute as real / 40000.0
    ensures Score(s.(activeTasks := s.activeTasks + 1), c, now) ==
            Score(s, c, now) - 0.25 / c.maxConcurrentTasks as real
    ensures Score(s.(queueLength := s.queueLength + 1), c, now) ==
            Score(s, c, now) - 0.2 / c.maxQueueSize as real
    ensures Score(s, c.(currentTokensPerMin := c.currentTokensPerMin + 1), now) ==
            Score(s, c, now) - 0.2 / c.maxTokensPerMinute as real
    ensures Score(s, c, now) ==
            Score(s, c, s.lastHeartbeat) - if now - s.lastHeartbeat > 30 * SECOND then 0.05 else 0.0
  {
    OneMoreShare(s.activeTasks, c.maxConcurrentTasks, 0.25);
    OneMoreShare(s.queueLength, c.maxQueueSize, 0.2);
    OneMoreShare(c.currentTokensPerMin, c.maxTokensPerMinute, 0.2);
  }

  lemma OneMoreShare(a: int, b: int, weight: real)
    requires b > 0
    ensures Ratio(a + 1, b) * weight == Ratio(a, b) * weight + weight / b as real
  {
    var r := b as real;
    assert (a + 1) as real / r == a as real / r + 1.0 / r;
    assert (a as real / r + 1.0 / r) * weight == a as real / r * weight + weight / r;
  }

  // ---------- Choosing the best ----------

  predicate Better(a: real, b: real, higher: bool) {
    if higher then a > b else a < b
  }

  /** k is the first of the best keys, and beats the bound. */
  ghost predicate FirstBest(keys: seq<Option<real>>, bound: real, higher: bool, k: int) {
    0 <= k < |keys| && keys[k].Some? && Better(keys[k].value, bound, higher) &&
    forall j :: 0 <= j < |keys| && keys[j].Some? ==>
      !Better(keys[j].value, keys[k].value, higher) &&
      (j < k ==> Better(keys[k].value, keys[j].value, higher))
  }

  ghost predicate NoneBeats(keys: seq<Option<real>>, bound: real, higher: bool) {
    forall j :: 0 <= j < |keys| && keys[j].Some? ==> !Better(keys[j].value, bound, higher)
  }

  /** One more key: the comparison that the selection loops make. */
  lemma OneMoreKey(keys: seq<Option<real>>, bound: real, higher: bool, best: int, key: Option<real>)
    requires if best < 0 then NoneBeats(keys, bound, higher) else FirstBest(keys, bound, higher, best)
    ensures var current := if best < 0 then bound else keys[best].value;
            if key.Some? && Better(key.value, current, higher)
            then FirstBest(keys + [key], bound, higher, |keys|)
            else if best < 0 then NoneBeats(keys + [key], bound, higher)
            else FirstBest(keys + [key], bound, higher, best)
  {
    var more := keys + [key];
    assert more[|keys|] == key;
    assert forall j :: 0 <= j < |keys| ==> more[j] == keys[j];
  }

  lemma {:induction false} BestOrNone(keys: seq<Option<real>>, bound: real, higher: bool) returns (best: int)
    ensures if best < 0 then NoneBeats(keys, bound, higher) else FirstBest(keys, bound, higher, best)
    decreases |keys|
  {
    best := -1;
    if keys != [] {
      var before, key := keys[..|keys| - 1], keys[|keys| - 1];
      best := BestOrNone(before, bound, higher);
      OneMoreKey(before, bound, higher, best, key);
      assert before + [key] == keys;
      var current := if best < 0 then bound else before[best].value;
      if key.Some? && Better(key.value, current, higher) {
        best := |before|;
      }
    }
  }

  ghost function LoadKeys(c: Cluster, ids: seq<string>, tokens: int): (keys: seq<Option<real>>)
    requires Known(c, ids) && Limited(c)
    ensures |keys| == |ids|
  {
    seq(|ids|, i requires 0 <= i < |ids| => LoadKey(c, ids[i], tokens))
  }

  function LoadKey(c: Cluster, id: string, tokens: int): Option<real>
    requires id in c.nodes && Limited(c)
  {
    if CanTake(c, id, tokens) then Some(Load(c.nodes[id], c.capacities[id], tokens)) else None
  }

  ghost function ScoreKeys(c: Cluster, ids: seq<string>, tokens: int, now: int): (keys: seq<Option<real>>)
    requires Known(c, ids) && Limited(c)
    ensures |keys| == |ids|
  {
    seq(|ids|, i requires 0 <= i < |ids| => ScoreKey(c, ids[i], tokens, now))
  }

  function ScoreKey(c: Cluster, id: string, tokens: int, now: int): Option<real>
    requires id in c.nodes && Limited(c)
  {
    if CanTake(c, id, tokens) then Some(Score(c.nodes[id], c.capacities[id], now)) else None
  }

  // ---------- Answers ----------

  datatype Route =
    | Routed(id: string)
    | NoHealthyNodes
    | NoneCanAccept
    | Panic

  /** The answer names the first best node. An empty name counts as no answer. */
  ghost predicate NamesBest(ids: seq<string>, keys: seq<Option<real>>, bound: real, higher: bool, r: Route)
    requires |keys| == |ids|
  {
    match r
    case Routed(id) => id != "" && exists k :: FirstBest(keys, bound, higher, k) && ids[k] == id
    case NoneCanAccept => forall k :: FirstBest(keys, bound, higher, k) ==> ids[k] == ""
    case _ => false
  }

  ghost predicate LeastLoadedAnswer(c: Cluster, ids: seq<string>, tokens: int, r: Route)
    requires Known(c, ids) && Limited(c)
  {
    NamesBest(ids, LoadKeys(c, ids, tokens), 1.0, false, r)
  }

  ghost predicate WeightedAnswer(c: Cluster, ids: seq<string>, tokens: int, now: int, r: Route)
    requires Known(c, ids) && Limited(c)
  {
    NamesBest(ids, ScoreKeys(c, ids, tokens, now), -1.0, true, r)
  }

  // ---------- When least-loaded and weighted routing fail ----------

  /** The counters a node reports stay within its limits. */
  predicate WithinLimits(s: Status, c: Capacity) {
    PositiveLimits(c) &&
    0 <= s.activeTasks <= c.maxConcurrentTasks &&
    0 <= s.queueLength <= c.maxQueueSize
  }

  ghost predicate AllWithinLimits(c: Cluster, ids: seq<string>)
    requires Known(c, ids)
  {
    forall i :: 0 <= i < |ids| && ids[i] in c.capacities ==> WithinLimits(c.nodes[ids[i]], c.capacities[ids[i]])
  }

  lemma ScaleStrictly(x: real, y: real, b: real)
    requires x < y && b > 0.0
    ensures x * b < y * b
  {
  }

  /** Comparing a quotient with a constant is comparing the products. */
  lemma RatioCompare(a: int, b: int, bound: real)
    requires b > 0
    ensures Ratio(a, b) < bound <==> a as real < bound * b as real
    ensures Ratio(a, b) > bound <==> a as real > bound * b as real
  {
    var r := Ratio(a, b);
    assert r * b as real == a as real;
    if r < bound {
      ScaleStrictly(r, bound, b as real);
    } else if r > bound {
      ScaleStrictly(bound, r, b as real);
    }
  }

  lemma RatioBounds(a: int, b: int)
    requires b > 0
    ensures a <= b ==> Ratio(a, b) <= 1.0
    ensures a < b ==> Ratio(a, b) < 1.0
    ensures 2 * a < b ==> Ratio(a, b) < 0.5
    ensures a >= 0 ==> Ratio(a, b) >= 0.0
  {
    RatioCompare(a, b, 1.0);
    RatioCompare(a, b, 0.5);
    RatioCompare(a, b, 0.0);
  }

  /** A node that can take at least one token more is loaded strictly below 1,
      with the penalty for large tasks and its integer halving included. */
  lemma AcceptorBelowOne(s: Status, c: Capacity, tokens: int)
    requires WithinLimits(s, c) && Accepts(c, tokens) && tokens >= 1
    ensures Load(s, c, tokens) < 1.0
  {
    RatioBounds(s.activeTasks, c.maxConcurrentTasks);
    RatioBounds(s.queueLength, c.maxQueueSize);
    RatioBounds(c.currentTokensPerMin, c.maxTokensPerMinute);
    if tokens > c.maxTokensPerMinute / 2 {
      assert 2 * c.currentTokensPerMin < c.maxTokensPerMinute;
    }
  }

  lemma AcceptorScoresPositive(s: Status, c: Capacity, tokens: int, now: int)
    requires WithinLimits(s, c) && Accepts(c, tokens) && tokens >= 0
    ensures Score(s, c, now) > 0.0
  {
    RatioBounds(s.activeTasks, c.maxConcurrentTasks);
    RatioBounds(s.queueLength, c.maxQueueSize);
    RatioBounds(c.currentTokensPerMin, c.maxTokensPerMinute);
  }

  /** Every node listed before that can take the task has a higher load. */
  ghost predicate FirstOfLoad(c: Cluster, ids: seq<string>, tokens: int, k: nat)
    requires Known(c, ids) && Limited(c) && k < |ids| && ids[k] in c.capacities
  {
    forall j :: 0 <= j < k && CanTake(c, ids[j], tokens) ==>
      Load(c.nodes[ids[j]], c.capacities[ids[j]], tokens) > Load(c.nodes[ids[k]], c.capacities[ids[k]], tokens)
  }

  /** Whatever the nodes report: least-loaded routing fails exactly when every node
      that can take the task is loaded to 1 or more, and otherwise names a node that
      can, at the lowest load of all that can, the first of them in the list. */
  lemma LeastLoadedExactly(c: Cluster, ids: seq<string>, tokens: int, r: Route)
    requires Known(c, ids) && Limited(c) && "" !in ids
    requires LeastLoadedAnswer(c, ids, tokens, r)
    ensures r == NoneCanAccept || r.Routed?
    ensures r == NoneCanAccept <==>
            forall id :: id in ids && CanTake(c, id, tokens) ==> Load(c.nodes[id], c.capacities[id], tokens) >= 1.0
    ensures r.Routed? ==>
              r.id in ids && CanTake(c, r.id, tokens) &&
              forall id :: id in ids && CanTake(c, id, tokens) ==>
                Load(c.nodes[r.id], c.capacities[r.id], tokens) <= Load(c.nodes[id], c.capacities[id], tokens)
    ensures r.Routed? ==> exists k :: 0 <= k < |ids| && ids[k] == r.id && FirstOfLoad(c, ids, tokens, k)
  {
    var keys := LoadKeys(c, ids, tokens);
    var best := BestOrNone(keys, 1.0, false);
    forall id | id in ids && CanTake(c, id, tokens)
      ensures if best < 0 then Load(c.nodes[id], c.capacities[id], tokens) >= 1.0
              else keys[best].value <= Load(c.nodes[id], c.capacities[id], tokens)
    {
      var i :| 0 <= i < |ids| && ids[i] == id;
      assert keys[i].Some? && !Better(keys[i].value, if best < 0 then 1.0 else keys[best].value, false);
    }
    if best >= 0 {
      assert ids[best] in ids && CanTake(c, ids[best], tokens);
      BestIsUnique(keys, 1.0, false, best);
      forall j | 0 <= j < best && CanTake(c, ids[j], tokens)
        ensures Load(c.nodes[ids[j]], c.capacities[ids[j]], tokens) > keys[best].value
      {
        assert keys[j].Some? && Better(keys[best].value, keys[j].value, false);
      }
      assert FirstOfLoad(c, ids, tokens, best);
    }
  }

  /** With reports within the limits, least-loaded routing fails exactly when no node
      can take the task. */
  lemma LeastLoadedComplete(c: Cluster, ids: seq<string>, tokens: int, r: Route)
    requires Known(c, ids) && Limited(c) && AllWithinLimits(c, ids)
    requires tokens >= 1 && "" !in ids
    requires LeastLoadedAnswer(c, ids, tokens, r)
    ensures r == NoneCanAccept <==> forall id :: id in ids ==> !CanTake(c, id, tokens)
  {
    LeastLoadedExactly(c, ids, tokens, r);
    forall id | id in ids && CanTake(c, id, tokens)
      ensures Load(c.nodes[id], c.capacities[id], tokens) < 1.0
    {
      var i :| 0 <= i < |ids| && ids[i] == id;
      AcceptorBelowOne(c.nodes[ids[i]], c.capacities[ids[i]], tokens);
    }
  }

  lemma BestIsUnique(keys: seq<Option<real>>, bound: real, higher: bool, k: int)
    requires FirstBest(keys, bound, higher, k)
    ensures forall j :: FirstBest(keys, bound, higher, j) ==> j == k
  {
  }

  /** Every node listed before that can take the task has a lower score. */
  ghost predicate FirstOfScore(c: Cluster, ids: seq<string>, tokens: int, now: int, k: nat)
    requires Known(c, ids) && Limited(c) && k < |ids| && ids[k] in c.capacities
  {
    forall j :: 0 <= j < k && CanTake(c, ids[j], tokens) ==>
      Score(c.nodes[ids[j]], c.capacities[ids[j]], now) < Score(c.nodes[ids[k]], c.capacities[ids[k]], now)
  }

  /** The same for weighted routing, at the highest score. */
  lemma WeightedComplete(c: Cluster, ids: seq<string>, tokens: int, now: int, r: Route)
    requires Known(c, ids) && Limited(c) && AllWithinLimits(c, ids)
    requires tokens >= 0 && "" !in ids
    requires WeightedAnswer(c, ids, tokens, now, r)
    ensures r == NoneCanAccept <==> forall id :: id in ids ==> !CanTake(c, id, tokens)
    ensures r.Routed? ==>
              r.id in ids && CanTake(c, r.id, tokens) &&
              forall id :: id in ids && CanTake(c, id, tokens) ==>
                Score(c.nodes[r.id], c.capacities[r.id], now) >= Score(c.nodes[id], c.capacities[id], now)
    ensures r.Routed? ==> exists k :: 0 <= k < |ids| && ids[k] == r.id && FirstOfScore(c, ids, tokens, now, k)
  {
    var keys := ScoreKeys(c, ids, tokens, now);
    var best := BestOrNone(keys, -1.0, true);
    forall i | 0 <= i < |ids| && CanTake(c, ids[i], tokens)
      ensures keys[i].Some? && keys[i].value > -1.0
    {
      AcceptorScoresPositive(c.nodes[ids[i]], c.capacities[ids[i]], tokens, now);
    }
    forall id | id in ids && CanTake(c, id, tokens)
      ensures best >= 0 && keys[best].value >= Score(c.nodes[id], c.capacities[id], now)
    {
      var i :| 0 <= i < |ids| && ids[i] == id;
      assert keys[i].Some? && Better(keys[i].value, -1.0, true);
    }
    if best >= 0 {
      assert ids[best] in ids && CanTake(c, ids[best], tokens);
      BestIsUnique(keys, -1.0, true, best);
    }
  }

  // ---------- Random choices ----------

  function RandomWeight(c: Cluster, id: string): int {
    if id in c.capacities then c.capacities[id].maxTokensPerMinute / 1000 else 1
  }

  function RandomWeights(c: Cluster, ids: seq<string>): seq<int> {
    seq(|ids|, i requires 0 <= i < |ids| => RandomWeight(c, ids[i]))
  }

  function RandomScore(c: Cluster, id: string, tokens: int, now: int): real
    requires id in c.nodes && Limited(c)
  {
    if id !in c.capacities then 0.1
    else if Accepts(c.capacities[id], tokens) then Score(c.nodes[id], c.capacities[id], now)
    else 0.0
  }

  ghost function RandomScores(c: Cluster, ids: seq<string>, tokens: int, now: int): (scores: seq<real>)
    requires Known(c, ids) && Limited(c)
    ensures |scores| == |ids|
  {
    seq(|ids|, i requires 0 <= i < |ids| => RandomScore(c, ids[i], tokens, now))
  }

  /** Intn panics unless the total is positive; then the draw selects by weight. */
  ghost predicate RandomAnswer(c: Cluster, ids: seq<string>, raw: nat, r: Route) {
    var ws := RandomWeights(c, ids);
    if Sum(ws) <= 0 then r == Panic
    else exists i :: 0 <= i < |ids| && SelectedBy(ws, raw % Sum(ws), i) && r == Routed(ids[i])
  }

  /** The loop stops inside, and answers for the draw. */
  lemma RawSelectsOne(c: Cluster, ids: seq<string>, raw: nat, i: nat)
    requires Limited(c) && Sum(RandomWeights(c, ids)) > 0 && i <= |ids|
    requires var ws := RandomWeights(c, ids);
             var draw := raw % Sum(ws);
             (forall j :: 1 <= j <= i ==> Sum(ws[..j]) <= draw) && (i < |ids| ==> draw < Sum(ws[..i + 1]))
    ensures i < |ids| && RandomAnswer(c, ids, raw, Routed(ids[i]))
  {
    var ws := RandomWeights(c, ids);
    DrawSelectsOne(ws, raw % Sum(ws), i);
  }

  /** unit is what Float64 returned. */
  ghost predicate WeightedRandomAnswer(c: Cluster, ids: seq<string>, tokens: int, now: int, unit: real, r: Route)
    requires Known(c, ids) && Limited(c)
  {
    var scores := RandomScores(c, ids, tokens, now);
    if SumReal(scores) == 0.0 then r == NoneCanAccept
    else exists i: nat :: PickedByChance(ids, scores, Drawn(unit, SumReal(scores)), i, r)
  }

  function Drawn(unit: real, total: real): real {
    unit * total
  }

  /** The loop's answer, and the fallback to the first node behind it. */
  ghost predicate PickedByChance(ids: seq<string>, scores: seq<real>, draw: real, i: nat, r: Route)
    requires |scores| == |ids|
  {
    StopsAt(scores, draw, i) && ids != [] && r == Routed(ids[if i < |ids| then i else 0])
  }

  lemma ScoresMeanSuitable(c: Cluster, ids: seq<string>, tokens: int, now: int)
    requires Known(c, ids) && Limited(c) && AllWithinLimits(c, ids) && tokens >= 0
    ensures var xs := RandomScores(c, ids, tokens, now);
            forall i :: 0 <= i < |ids| ==>
              xs[i] >= 0.0 &&
              (xs[i] == 0.0 <==> ids[i] in c.capacities && !CanTake(c, ids[i], tokens))
  {
    forall i | 0 <= i < |ids| && CanTake(c, ids[i], tokens)
      ensures RandomScore(c, ids[i], tokens, now) > 0.0
    {
      AcceptorScoresPositive(c.nodes[ids[i]], c.capacities[ids[i]], tokens, now);
    }
  }

  lemma DrawBelowTotal(unit: real, total: real)
    requires 0.0 <= unit < 1.0 && total > 0.0
    ensures 0.0 <= Drawn(unit, total) < total
    ensures Drawn(unit, total) == 0.0 <==> unit == 0.0
  {
    var draw := Drawn(unit, total);
    var slack := 1.0 - unit;
    ScaleStrictly(0.0, slack, total);
    assert slack * total == total - draw;
    if unit > 0.0 {
      ScaleStrictly(0.0, unit, total);
      assert draw > 0.0;
    } else {
      assert draw == 0.0 * total;
    }
  }

  /** Weighted random routing fails exactly when every node has a capacity record
      and none can take the task; otherwise it picks a node without a record or one
      that can take the task, with exactly one exception: the draw is 0 and the first
      node scores 0. */
  lemma {:induction false} WeightedRandomIsSuitable(c: Cluster, ids: seq<string>, tokens: int, now: int, unit: real,
                                                    r: Route)
    requires Known(c, ids) && Limited(c) && AllWithinLimits(c, ids) && tokens >= 0
    requires 0.0 <= unit < 1.0
    requires WeightedRandomAnswer(c, ids, tokens, now, unit, r)
    ensures r == NoneCanAccept <==> forall id :: id in ids ==> id in c.capacities && !CanTake(c, id, tokens)
    ensures r != NoneCanAccept ==>
              r.Routed? && r.id in ids &&
              (r.id !in c.capacities || CanTake(c, r.id, tokens) <==>
                 !(unit == 0.0 && RandomScore(c, ids[0], tokens, now) == 0.0))
  {
    var xs := RandomScores(c, ids, tokens, now);
    ScoresMeanSuitable(c, ids, tokens, now);
    SumIsZero(xs);
    var total := SumReal(xs);
    if total == 0.0 {
      forall id | id in ids ensures id in c.capacities && !CanTake(c, id, tokens) {
        var i :| 0 <= i < |ids| && ids[i] == id;
        assert xs[i] == 0.0;
      }
    } else {
      var z :| 0 <= z < |xs| && xs[z] != 0.0;
      assert ids[z] in ids;
      var i: nat :| PickedByChance(ids, xs, Drawn(unit, total), i, r);
      DrawBelowTotal(unit, total);
      ScoreSelectsPositive(xs, Drawn(unit, total), i);
      assert r.id == ids[i];
    }
  }

  lemma Quotients(a: real, b: real, total: real)
    requires total > 0.0
    ensures a / total < b <==> a < b * total
    ensures b <= a / total <==> b * total <= a
  {
    var q := a / total;
    assert q * total == a;
    if q < b {
      ScaleStrictly(q, b, total);
    } else if b < q {
      ScaleStrictly(b, q, total);
    }
  }

  /** A node scores a tenth without a capacity record, its score if it can take the
      task, and nothing otherwise. */
  ghost predicate ScoredSo(c: Cluster, ids: seq<string>, tokens: int, now: int, scores: seq<real>)
    requires Known(c, ids) && Limited(c)
  {
    |scores| == |ids| &&
    forall k :: 0 <= k < |ids| ==>
      scores[k] ==
      if ids[k] !in c.capacities then 0.1
      else
        var cap := c.capacities[ids[k]];
        if cap.currentConcurrentTasks < cap.maxConcurrentTasks &&
           cap.currentTokensPerMin + tokens <= cap.maxTokensPerMinute
        then Score(c.nodes[ids[k]], cap, now) else 0.0
  }

  /** Exactly proportional: of the numbers in [0, 1) that the random source may return,
      those that make weighted random routing name the i-th node are an interval whose
      length is its score's share of the total, with 0 for the first node. */
  lemma {:induction false} UnitsAreProportional(c: Cluster, ids: seq<string>, tokens: int, now: int,
                                                scores: seq<real>, unit: real, r: Route, i: nat)
    requires Known(c, ids) && Limited(c) && Distinct(ids) && i < |ids| && 0.0 <= unit < 1.0
    requires ScoredSo(c, ids, tokens, now, scores) && NonNegativeReal(scores) && SumReal(scores) > 0.0
    requires WeightedRandomAnswer(c, ids, tokens, now, unit, r)
    ensures var total := SumReal(scores);
            && (r == Routed(ids[i]) <==>
                SumReal(scores[..i]) / total < unit <= SumReal(scores[..i + 1]) / total || (unit == 0.0 && i == 0))
            && SumReal(scores[..i + 1]) / total - SumReal(scores[..i]) / total == scores[i] / total
  {
    assert RandomScores(c, ids, tokens, now) == scores;
    var k := StopsInside(ids, scores, unit, r);
    assert r == Routed(ids[i]) <==> i == k;
    UnitInterval(scores, unit, k, i);
    ShareOfTotal(scores, i);
  }

  lemma StopsInside(ids: seq<string>, scores: seq<real>, unit: real, r: Route) returns (k: nat)
    requires |scores| == |ids| && NonNegativeReal(scores) && SumReal(scores) > 0.0 && 0.0 <= unit < 1.0
    requires exists i: nat :: PickedByChance(ids, scores, Drawn(unit, SumReal(scores)), i, r)
    ensures k < |ids| && r == Routed(ids[k]) && StopsAt(scores, Drawn(unit, SumReal(scores)), k)
  {
    var draw := Drawn(unit, SumReal(scores));
    k :| PickedByChance(ids, scores, draw, k, r);
    DrawBelowTotal(unit, SumReal(scores));
    ScoreSelectsPositive(scores, draw, k);
  }

  lemma UnitInterval(xs: seq<real>, unit: real, k: nat, i: nat)
    requires NonNegativeReal(xs) && SumReal(xs) > 0.0 && 0.0 <= unit < 1.0
    requires k < |xs| && i < |xs| && StopsAt(xs, Drawn(unit, SumReal(xs)), k)
    ensures i == k <==> SumReal(xs[..i]) / SumReal(xs) < unit <= SumReal(xs[..i + 1]) / SumReal(xs) ||
                        (unit == 0.0 && i == 0)
  {
    DrawBelowTotal(unit, SumReal(xs));
    OneInterval(xs, Drawn(unit, SumReal(xs)), k, i);
    ScaledInterval(SumReal(xs[..i]), SumReal(xs[..i + 1]), unit, SumReal(xs));
  }

  lemma ScaledInterval(low: real, high: real, unit: real, total: real)
    requires total > 0.0
    ensures low < Drawn(unit, total) <= high <==> low / total < unit <= high / total
  {
    Quotients(low, unit, total);
    Quotients(high, unit, total);
  }

  lemma ShareOfTotal(xs: seq<real>, i: nat)
    requires i < |xs| && SumReal(xs) > 0.0
    ensures SumReal(xs[..i + 1]) / SumReal(xs) - SumReal(xs[..i]) / SumReal(xs) == xs[i] / SumReal(xs)
  {
    assert xs[..i + 1][..i] == xs[..i];
    Difference(SumReal(xs[..i]), xs[i], SumReal(xs));
  }

  lemma Difference(a: real, b: real, total: real)
    requires total > 0.0
    ensures (a + b) / total - a / total == b / total
  {
  }

  lemma OneInterval(xs: seq<real>, draw: real, k: nat, i: nat)
    requires NonNegativeReal(xs) && k < |xs| && i < |xs| && draw >= 0.0
    requires StopsAt(xs, draw, k)
    ensures i == k <==> SumReal(xs[..i]) < draw <= SumReal(xs[..i + 1]) || (draw == 0.0 && i == 0)
  {
    assert xs[..0] == [];
    if i < k {
      assert SumReal(xs[..i + 1]) < draw;
    } else if k < i {
      SumRealMonotonic(xs, k + 1, i);
    }
  }

  /** The same for the integer weights: of the draws below the total, a node's share is
      one per thousand tokens a minute, or one without a capacity record. */
  lemma RawDrawsAreProportional(c: Cluster, ids: seq<string>, i: nat)
    requires Limited(c) && Distinct(ids) && i < |ids|
    ensures var total := Sum(RandomWeights(c, ids));
            var share := set raw | 0 <= raw < total && RandomAnswer(c, ids, raw, Routed(ids[i]));
            |share| == if ids[i] in c.capacities then c.capacities[ids[i]].maxTokensPerMinute / 1000 else 1
  {
    var ws := RandomWeights(c, ids);
    var total := Sum(ws);
    var share := set raw | 0 <= raw < total && RandomAnswer(c, ids, raw, Routed(ids[i]));
    forall raw ensures raw in share <==> raw in DrawsFor(ws, i) {
      if 0 <= raw < total {
        assert raw % total == raw;
        assert SelectedBy(ws, raw, i) ==> RandomAnswer(c, ids, raw, Routed(ids[i]));
      }
    }
    assert share == DrawsFor(ws, i);
    DrawsAreProportional(ws, i);
  }

  lemma {:induction false} SumIsZero(xs: seq<real>)
    requires NonNegativeReal(xs)
    ensures SumReal(xs) >= 0.0
    ensures SumReal(xs) == 0.0 <==> forall i :: 0 <= i < |xs| ==> xs[i] == 0.0
    decreases |xs|
  {
    if xs != [] {
      SumIsZero(xs[..|xs| - 1]);
      assert forall i :: 0 <= i < |xs| - 1 ==> xs[..|xs| - 1][i] == xs[i];
    }
  }

  // ---------- Which strategy ----------

  datatype Strategy = RoundRobin | LeastLoaded | Weighted | Random | Adaptive | Geographic | Unknown

  /** The selection that finally runs. */
  datatype Pick = ByTurn | ByLoad | ByScore | ByWeight | ByChance

  function TotalLoad(c: Cluster, ids: seq<string>): real {
    if ids == [] then 0.0
    else TotalLoad(c, ids[..|ids| - 1]) +
         (if ids[|ids| - 1] in c.nodes then c.nodes[ids[|ids| - 1]].currentLoad else 0.0)
  }

  function AverageLoad(c: Cluster, ids: seq<string>): real
    requires ids != []
  {
    TotalLoad(c, ids) / |ids| as real
  }

  /** The load average is the mean of what the nodes report. */
  lemma {:induction false} AverageIsMean(c: Cluster, ids: seq<string>, loads: seq<real>)
    requires Known(c, ids) && ids != [] && |loads| == |ids|
    requires forall i :: 0 <= i < |ids| ==> loads[i] == c.nodes[ids[i]].currentLoad
    ensures AverageLoad(c, ids) * |ids| as real == SumReal(loads)
  {
    TotalIsSum(c, ids, loads);
  }

  lemma {:induction false} TotalIsSum(c: Cluster, ids: seq<string>, loads: seq<real>)
    requires Known(c, ids) && |loads| == |ids|
    requires forall i :: 0 <= i < |ids| ==> loads[i] == c.nodes[ids[i]].currentLoad
    ensures TotalLoad(c, ids) == SumReal(loads)
    decreases |ids|
  {
    if ids != [] {
      TotalIsSum(c, ids[..|ids| - 1], loads[..|loads| - 1]);
    }
  }

  /** With adaptive mode on, the two stages amount to this one rule. */
  function FlatRule(nodeCount: nat, load: real, priority: int): Pick {
    if nodeCount < 3 then ByLoad
    else if load > 0.8 then ByScore
    else if priority > 5 then ByLoad
    else ByChance
  }

  /** With adaptive mode off, the configured strategy decides, and only the
      adaptive one looks at the load. */
  function ConfiguredRule(strategy: Strategy, nodeCount: nat, load: real, priority: int): Pick {
    match strategy
    case RoundRobin => ByTurn
    case LeastLoaded => ByLoad
    case Weighted => ByScore
    case Geographic => ByScore
    case Random => ByWeight
    case Unknown => ByTurn
    case Adaptive =>
      if load > 0.8 then ByLoad
      else if nodeCount < 3 then ByScore
      else if priority > 5 then ByLoad
      else ByChance
  }
}
