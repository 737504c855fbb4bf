/** The router. Each call is one atomic step; the order in which a map is
    ranged over, the clock and the random draws are parameters. */
module LoadBalancer {
  import opened Tasks
  import opened Nodes
  import opened Draws
  import opened Routing
  import opened Turns
  import B = CircuitBreaker

  type Breakers = map<string, B.Breaker>

  // ---------- Healthy nodes ----------

  predicate IsFit(nodes: map<string, Status>, breakers: Breakers, id: string, now: int) {
    id in nodes && IsHealthy(nodes[id], now) &&
    (id in breakers ==> B.Available(breakers[id], now))
  }

  /** The fit nodes, in the order given. */
  function FitNodes(nodes: map<string, Status>, breakers: Breakers, order: seq<string>, now: int): (ids: seq<string>)
    ensures forall i :: 0 <= i < |ids| ==> ids[i] in order && IsFit(nodes, breakers, ids[i], now)
    ensures forall id :: id in order && IsFit(nodes, breakers, id, now) ==> id in ids
    ensures |ids| <= |order|
  {
    if order == [] then []
    else
      var before, last := order[..|order| - 1], order[|order| - 1];
      FitNodes(nodes, breakers, before, now) + (if IsFit(nodes, breakers, last, now) then [last] else [])
  }

  /** Asking a healthy node's breaker may make it half-open. */
  function Asked(nodes: map<string, Status>, breakers: Breakers, ids: seq<string>, now: int): Breakers {
    map id | id in breakers ::
      if id in ids && id in nodes && IsHealthy(nodes[id], now) then B.AfterQuery(breakers[id], now)
      else breakers[id]
  }

  // ---------- What the breakers remember ----------

  /** What was recorded about each node since it was registered. */
  type Histories = map<string, seq<B.Event>>

  const THRESHOLD: int := 5
  const TIMEOUT: int := 30 * SECOND

  /** Every breaker is the outcome of its node's history, up to now. */
  ghost predicate Recorded(breakers: Breakers, histories: Histories, now: int) {
    forall id :: id in breakers ==>
      id in histories && breakers[id] == B.Run(THRESHOLD, TIMEOUT, histories[id]) && B.NoQueryAfter(histories[id], now)
  }

  function Noted(histories: Histories, id: string, e: B.Event): Histories {
    if id in histories then histories[id := histories[id] + [e]] else histories
  }

  /** Asking a healthy node's breaker is part of its history. */
  function AskedNoted(nodes: map<string, Status>, breakers: Breakers, histories: Histories, ids: seq<string>,
                      now: int): Histories {
    map id | id in histories ::
      if id in ids && id in breakers && id in nodes && IsHealthy(nodes[id], now) then histories[id] + [B.Query(now)]
      else histories[id]
  }

  lemma OneMoreEvent(h: seq<B.Event>, e: B.Event, was: int, now: int)
    requires B.NoQueryAfter(h, was) && was <= now && (e.Query? ==> e.now <= now)
    ensures B.Run(THRESHOLD, TIMEOUT, h + [e]) == B.After(B.Run(THRESHOLD, TIMEOUT, h), e)
    ensures B.NoQueryAfter(h + [e], now)
  {
    assert (h + [e])[..|h|] == h;
  }

  lemma NotedRecorded(breakers: Breakers, histories: Histories, id: string, e: B.Event, was: int, now: int)
    requires Recorded(breakers, histories, was) && was <= now && (e.Query? ==> e.now <= now)
    ensures Recorded(if id in breakers then breakers[id := B.After(breakers[id], e)] else breakers,
                     Noted(histories, id, e), now)
  {
    if id in breakers {
      OneMoreEvent(histories[id], e, was, now);
    }
  }

  lemma AskedRecorded(nodes: map<string, Status>, breakers: Breakers, histories: Histories, ids: seq<string>,
                      was: int, now: int)
    requires Recorded(breakers, histories, was) && was <= now
    ensures Recorded(Asked(nodes, breakers, ids, now), AskedNoted(nodes, breakers, histories, ids, now), now)
  {
    forall id | id in breakers
      ensures B.Run(THRESHOLD, TIMEOUT, histories[id] + [B.Query(now)]) == B.AfterQuery(breakers[id], now)
      ensures B.NoQueryAfter(histories[id] + [B.Query(now)], now)
    {
      OneMoreEvent(histories[id], B.Query(now), was, now);
    }
  }

  /** Going by everything recorded about it, a registered node is offered for routing
      exactly if its health flag is set, its last report is less than thirty seconds
      old, and, if it has a breaker, it has fewer than five failures since that last
      closed, or none for more than thirty seconds. */
  lemma FitExactly(nodes: map<string, Status>, breakers: Breakers, histories: Histories, order: seq<string>,
                   id: string, was: int, now: int)
    requires Recorded(breakers, histories, was) && was <= now && id in nodes && id in order
    ensures id in FitNodes(nodes, breakers, order, now) <==>
            && nodes[id].health
            && now < nodes[id].lastHeartbeat + 30_000_000_000
            && (id in breakers ==>
                  B.FailuresSinceClose(5, 30_000_000_000, histories[id]) < 5 ||
                  now - B.LastFailure(histories[id]) > 30_000_000_000)
  {
    if id in breakers {
      B.ClosedForm(THRESHOLD, TIMEOUT, histories[id], now);
    }
  }

  /** Thirty seconds after its last report a node drops out, and it stays out until the
      next one, whatever its breaker says. */
  lemma DropsOut(reported: Status, nodes: map<string, Status>, breakers: Breakers, order: seq<string>,
                 id: string, now: int)
    requires id in nodes && nodes[id] == reported && now >= reported.lastHeartbeat + 30_000_000_000
    ensures id !in FitNodes(nodes, breakers, order, now)
  {
    assert id in FitNodes(nodes, breakers, order, now) ==> IsFit(nodes, breakers, id, now);
  }

  /** Asking changes only an open breaker of a healthy node past its timeout, and only
      makes it half-open. */
  lemma AskedExactly(nodes: map<string, Status>, breakers: Breakers, order: seq<string>, id: string, now: int)
    requires id in breakers
    ensures id in Asked(nodes, breakers, order, now)
    ensures var before, after := breakers[id], Asked(nodes, breakers, order, now)[id];
            if id in order && id in nodes && nodes[id].health && now - nodes[id].lastHeartbeat < 30_000_000_000 &&
               before.state == B.Open && now - before.lastFailureTime > before.timeout
            then after == before.(state := B.HalfOpen) else after == before
  {
  }

  lemma AskedNone(nodes: map<string, Status>, breakers: Breakers, now: int)
    ensures Asked(nodes, breakers, [], now) == breakers
  {
  }

  lemma OneMoreAsked(nodes: map<string, Status>, breakers: Breakers, ids: seq<string>, id: string, now: int)
    requires id !in ids && id in nodes
    ensures var before := Asked(nodes, breakers, ids, now);
            && before.Keys == breakers.Keys
            && (id in breakers ==> before[id] == breakers[id])
            && Asked(nodes, breakers, ids + [id], now) ==
                 (if id in breakers && IsHealthy(nodes[id], now)
                  then before[id := B.AfterQuery(breakers[id], now)] else before)
    ensures FitNodes(nodes, breakers, ids + [id], now) ==
              FitNodes(nodes, breakers, ids, now) + (if IsFit(nodes, breakers, id, now) then [id] else [])
  {
    assert (ids + [id])[..|ids|] == ids;
    assert forall x :: x in ids + [id] <==> x in ids || x == id;
  }

  class LoadBalancer {
    var nodes: map<string, Status>
    var capacities: map<string, Capacity>
    var breakers: Breakers
    var lastIndex: nat
    const strategy: Strategy
    const adaptiveStrategy: bool
    ghost var histories: Histories
    /** The last reading of the clock. */
    ghost var clock: int

    ghost predicate Valid()
      reads `breakers, `histories, `clock
    {
      Recorded(breakers, histories, clock)
    }

    function View(): Cluster
      reads `nodes, `capacities
    {
      Cluster(nodes, capacities)
    }

    constructor (strategy: Strategy, adaptive: bool, ghost now: int)
      ensures Valid() && clock == now
      ensures nodes == map[] && capacities == map[] && breakers == map[] && lastIndex == 0
      ensures this.strategy == strategy && adaptiveStrategy == adaptive
    {
      nodes, capacities, breakers, lastIndex := map[], map[], map[], 0;
      this.strategy, adaptiveStrategy := strategy, adaptive;
      histories, clock := map[], now;
    }

    method RegisterNode(id: string, status: Status)
      requires Valid()
      modifies `nodes, `breakers, `histories
      ensures Valid()
      ensures nodes == old(nodes)[id := status]
      ensures breakers == old(breakers)[id := B.Breaker(B.Closed, 0, 0, 0, 5, 30_000_000_000)]
      ensures histories == old(histories)[id := []]
    {
      nodes := nodes[id := status];
      breakers := breakers[id := B.NewBreaker(THRESHOLD, TIMEOUT)];
      histories := histories[id := []];
    }

    method UnregisterNode(id: string)
      requires Valid()
      modifies `nodes, `capacities, `breakers, `histories
      ensures Valid()
      ensures nodes == old(nodes) - {id} && capacities == old(capacities) - {id}
      ensures breakers == old(breakers) - {id} && histories == old(histories) - {id}
    {
      nodes := nodes - {id};
      capacities := capacities - {id};
      breakers := breakers - {id};
      histories := histories - {id};
    }

    method RecordNodeSuccess(id: string)
      requires Valid()
      modifies `breakers, `histories
      ensures Valid()
      ensures breakers == if id in old(breakers) then old(breakers)[id := B.AfterSuccess(old(breakers)[id])]
                          else old(breakers)
      ensures histories == Noted(old(histories), id, B.Success)
    {
      NotedRecorded(breakers, histories, id, B.Success, clock, clock);
      if id in breakers {
        breakers := breakers[id := B.AfterSuccess(breakers[id])];
      }
      histories := Noted(histories, id, B.Success);
    }

    method RecordNodeFailure(id: string, now: int)
      requires Valid() && clock <= now
      modifies `breakers, `histories, `clock
      ensures Valid() && clock == now
      ensures breakers == if id in old(breakers) then old(breakers)[id := B.AfterFailure(old(breakers)[id], now)]
                          else old(breakers)
      ensures histories == Noted(old(histories), id, B.Failure(now))
    {
      NotedRecorded(breakers, histories, id, B.Failure(now), clock, now);
      if id in breakers {
        breakers := breakers[id := B.AfterFailure(breakers[id], now)];
      }
      histories, clock := Noted(histories, id, B.Failure(now)), now;
    }

    /** The loop over the registered nodes. */
    method AskBreakers(order: seq<string>, now: int) returns (healthy: seq<string>)
      requires Distinct(order) && forall id :: id in order <==> id in nodes
      modifies `breakers
      ensures healthy == FitNodes(nodes, old(breakers), order, now)
      ensures breakers == Asked(nodes, old(breakers), order, now)
    {
      healthy := [];
      ghost var was := breakers;
      AskedNone(nodes, was, now);
      for i := 0 to |order|
        invariant healthy == FitNodes(nodes, was, order[..i], now)
        invariant breakers == Asked(nodes, was, order[..i], now)
      {
        var id := order[i];
        OneMoreAsked(nodes, was, order[..i], id, now);
        assert order[..i + 1] == order[..i] + [id];
        if IsHealthy(nodes[id], now) {
          if id !in breakers {
            healthy := healthy + [id];
          } else {
            if B.Available(breakers[id], now) {
              healthy := healthy + [id];
            }
            breakers := breakers[id := B.AfterQuery(breakers[id], now)];
          }
        }
      }
      assert order[..|order|] == order;
    }

    method GetHealthyNodes(order: seq<string>, now: int) returns (healthy: seq<string>)
      requires Valid() && clock <= now
      requires Distinct(order) && forall id :: id in order <==> id in nodes
      modifies `breakers, `histories, `clock
      ensures Valid() && clock == now
      ensures healthy == FitNodes(nodes, old(breakers), order, now)
      ensures breakers == Asked(nodes, old(breakers), order, now)
      ensures histories == AskedNoted(nodes, old(breakers), old(histories), order, now)
    {
      AskedRecorded(nodes, breakers, histories, order, clock, now);
      histories, clock := AskedNoted(nodes, breakers, histories, order, now), now;
      healthy := AskBreakers(order, now);
    }

    method TakeTurn(ids: seq<string>) returns (r: Route)
      requires ids != []
      modifies `lastIndex
      ensures lastIndex == NextTurn(old(lastIndex), |ids|)
      ensures r == Routed(ids[lastIndex])
    {
      lastIndex := (lastIndex + 1) % |ids|;
      r := Routed(ids[lastIndex]);
    }

    method PickLeastLoaded(ids: seq<string>, tokens: int) returns (r: Route)
      requires Known(View(), ids) && Limited(View())
      ensures LeastLoadedAnswer(View(), ids, tokens, r)
    {
      var bestNode := "";
      var lowestLoad := 1.0;
      ghost var keys := LoadKeys(View(), ids, tokens);
      ghost var best := -1;
      for i := 0 to |ids|
        invariant if best < 0 then NoneBeats(keys[..i], 1.0, false) && bestNode == "" && lowestLoad == 1.0
                  else FirstBest(keys[..i], 1.0, false, best) && bestNode == ids[best] && lowestLoad == keys[best].value
      {
        var id := ids[i];
        OneMoreKey(keys[..i], 1.0, false, best, keys[i]);
        assert keys[..i + 1] == keys[..i] + [keys[i]];
        if id in capacities && Accepts(capacities[id], tokens) {
          var load := Load(nodes[id], capacities[id], tokens);
          if load < lowestLoad {
            lowestLoad := load;
            bestNode := id;
            best := i;
          }
        }
      }
      assert keys[..|ids|] == keys;
      r := Answer(ids, keys, 1.0, false, best, bestNode);
    }

    method PickHighestScore(ids: seq<string>, tokens: int, now: int) returns (r: Route)
      requires Known(View(), ids) && Limited(View())
      ensures WeightedAnswer(View(), ids, tokens, now, r)
    {
      var bestNode := "";
      var bestScore := -1.0;
      ghost var keys := ScoreKeys(View(), ids, tokens, now);
      ghost var best := -1;
      for i := 0 to |ids|
        invariant if best < 0 then NoneBeats(keys[..i], -1.0, true) && bestNode == "" && bestScore == -1.0
                  else FirstBest(keys[..i], -1.0, true, best) && bestNode == ids[best] && bestScore == keys[best].value
      {
        var id := ids[i];
        OneMoreKey(keys[..i], -1.0, true, best, keys[i]);
        assert keys[..i + 1] == keys[..i] + [keys[i]];
        if id in capacities && Accepts(capacities[id], tokens) {
          var score := Score(nodes[id], capacities[id], now);
          if score > bestScore {
            bestScore := score;
            bestNode := id;
            best := i;
          }
        }
      }
      assert keys[..|ids|] == keys;
      r := Answer(ids, keys, -1.0, true, best, bestNode);
    }

    /** Reads an empty best name as "none found". */
    method Answer(ghost ids: seq<string>, ghost keys: seq<Option<real>>, ghost bound: real, ghost higher: bool,
                  ghost best: int, bestNode: string)
      returns (r: Route)
      requires |keys| == |ids|
      requires if best < 0 then NoneBeats(keys, bound, higher) && bestNode == ""
               else FirstBest(keys, bound, higher, best) && bestNode == ids[best]
      ensures NamesBest(ids, keys, bound, higher, r)
    {
      if bestNode == "" {
        r := NoneCanAccept;
      } else {
        r := Routed(bestNode);
      }
    }

    method WeighNodes(ids: seq<string>) returns (weights: seq<int>, total: int)
      ensures weights == RandomWeights(View(), ids) && total == Sum(weights)
    {
      weights, total := [], 0;
      ghost var all := RandomWeights(View(), ids);
      for i := 0 to |ids|
        invariant weights == all[..i] && total == Sum(weights)
      {
        var weight := if ids[i] in capacities then capacities[ids[i]].maxTokensPerMinute / 1000 else 1;
        assert (weights + [weight])[..i] == weights;
        weights := weights + [weight];
        total := total + weight;
      }
    }

    /** raw stands for the random source: Intn(n) is raw modulo n. */
    method PickRandom(ids: seq<string>, raw: nat) returns (r: Route)
      requires ids != [] && Limited(View())
      ensures RandomAnswer(View(), ids, raw, r)
    {
      var weights, total := WeighNodes(ids);
      if total <= 0 {
        return Panic;
      }
      var draw := raw % total;
      var k := SelectByWeight(weights, draw);
      RawSelectsOne(View(), ids, raw, k);
      if k < |ids| {
        r := Routed(ids[k]);
      } else {
        // The source draws again here; with weights that are not negative it never gets here.
        assert false;
      }
    }

    method PickWeightedRandom(ids: seq<string>, tokens: int, now: int, unit: real) returns (r: Route)
      requires ids != [] && Known(View(), ids) && Limited(View())
      ensures WeightedRandomAnswer(View(), ids, tokens, now, unit, r)
    {
      var scores: seq<real> := [];
      var total := 0.0;
      ghost var all := RandomScores(View(), ids, tokens, now);
      for i := 0 to |ids|
        invariant scores == all[..i] && total == SumReal(scores)
      {
        var id := ids[i];
        var score := 0.0;
        if id !in capacities {
          score := 0.1;
        } else if Accepts(capacities[id], tokens) {
          score := Score(nodes[id], capacities[id], now);
        }
        assert (scores + [score])[..i] == scores;
        scores := scores + [score];
        total := total + score;
      }
      assert scores == all;
      if total == 0.0 {
        return NoneCanAccept;
      }
      var k := SelectByScore(scores, Drawn(unit, total));
      r := Routed(ids[if k < |ids| then k else 0]);
      assert PickedByChance(ids, all, Drawn(unit, total), k, r);
    }

    /** Both load averages of the source: calculateTotalLoad and calculateSystemLoad. */
    method ComputeAverageLoad(ids: seq<string>) returns (load: real)
      requires ids != []
      ensures load == AverageLoad(View(), ids)
    {
      var total := 0.0;
      for i := 0 to |ids|
        invariant total == TotalLoad(View(), ids[..i])
      {
        assert ids[..i + 1][..i] == ids[..i];
        if ids[i] in nodes {
          total := total + nodes[ids[i]].currentLoad;
        }
      }
      assert ids[..|ids|] == ids;
      load := total / |ids| as real;
    }

    method GetOptimalStrategy(ids: seq<string>) returns (s: Strategy)
      requires ids != []
      ensures s == if !adaptiveStrategy then strategy
                   else if |ids| < 3 then LeastLoaded
                   else if AverageLoad(View(), ids) > 0.8 then Weighted
                   else Adaptive
    {
      if !adaptiveStrategy {
        return strategy;
      }
      var totalLoad := ComputeAverageLoad(ids);
      var averageLatency := 50 * MILLISECOND;
      if |ids| < 3 {
        return LeastLoaded;
      } else if totalLoad > 0.8 {
        return Weighted;
      } else if averageLatency > 100 * MILLISECOND {
        return Geographic;
      } else {
        return Adaptive;
      }
    }

    /** The answer is the one that this pick gives. */
    ghost predicate Answers(pick: Pick, ids: seq<string>, tokens: int, now: int, raw: nat, unit: real, r: Route)
      reads `nodes, `capacities, `lastIndex
      requires ids != [] && Known(View(), ids) && Limited(View())
    {
      match pick
      case ByTurn => lastIndex < |ids| && r == Routed(ids[lastIndex])
      case ByLoad => LeastLoadedAnswer(View(), ids, tokens, r)
      case ByScore => WeightedAnswer(View(), ids, tokens, now, r)
      case ByWeight => RandomAnswer(View(), ids, raw, r)
      case ByChance => WeightedRandomAnswer(View(), ids, tokens, now, unit, r)
    }

    method RouteAdaptively(ids: seq<string>, tokens: int, priority: int, now: int, unit: real)
      returns (r: Route)
      requires ids != [] && Known(View(), ids) && Limited(View())
      ensures Answers(ConfiguredRule(Adaptive, |ids|, AverageLoad(View(), ids), priority),
                      ids, tokens, now, 0, unit, r)
    {
      var systemLoad := ComputeAverageLoad(ids);
      if systemLoad > 0.8 {
        r := PickLeastLoaded(ids, tokens);
      } else if |ids| < 3 {
        r := PickHighestScore(ids, tokens, now);
      } else if priority > 5 {
        r := PickLeastLoaded(ids, tokens);
      } else {
        r := PickWeightedRandom(ids, tokens, now, unit);
      }
    }

    /** Runs one strategy. Only taking turns changes the balancer. */
    method Dispatch(s: Strategy, ids: seq<string>, tokens: int, priority: int, now: int, raw: nat, unit: real)
      returns (r: Route)
      requires ids != [] && Known(View(), ids) && Limited(View())
      modifies `lastIndex
      ensures var pick := ConfiguredRule(s, |ids|, AverageLoad(View(), ids), priority);
              && Answers(pick, ids, tokens, now, raw, unit, r)
              && lastIndex == if pick == ByTurn then NextTurn(old(lastIndex), |ids|) else old(lastIndex)
    {
      match s
      case LeastLoaded => r := PickLeastLoaded(ids, tokens);
      case Weighted => r := PickHighestScore(ids, tokens, now);
      case Geographic => r := PickHighestScore(ids, tokens, now);
      case Random => r := PickRandom(ids, raw);
      case Adaptive => r := RouteAdaptively(ids, tokens, priority, now, unit);
      case RoundRobin => r := TakeTurn(ids);
      case Unknown => r := TakeTurn(ids);
    }

    /** The rule that routing follows: one flat rule when adaptive mode is on, and the
        configured strategy otherwise. */
    function Rule(ids: seq<string>, priority: int): Pick
      reads `nodes, `capacities
      requires ids != []
    {
      var load := AverageLoad(View(), ids);
      if adaptiveStrategy then FlatRule(|ids|, load, priority) else ConfiguredRule(strategy, |ids|, load, priority)
    }

    /** Routes one task. The node it names is registered, healthy and, going by
        everything recorded about it, not tripped. */
    method RouteTask(order: seq<string>, tokens: int, priority: int, now: int, raw: nat, unit: real)
      returns (r: Route)
      requires Valid() && clock <= now && Limited(View())
      requires Distinct(order) && forall id :: id in order <==> id in nodes
      modifies `breakers, `histories, `clock, `lastIndex
      ensures Valid() && clock == now
      ensures breakers == Asked(nodes, old(breakers), order, now)
      ensures histories == AskedNoted(nodes, old(breakers), old(histories), order, now)
      ensures var healthy := FitNodes(nodes, old(breakers), order, now);
              if healthy == [] then r == NoHealthyNodes && lastIndex == old(lastIndex)
              else
                var pick := Rule(healthy, priority);
                && Known(View(), healthy)
                && Answers(pick, healthy, tokens, now, raw, unit, r)
                && r != NoHealthyNodes
                && lastIndex == if pick == ByTurn then NextTurn(old(lastIndex), |healthy|) else old(lastIndex)
      ensures r.Routed? ==> IsFit(nodes, old(breakers), r.id, now)
      ensures r.Routed? ==>
                r.id in nodes && nodes[r.id].health && now - nodes[r.id].lastHeartbeat < 30_000_000_000
      ensures r.Routed? && r.id in breakers ==>
                r.id in old(histories) &&
                var h := old(histories)[r.id];
                B.FailuresSinceClose(5, 30_000_000_000, h) < 5 || now - B.LastFailure(h) > 30_000_000_000
    {
      var ids := GetHealthyNodes(order, now);
      if |ids| == 0 {
        return NoHealthyNodes;
      }
      var s := GetOptimalStrategy(ids);
      r := Dispatch(s, ids, tokens, priority, now, raw, unit);
      AnswerIsListed(Rule(ids, priority), ids, tokens, now, raw, unit, r);
      if r.Routed? && r.id in breakers {
        FitExactly(nodes, old(breakers), old(histories), order, r.id, old(clock), now);
      }
    }

    lemma AnswerIsListed(pick: Pick, ids: seq<string>, tokens: int, now: int, raw: nat, unit: real, r: Route)
      requires ids != [] && Known(View(), ids) && Limited(View())
      requires Answers(pick, ids, tokens, now, raw, unit, r)
      ensures r.Routed? ==> r.id in ids
      ensures r != NoHealthyNodes
    {
    }

    /** The rule spelled out: with adaptive mode on, fewer than three nodes are compared
        by load, otherwise a high load average calls for the best score, a priority above
        five for the least load, and everything else is drawn. */
    lemma AdaptiveRule(ids: seq<string>, tokens: int, priority: int, now: int, raw: nat, unit: real, r: Route)
      requires ids != [] && Known(View(), ids) && Limited(View()) && adaptiveStrategy
      requires Answers(Rule(ids, priority), ids, tokens, now, raw, unit, r)
      ensures var average := AverageLoad(View(), ids);
              && (|ids| < 3 ==> LeastLoadedAnswer(View(), ids, tokens, r))
              && (|ids| >= 3 && average > 0.8 ==> WeightedAnswer(View(), ids, tokens, now, r))
              && (|ids| >= 3 && average <= 0.8 && priority > 5 ==> LeastLoadedAnswer(View(), ids, tokens, r))
              && (|ids| >= 3 && average <= 0.8 && priority <= 5 ==>
                    WeightedRandomAnswer(View(), ids, tokens, now, unit, r))
    {
    }

    /** And with adaptive mode off, what each configured strategy comes to. */
    lemma ConfiguredStrategy(ids: seq<string>, tokens: int, priority: int, now: int, raw: nat, unit: real, r: Route)
      requires ids != [] && Known(View(), ids) && Limited(View()) && !adaptiveStrategy
      requires Answers(Rule(ids, priority), ids, tokens, now, raw, unit, r)
      ensures strategy == RoundRobin || strategy == Unknown ==> lastIndex < |ids| && r == Routed(ids[lastIndex])
      ensures strategy == LeastLoaded ==> LeastLoadedAnswer(View(), ids, tokens, r)
      ensures strategy == Weighted || strategy == Geographic ==> WeightedAnswer(View(), ids, tokens, now, r)
      ensures strategy == Random ==> RandomAnswer(View(), ids, raw, r)
      ensures strategy == Adaptive ==>
                var average := AverageLoad(View(), ids);
                && (average > 0.8 || (|ids| >= 3 && priority > 5) ==> LeastLoadedAnswer(View(), ids, tokens, r))
                && (average <= 0.8 && |ids| < 3 ==> WeightedAnswer(View(), ids, tokens, now, r))
                && (average <= 0.8 && |ids| >= 3 && priority <= 5 ==>
                      WeightedRandomAnswer(View(), ids, tokens, now, unit, r))
    {
    }

    /** Adaptive mode end to end, for the healthy nodes at hand. Routing fails exactly
        if no node can take the task and, where the random selection decides, every
        node has a capacity record. A node it names can take the task, unless the random
        selection chose it: that may also pick a node without a capacity record, and
        with a draw of 0 the first node. */
    lemma {:induction false} AdaptiveRoutingComplete(pick: Pick, ids: seq<string>, tokens: int, priority: int, now: int,
                                  raw: nat, unit: real, r: Route)
      requires ids != [] && Known(View(), ids) && Limited(View()) && AllWithinLimits(View(), ids)
      requires tokens >= 1 && "" !in ids && 0.0 <= unit < 1.0
      requires adaptiveStrategy && pick == Rule(ids, priority)
      requires Answers(pick, ids, tokens, now, raw, unit, r)
      ensures r.Routed? || r == NoneCanAccept
      ensures r == NoneCanAccept <==>
              forall id :: id in ids ==> !CanTake(View(), id, tokens) && (pick == ByChance ==> id in capacities)
      ensures r.Routed? ==>
                r.id in ids &&
                (CanTake(View(), r.id, tokens) || (pick == ByChance && (r.id !in capacities || unit == 0.0)))
    {
      match pick
      case ByLoad => LeastLoadedComplete(View(), ids, tokens, r); LeastLoadedExactly(View(), ids, tokens, r);
      case ByScore => WeightedComplete(View(), ids, tokens, now, r);
      case ByChance => WeightedRandomIsSuitable(View(), ids, tokens, now, unit, r);
    }
  }
}
