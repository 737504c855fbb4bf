/** What a node reports about itself, and the capacity counters it keeps. */
module Nodes {

  /** Times and durations are in nanoseconds. */
  const MILLISECOND: int := 1_000_000
  const SECOND: int := 1_000_000_000

  datatype Status = Status(
    health: bool,
    lastHeartbeat: int,
    currentLoad: real,
    activeTasks: int,
    queueLength: int)

  predicate IsHealthy(status: Status, now: int) {
    status.health && now - status.lastHeartbeat < 30 * SECOND
  }

  datatype Capacity = Capacity(
    maxTokensPerMinute: int,
    maxConcurrentTasks: int,
    maxQueueSize: int,
    currentRequestsPerMin: int,
    currentTokensPerMin: int,
    currentConcurrentTasks: int)

  predicate Accepts(c: Capacity, estimatedTokens: int) {
    c.currentConcurrentTasks < c.maxConcurrentTasks &&
    c.currentTokensPerMin + estimatedTokens <= c.maxTokensPerMinute
  }

  /** The limits that configuration validation lets through. */
  predicate PositiveLimits(c: Capacity) {
    c.maxTokensPerMinute > 0 && c.maxConcurrentTasks > 0 && c.maxQueueSize > 0
  }

  function Incremented(c: Capacity, estimatedTokens: int): Capacity {
    c.(currentConcurrentTasks := c.currentConcurrentTasks + 1,
       currentTokensPerMin := c.currentTokensPerMin + estimatedTokens)
  }

  function Decremented(c: Capacity, estimatedTokens: int): Capacity {
    c.(currentConcurrentTasks := if c.currentConcurrentTasks > 0 then c.currentConcurrentTasks - 1
                                 else c.currentConcurrentTasks,
       currentTokensPerMin := if c.currentTokensPerMin >= estimatedTokens
                              then c.currentTokensPerMin - estimatedTokens
                              else c.currentTokensPerMin)
  }

  function Reset(c: Capacity): Capacity {
    c.(currentRequestsPerMin := 0, currentTokensPerMin := 0)
  }

  /** The node's own record, updated in place. */
  class NodeCapacity {
    const maxTokensPerMinute: int
    const maxConcurrentTasks: int
    const maxQueueSize: int
    var currentRequestsPerMin: int
    var currentTokensPerMin: int
    var currentConcurrentTasks: int

    function View(): Capacity
      reads this
    {
      Capacity(maxTokensPerMinute, maxConcurrentTasks, maxQueueSize,
               currentRequestsPerMin, currentTokensPerMin, currentConcurrentTasks)
    }

    constructor (maxTokens: int, maxConcurrent: int, maxQueue: int)
      ensures View() == Capacity(maxTokens, maxConcurrent, maxQueue, 0, 0, 0)
    {
      maxTokensPerMinute, maxConcurrentTasks, maxQueueSize := maxTokens, maxConcurrent, maxQueue;
      currentRequestsPerMin, currentTokensPerMin, currentConcurrentTasks := 0, 0, 0;
    }

    method CanAcceptTask(estimatedTokens: int) returns (accepts: bool)
      ensures accepts == Accepts(View(), estimatedTokens)
      ensures accepts <==> currentConcurrentTasks < maxConcurrentTasks &&
                           currentTokensPerMin + estimatedTokens <= maxTokensPerMinute
    {
      accepts := currentConcurrentTasks < maxConcurrentTasks &&
                 currentTokensPerMin + estimatedTokens <= maxTokensPerMinute;
    }

    method IncrementTaskCounts(estimatedTokens: int)
      modifies `currentConcurrentTasks, `currentTokensPerMin
      ensures View() == Incremented(old(View()), estimatedTokens)
      ensures currentConcurrentTasks == old(currentConcurrentTasks) + 1
      ensures currentTokensPerMin == old(currentTokensPerMin) + estimatedTokens
    {
      currentConcurrentTasks := currentConcurrentTasks + 1;
      currentTokensPerMin := currentTokensPerMin + estimatedTokens;
    }

    method DecrementTaskCounts(estimatedTokens: int)
      modifies `currentConcurrentTasks, `currentTokensPerMin
      ensures View() == Decremented(old(View()), estimatedTokens)
      ensures old(currentConcurrentTasks) > 0 ==> currentConcurrentTasks == old(currentConcurrentTasks) - 1
      ensures old(currentConcurrentTasks) <= 0 ==> currentConcurrentTasks == old(currentConcurrentTasks)
      ensures old(currentTokensPerMin) >= estimatedTokens ==>
                currentTokensPerMin == old(currentTokensPerMin) - estimatedTokens
      ensures old(currentTokensPerMin) < estimatedTokens ==> currentTokensPerMin == old(currentTokensPerMin)
    {
      if currentConcurrentTasks > 0 {
        currentConcurrentTasks := currentConcurrentTasks - 1;
      }
      if currentTokensPerMin >= estimatedTokens {
        currentTokensPerMin := currentTokensPerMin - estimatedTokens;
      }
    }

    method ResetMinuteCounts()
      modifies `currentRequestsPerMin, `currentTokensPerMin
      ensures View() == Reset(old(View()))
      ensures currentRequestsPerMin == 0 && currentTokensPerMin == 0
    {
      currentRequestsPerMin := 0;
      currentTokensPerMin := 0;
    }
  }
}
