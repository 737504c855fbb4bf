# Verification of the LLM task balancer

This project models the stateful core of the balancer in Dafny and proves what that core keeps. It has four parts.

**The priority task queue.** `BinaryHeap` holds the sift operations of a binary heap, once as functions on sequences
and once in place on an array; `TaskQueue` is the bounded queue over that array. Every method is proved to be one step
of a multiset (`QueueSpec`), and `QueueRuns` says what holds of every run of such steps: capacity, order of departure,
conservation, and a drain order that does not depend on the arrangement of the heap. `Wakeup` is the waiting protocol
around the one-slot notify channel, with any number of producers and consumers, as a step system: safety in every
reachable state, and termination of the consumers with an empty queue; `QueueSteps` shows that the queue's own methods
are its steps.

**The circuit breaker and the router.** `CircuitBreaker` is the breaker's record with its methods, and a closed form of
its state after any history. `BreakerLocks` splits `IsAvailable` where it drops its read lock, and shows what survives
any interleaving, what does not, and exactly when. `Nodes`, `Draws`, `Turns` and `Routing` define health, capacity,
cumulative-weight draws, round-robin turns, loads and scores; `LoadBalancer` is the router with its selection loops and
its two-stage dispatch.

**The failure detector and redistribution.** `FailureDetector` follows one peer through any history, with safety and
timing; `Gossip` is the table of peer records that change in place. `PrioritySort` is the bubble sort, `Redistribution`
the balance of the greedy assignment.

**The task lifecycle of a node.** `NodeState` and `NodeServer` are the node's shared state and methods. `Lifecycle`
interleaves submissions, a queue, any number of workers, minute resets and cleanups, one atomic step at a time.
`Conservation` and `NodeCounts` say what every run keeps for each task and for the counters, `Progress` that the workers
finish everything that was accepted, and which tasks may still be started, and `Handover` what that means for the tasks
handed out for redistribution.

Times are integers (nanoseconds) and the clock, the random draws, the outcomes of network calls and the order in which
Go ranges over a map are parameters. `float64` is modelled by exact reals.

## Where the code and its description differ

- The value receivers of `taskHeap.Push` and `taskHeap.Pop` (`internal/queue/task_queue.go:47-58`) lose the slice they
  assign, so the queue as written never grows. The model follows the documented intent, a bounded priority queue
  (`README.md:46`, `internal/interfaces/interfaces.go:62-66`).
- "FIFO for same priority" (`README.md:46`) is FIFO by creation time. Of two tasks of one priority that are queued
  together with different creation times, the one pushed first leaves first exactly if it was created first
  (`QueueRuns.LeavesFirstExactly`); with creation times that increase within each priority it holds over every run
  (`QueueRuns.FirstInFirstOut`). For equal creation times the order depends on the heap: whenever three tasks with one
  priority and one creation time are pushed into an empty queue, the third leaves before the second
  (`TaskQueue.TiesLeaveOutOfOrder`).
- One token wakes one consumer, so a consumer may wait beside a queued task without a token. That is ruled out in a run
  exactly if no consumer takes the token while tasks are queued and another consumer waits
  (`Wakeup.SharpExactlyWithoutStranding`); two pushes can lead there (`Wakeup.OneTokenWakesOne`).
- A caller that was let through by an expired breaker may write late. "Half-open means enough failures" holds in a run
  exactly if no such write lands on a closed breaker (`BreakerLocks.TrippedExactlyWithoutLateWrites`), and the timed
  closed form exactly if none lands on an open breaker whose timeout has not passed
  (`BreakerLocks.ClosedFormExactlyWithoutHastyWrites`).
- Each time a peer is declared dead its tasks are handed on, and it is removed only after that
  (`internal/node/gossip.go:349-355`). Between two contacts it is declared dead at most once exactly if no message to it
  fails while it is dead and still listed with the detector running again before the removal
  (`FailureDetector.OneDeathExactly`); `FailureDetector.DoubtRepeatsDeath` is a history in which that happens.
- A submission that found room may still be refused: the fullness check and the push take the queue's lock separately
  (`cmd/node/main.go:583-599`). The push fails exactly if the queue is full at that moment
  (`Conservation.PushRefusedExactly`, `Conservation.RoomLostBeforePush`).
- The token counter is exact all through a run exactly if every minute reset finds no tokens in flight
  (`NodeCounts.TokensExactUnlessResetInFlight`).
- A queued task that is ten minutes old is handed out for redistribution although it is not orphaned. A task handed out
  is this node's work as well, now or later, exactly if it is running, or failed with its worker not yet done, or
  pending and not refused, given workers and a queue of any capacity (`Handover.OfferedWorkedOnExactly`).

## Model

| member | source | states |
|---|---|---|
| `BinaryHeap.RootIsFirst` | internal/queue/task_queue.go:35-41 | In a heap ordered by `Less`, no task anywhere precedes the root. |
| `BinaryHeap.UpStep` | internal/queue/task_queue.go:43-45 | One upward swap leaves at most the parent's place out of order, and only upwards. |
| `BinaryHeap.DownStep` | internal/queue/task_queue.go:43-45 | One downward swap with the child that no sibling precedes leaves at most that child's place out of order, and only downwards. |
| `BinaryHeap.LeftChildWinsTies` | internal/queue/task_queue.go:35-41 | Of two children with one key the left one is picked to move up. |
| `BinaryHeap.SiftUpRestores` | internal/queue/task_queue.go:102 | Sifting up an appended or changed task restores the heap order and keeps the multiset of tasks. |
| `BinaryHeap.SiftDownRestores` | internal/queue/task_queue.go:130 | Sifting down restores the heap order and keeps the multiset of tasks. |
| `BinaryHeap.FixedRestores` | internal/queue/task_queue.go:252 | After any change of one key, `Fix` restores the heap and keeps the tasks. |
| `BinaryHeap.WithoutRestores` | internal/queue/task_queue.go:233 | `Remove` at any index leaves a heap with exactly that one task fewer. |
| `BinaryHeap.Up` | internal/queue/task_queue.go:102 | The in-place loop computes the sift-up of the old slice. |
| `BinaryHeap.Down` | internal/queue/task_queue.go:130 | The in-place loop computes the sift-down of the old slice and tells whether anything moved. |
| `BinaryHeap.Fix` | internal/queue/task_queue.go:252 | Down first, up only if nothing moved: computes the fixed slice in place. |
| `BinaryHeap.Remove` | internal/queue/task_queue.go:233 | Swaps with the last task, fixes the rest, returns the removed task; in place. |
| `TaskQueue.TaskQueue.constructor` | internal/queue/task_queue.go:61-77 | A new queue is empty, in order, without a token and with all counters at zero. |
| `TaskQueue.TaskQueue.HeapPop` | internal/queue/task_queue.go:129-130 | Takes out a task that no queued task precedes, and keeps the heap. |
| `TaskQueue.TaskQueue.Push` | internal/queue/task_queue.go:80-116 | Which of the three errors or success, exactly; the content gains exactly the task or stays; token, peak size and counters. |
| `TaskQueue.TaskQueue.IsFull` | internal/queue/task_queue.go:193-195 | Full exactly when the content has reached the capacity. |
| `TaskQueue.TaskQueue.TryPop` | internal/queue/task_queue.go:127-140 | Empty exactly when nothing is queued; otherwise takes out a first task; operation counter and average wait. |
| `TaskQueue.TaskQueue.Find` | internal/queue/task_queue.go:231-232 | The linear search finds a task with the ID exactly when one is queued. |
| `TaskQueue.TaskQueue.RemoveTask` | internal/queue/task_queue.go:227-242 | Removes exactly one task with the ID, or counts an error when there is none. |
| `TaskQueue.TaskQueue.UpdateTask` | internal/queue/task_queue.go:245-261 | Applies an arbitrary change to one task with the ID and keeps the heap, or counts an error. |
| `TaskQueue.TaskQueue.Clear` | internal/queue/task_queue.go:198-209 | Empties the queue; peak size, wait time and token stay. |
| `TaskQueue.TaskQueue.HeapDrain` | internal/queue/task_queue.go:468-472 | The drain loop ends with an empty heap, and its output is sorted and is the old content. |
| `TaskQueue.TaskQueue.Drain` | internal/queue/task_queue.go:464-478 | Returns a sorted permutation of the content and leaves the queue empty. |
| `TaskQueue.TiesLeaveOutOfOrder` | internal/queue/task_queue.go:36-40 | Three tasks with one key, pushed in turn into an empty queue: the third leaves before the second. |
| `QueueRuns.CapacityHolds` | internal/queue/task_queue.go:96-99 | In every run the queue never holds more than its capacity. |
| `QueueRuns.FirstInFirstOut` | internal/queue/task_queue.go:36-40 | In every run with creation times that increase within each priority, and key-keeping updates, tasks of equal priority leave in push order, by pops and drains alike. |
| `QueueRuns.YoungerStay` | internal/queue/task_queue.go:36-40 | In such a run, what is still queued is younger than all that left with its priority. |
| `QueueRuns.PrecedingLeavesFirst` | internal/queue/task_queue.go:35-41 | Over any stretch of any run, a queued task leaves before every task it precedes, unless it is removed, changed or cleared. |
| `QueueRuns.LeavesFirstExactly` | internal/queue/task_queue.go:36-40 | Of two tasks of one priority queued together with different creation times, one leaves first if and only if it was created first. |
| `QueueRuns.NoLowerPriorityLeaves` | internal/queue/task_queue.go:37-39 | In every run no popped task has a lower priority than one that stays. |
| `QueueRuns.NothingIsLost` | internal/queue/task_queue.go:80-140 | In every run of pushes, pops and drains, what arrived is what left plus what is queued. |
| `QueueRuns.DrainIsCanonical` | internal/queue/task_queue.go:464-478 | With distinct creation times the drained order is determined by the content. |
| `Wakeup.StepSafe` | internal/queue/task_queue.go:109-113 | Every step of every producer and consumer keeps the safety property. |
| `Wakeup.PushLetsAnyoneMove` | internal/queue/task_queue.go:109-113 | After any accepted push, from any state, every consumer can go on, and whoever waits beside a queued task finds the token. |
| `Wakeup.TokenIsPushSinceWake` | internal/queue/task_queue.go:109-147 | Over any run the token is there if and only if a push was accepted since a consumer last took it. |
| `Wakeup.NoLostWakeup` | internal/queue/task_queue.go:127-163 | In every reachable state, a non-empty queue with all consumers waiting has a token. |
| `Wakeup.NoLostWakeupAlone` | internal/queue/task_queue.go:127-163 | A single consumer that waits while something is queued can wake. |
| `Wakeup.CanMoveIsEnabled` | internal/queue/task_queue.go:127-147 | A consumer "can move" exactly when one of its own steps is enabled. |
| `Wakeup.MoveLowersRank` | internal/queue/task_queue.go:127-147 | Each move of a consumer lowers a rank made of tasks, consumer states and the token. |
| `Wakeup.ConsumersEmptyTheQueue` | internal/queue/task_queue.go:127-163 | Consumers left to themselves stop within 2 * (tasks + consumers + 1) moves, and only with an empty queue. |
| `Wakeup.SharpExactlyWithoutStranding` | internal/queue/task_queue.go:109-147 | Over any run, whoever waits beside a queued task finds the token, throughout, if and only if no consumer takes the token while tasks are queued and another consumer waits. |
| `Wakeup.StrandedSinceWake` | internal/queue/task_queue.go:109-147 | Over any run, someone waits beside a queued task without a token only since a stranding wake after which no push was accepted. |
| `Wakeup.OneTokenWakesOne` | internal/queue/task_queue.go:109-113 | Such a run exists: a reachable state where one consumer waits beside a queued task without a token. |
| `QueueSteps.Produce` | internal/queue/task_queue.go:80-116 | The queue's push is the protocol's push step: content and token change as it says. |
| `QueueSteps.Look` | internal/queue/task_queue.go:127-140 | The locked part of a pop is the protocol's check step. |
| `QueueSteps.Take` | internal/queue/task_queue.go:227-242 | A removal is a step that leaves token and consumers alone. |
| `QueueSteps.Change` | internal/queue/task_queue.go:245-261 | An update is such a step. |
| `QueueSteps.TakeAll` | internal/queue/task_queue.go:464-478 | A drain is such a step. |
| `CircuitBreaker.CircuitBreaker.RecordSuccess` | internal/balancer/load_balancer.go:42-52 | The record after a success. |
| `CircuitBreaker.CircuitBreaker.RecordFailure` | internal/balancer/load_balancer.go:55-66 | The record after a failure. |
| `CircuitBreaker.CircuitBreaker.IsAvailable` | internal/balancer/load_balancer.go:69-92 | The answer, and the record after asking. |
| `CircuitBreaker.StateFromHistory` | internal/balancer/load_balancer.go:42-92 | After any history: failure count, last failure, mode and success count as functions of the events alone. |
| `CircuitBreaker.ClosedForm` | internal/balancer/load_balancer.go:69-92 | After any history the breaker lets a call through exactly when fewer than threshold failures came since the last close, or the timeout has passed since the last failure. |
| `CircuitBreaker.ClosingTakesSuccesses` | internal/balancer/load_balancer.go:46-51 | Every return to closed follows at least threshold successes since the last failure. |
| `BreakerLocks.LookThenWriteIsQuery` | internal/balancer/load_balancer.go:76-85 | With nothing in the gap, look and write are the atomic query. |
| `BreakerLocks.StateUnderInterleaving` | internal/balancer/load_balancer.go:42-85 | Under any interleaving: closed implies fewer than threshold failures, open implies enough, and the success count is the successes since the last close or opening failure. |
| `BreakerLocks.SafeUnderInterleaving` | internal/balancer/load_balancer.go:42-85 | Under any interleaving a close needs threshold successes since the last close or opening failure. |
| `BreakerLocks.TrippedExactlyWithoutLateWrites` | internal/balancer/load_balancer.go:78-82 | "Half-open implies enough failures" holds throughout a run if and only if no pending write lands on a closed breaker. |
| `BreakerLocks.LateWriteHappens` | internal/balancer/load_balancer.go:78-82 | For every threshold and timeout, a run in which a write lands late. |
| `BreakerLocks.CountsFollowSteps` | internal/balancer/load_balancer.go:42-66 | Under any interleaving the record holds the number of failures since the last close and the time of the last one. |
| `BreakerLocks.ClosedFormExactlyWithoutHastyWrites` | internal/balancer/load_balancer.go:76-85 | With a clock that does not run backwards, the timed closed form over the recorded steps holds throughout a run if and only if no pending write lands on an open breaker whose timeout has not passed. |
| `BreakerLocks.FreshFailureIgnored` | internal/balancer/load_balancer.go:78-82 | For every threshold and timeout, a run after which a call is let through right after a new failure. |
| `Nodes.NodeCapacity.CanAcceptTask` | internal/models/node.go:94-100 | Accepts exactly below both limits. |
| `Nodes.NodeCapacity.IncrementTaskCounts` | internal/models/node.go:103-108 | One more task and its tokens. |
| `Nodes.NodeCapacity.DecrementTaskCounts` | internal/models/node.go:111-120 | One task fewer and its tokens, each only if the counter allows it. |
| `Nodes.NodeCapacity.ResetMinuteCounts` | internal/models/node.go:123-128 | The minute's counters are zero, concurrency stays. |
| `Draws.SelectByWeight` | internal/balancer/load_balancer.go:484-493 | The loop stops at the first index whose cumulative weight exceeds the draw. |
| `Draws.DrawSelectsOne` | internal/balancer/load_balancer.go:483-499 | A draw below the total selects exactly one index; the fallback is unreachable. |
| `Draws.DrawsAreProportional` | internal/balancer/load_balancer.go:467-493 | Of the draws below the total, exactly weights[i] select index i. |
| `Draws.SelectByScore` | internal/balancer/load_balancer.go:564-573 | The loop stops at the first index whose cumulative score reaches the draw. |
| `Draws.ScoreSelectsPositive` | internal/balancer/load_balancer.go:562-578 | The loop stops inside; the score it picks is 0 exactly when draw and first score are 0; an index answers the draws of an interval as long as its score. |
| `Turns.TurnsExactly` | internal/balancer/load_balancer.go:326-327 | The exact number of times an index is selected in k turns. |
| `Turns.TurnsAreFair` | internal/balancer/load_balancer.go:321-333 | Over any number of turns, from any old index, selection counts of any two nodes differ by at most one. |
| `Routing.AcceptorBelowOne` | internal/balancer/load_balancer.go:375-394 | A node that can take at least one token more has a load strictly below 1, penalty and integer halving included. |
| `Routing.AcceptorScoresPositive` | internal/balancer/load_balancer.go:436-459 | A node that can take the task has a positive score. |
| `Routing.LoadByShares` | internal/balancer/load_balancer.go:375-394 | An idle node has load 0; one more active task, queued task or token adds exactly 0.5, 0.3 or 0.2 of its limit's share, and needing more than half of the minute's tokens adds 0.1. |
| `Routing.ScoreByShares` | internal/balancer/load_balancer.go:436-459 | A fresh idle node scores 0.75 and a quarter per 10000 tokens a minute; each active task, queued task or token takes exactly its share, and a stale report 0.05. |
| `Routing.LeastLoadedExactly` | internal/balancer/load_balancer.go:341-371 | Whatever nodes report: fails exactly when every acceptor has load 1 or more, otherwise names the first listed acceptor of minimal load. |
| `Routing.LeastLoadedComplete` | internal/balancer/load_balancer.go:336-372 | With reports within the limits: fails exactly when no node can take the task. |
| `Routing.WeightedComplete` | internal/balancer/load_balancer.go:397-433 | With reports within the limits: fails exactly when no node can take the task, otherwise names the first listed acceptor of maximal score. |
| `Routing.WeightedRandomIsSuitable` | internal/balancer/load_balancer.go:529-579 | Fails exactly when all nodes have a record and none can take the task; otherwise what it picks has no record or can take the task if and only if not both the draw and the first score are 0. |
| `Routing.UnitsAreProportional` | internal/balancer/load_balancer.go:563-573 | The numbers in [0, 1) for which the i-th node is named are the interval of its score's share of the total, with 0 for the first node. |
| `Routing.RawDrawsAreProportional` | internal/balancer/load_balancer.go:467-493 | Of the integer draws below the total, a node is named by one per thousand tokens a minute, or by one without a capacity record. |
| `Routing.AverageIsMean` | internal/balancer/load_balancer.go:184-192 | The load average times the number of nodes is the sum of the loads they report. |
| `LoadBalancer.FitExactly` | internal/balancer/load_balancer.go:303-318 | By the history kept since registration, a node is offered for routing if and only if its health flag is set, its last report is less than thirty seconds old, and, if it has a breaker, it has fewer than five failures since the last close or none for thirty seconds. |
| `LoadBalancer.DropsOut` | internal/models/node.go:87-91 | Thirty seconds after its last report a node is not offered, and not until the next report, whatever its breaker says. |
| `LoadBalancer.AskedExactly` | internal/balancer/load_balancer.go:303-318 | Looking for healthy nodes changes only open breakers of healthy nodes past their timeout, and only to half-open. |
| `LoadBalancer.LoadBalancer.RegisterNode` | internal/balancer/load_balancer.go:222-229 | The node is listed with a new breaker of threshold 5 and timeout 30 s. |
| `LoadBalancer.LoadBalancer.UnregisterNode` | internal/balancer/load_balancer.go:232-240 | Node, capacity and breaker are gone; all other breakers still match their histories. |
| `LoadBalancer.LoadBalancer.RecordNodeSuccess` | internal/balancer/load_balancer.go:261-269 | Only the node's own breaker sees the success; every breaker still is the outcome of its history. |
| `LoadBalancer.LoadBalancer.RecordNodeFailure` | internal/balancer/load_balancer.go:272-280 | Only the node's own breaker sees the failure; every breaker still is the outcome of its history. |
| `LoadBalancer.LoadBalancer.AskBreakers` | internal/balancer/load_balancer.go:303-318 | The loop returns exactly the healthy, breaker-available nodes, in order; exactly the breakers of healthy nodes were asked. |
| `LoadBalancer.LoadBalancer.GetHealthyNodes` | internal/balancer/load_balancer.go:303-318 | The same, with every breaker still the outcome of its history. |
| `LoadBalancer.LoadBalancer.TakeTurn` | internal/balancer/load_balancer.go:321-333 | The index advances by one turn, stays in range, and selects its node. |
| `LoadBalancer.LoadBalancer.PickLeastLoaded` | internal/balancer/load_balancer.go:336-372 | The loop finds the first acceptor of least load below 1, or none. |
| `LoadBalancer.LoadBalancer.PickHighestScore` | internal/balancer/load_balancer.go:397-433 | The loop finds the first acceptor of highest score, or none. |
| `LoadBalancer.LoadBalancer.WeighNodes` | internal/balancer/load_balancer.go:467-480 | The loop computes every node's weight and their total. |
| `LoadBalancer.LoadBalancer.PickRandom` | internal/balancer/load_balancer.go:462-500 | Panics exactly without positive total weight; otherwise the draw's own index is selected. |
| `LoadBalancer.LoadBalancer.PickWeightedRandom` | internal/balancer/load_balancer.go:529-579 | Fails exactly when the scores sum to 0; otherwise the scaled draw selects. |
| `LoadBalancer.LoadBalancer.ComputeAverageLoad` | internal/balancer/load_balancer.go:184-192 | Both load averages of the source are this sum over the list, divided by its length. |
| `LoadBalancer.LoadBalancer.GetOptimalStrategy` | internal/balancer/load_balancer.go:161-181 | The first stage; its geographic branch is dead. |
| `LoadBalancer.LoadBalancer.RouteAdaptively` | internal/balancer/load_balancer.go:503-526 | The second stage. |
| `LoadBalancer.LoadBalancer.RouteTask` | internal/balancer/load_balancer.go:126-158 | With adaptive mode on the two stages give the answer of one flat rule; only round robin moves the index; every node named is registered, reported within thirty seconds, is breaker-available and, by its history, not tripped. |
| `LoadBalancer.LoadBalancer.AdaptiveRule` | internal/balancer/load_balancer.go:161-181 | The flat rule spelled out: fewer than three nodes by load; average load above 0.8 by score; priority above 5 by load; otherwise drawn. |
| `LoadBalancer.LoadBalancer.ConfiguredStrategy` | internal/balancer/load_balancer.go:142-157 | With adaptive mode off, what each configured strategy comes to. |
| `LoadBalancer.LoadBalancer.AdaptiveRoutingComplete` | internal/balancer/load_balancer.go:126-181 | Adaptive routing end to end: exactly when it fails, and which nodes it may name. |
| `FailureDetector.PeerFromHistory` | internal/node/gossip.go:319-346 | Last contact and doubt of a listed peer are those of its history. |
| `FailureDetector.ChangesExactly` | internal/node/gossip.go:273-346 | Exactly when a listed peer dies, is suspected, leaves the list, and what its last contact is. |
| `FailureDetector.ListedExactly` | internal/node/gossip.go:707-730 | An unlisted peer is listed exactly by being added or by its own message. |
| `FailureDetector.LoadIsLastReported` | internal/node/gossip.go:713-716 | Over any history a peer's load is the last one it reported since it was listed, or 0. |
| `FailureDetector.DeathIsJustified` | internal/node/gossip.go:333-337 | Declared dead only by the detector, only when already suspected since the last contact, and without any contact within the failure timeout. |
| `FailureDetector.SilencePersists` | internal/node/gossip.go:319-346 | While a peer is silent its last contact stays, and it is not dropped before it was dead. |
| `FailureDetector.SuspicionPersists` | internal/node/gossip.go:319-346 | A silent suspect stays one until it is dead. |
| `FailureDetector.DeclaredInTime` | internal/node/gossip.go:319-346 | For any period of the detector: declared dead by last contact + max(failure, suspicion + period) + period. |
| `FailureDetector.DeclaredWithinOnePeriod` | internal/node/gossip.go:64-66 | With period at most failure - suspicion: declared dead by last contact + failure + period; 35 s as configured. |
| `FailureDetector.OneDeathExactly` | internal/node/gossip.go:319-355 | Between two contacts, removals included, a peer is declared dead at most once if and only if no message to it fails while it is dead and listed with a detector run afterwards that still finds it listed. |
| `FailureDetector.OneDeathWithoutDoubts` | internal/node/gossip.go:333-337 | From any start, listed or not, and with removals, a peer without contact whose death nothing casts doubt on is declared dead at most once. |
| `FailureDetector.DoubtAddsDeath` | internal/node/gossip.go:284-291 | After any history that leaves a peer dead and listed past its timeout, a failed message and a detector run declare it dead once more. |
| `FailureDetector.DoubtRepeatsDeath` | internal/node/gossip.go:284-291 | A history of an unlisted peer that is added and then declared dead twice without contact. |
| `Gossip.GossipManager.AddPeer` | internal/node/gossip.go:89-101 | The peer is alive now; no other peer changes. |
| `Gossip.GossipManager.RemovePeer` | internal/node/gossip.go:104-110 | The peer is gone; no other peer changes. |
| `Gossip.GossipManager.MarkPeerAlive` | internal/node/gossip.go:273-281 | Contact is recorded for a listed peer only; no other peer changes. |
| `Gossip.GossipManager.MarkPeerSuspicious` | internal/node/gossip.go:284-291 | A listed peer is suspected; no other peer changes. |
| `Gossip.GossipManager.HandleGossipMessage` | internal/node/gossip.go:695-730 | The sender is alive now with the load and latency it reported, or newly listed; no other peer changes. |
| `Gossip.GossipManager.DetectFailures` | internal/node/gossip.go:319-346 | Every peer makes exactly one detector step, and exactly those declared dead are handed over, each once. |
| `Gossip.GossipManager.GetAvailablePeers` | internal/node/gossip.go:458-469 | Exactly the alive peers, each once. |
| `Gossip.SelectWeightedPeer` | internal/node/gossip.go:520-544 | The first peer of highest score above -1, or none. |
| `Gossip.GossipManager.UpdatePeerLoad` | internal/node/gossip.go:401-409 | Exactly the named peer's load grows, by the task's increment. |
| `Gossip.GossipManager.RedistributeTasks` | internal/node/gossip.go:358-386 | Sorts the tasks, and the peers' loads end as the greedy specification says; peers that are not available keep theirs; nothing happens without peers. |
| `PrioritySort.SwapKeepsOrderWithin` | internal/node/gossip.go:393-395 | Swapping neighbours of different priority disturbs no priority. |
| `PrioritySort.BubblePass` | internal/node/gossip.go:392-396 | One pass settles one more place and keeps the order within each priority. |
| `PrioritySort.SortTasksByPriority` | internal/node/gossip.go:389-398 | Non-increasing priority, a permutation, and stable. |
| `PrioritySort.SortIsDetermined` | internal/node/gossip.go:389-398 | These properties determine the result. |
| `Redistribution.TaskKeepsGap` | internal/node/gossip.go:377-383 | One greedy step keeps the gap between scores within the bound. |
| `Redistribution.ChosenExactly` | internal/node/gossip.go:520-544 | In loads and latencies alone: which peer is chosen, if and only if; ties go to the first listed. |
| `Redistribution.ChosenNotDominated` | internal/node/gossip.go:526-540 | No peer with a load no higher and a lower latency below a second, or a lower load and a latency no higher, is passed over. |
| `Redistribution.ExchangeRate` | internal/node/gossip.go:526-540 | Below a second, a latency lower by d outweighs a load higher by x if and only if 0.4 d / second > 0.6 x. |
| `Redistribution.GapStaysWithin` | internal/node/gossip.go:375-385 | Whichever sends fail, the gap between scores stays within any bound on the starting gap and on 0.6 times every increment. |
| `Redistribution.MaximumNearAverage` | internal/node/gossip.go:375-385 | Loads within a step of each other are at most (1 - 1/m) steps above their average. |
| `Redistribution.BalancedAtTheEnd` | internal/node/gossip.go:375-385 | With equal latencies and starting loads within a step, no final load exceeds the average by more than (1 - 1/m) steps. |
| `Redistribution.LoadIsConserved` | internal/node/gossip.go:375-409 | The total load grows by exactly the delivered tasks. |
| `NodeState.ProcessedLeavesCapacity` | cmd/node/main.go:343-383 | An undisturbed processing sets a final status, records one outcome twice and leaves the capacity as it was. |
| `NodeServer.NodeServer.TrackSubmission` | cmd/node/main.go:562-580 | A malformed request changes nothing; any other is tracked as a pending task before the queue is asked. |
| `NodeServer.NodeServer.PushTracked` | cmd/node/main.go:591-599 | The push fails exactly if the queue is full at the push, and otherwise queues exactly the task. |
| `NodeServer.NodeServer.HandleSubmitTask` | cmd/node/main.go:550-610 | A whole submission, undisturbed between the fullness check and the push: what it answers, and what tracker and queue get. |
| `NodeServer.NodeServer.ProcessTask` | cmd/node/main.go:343-383 | The in-place steps in the worker's order amount to the specified change. |
| `NodeServer.NodeServer.HandleOutcome` | cmd/node/main.go:482-523 | Final status and second recording. |
| `NodeServer.NodeServer.RecordOutcome` | cmd/node/main.go:525-539 | One recording of an error message or a success. |
| `NodeServer.NodeServer.Cleanup` | internal/node/task_tracker.go:171-183 | Forgets exactly the tracked tasks older than a day. |
| `NodeServer.NodeServer.GetFailedTasks` | internal/node/task_tracker.go:73-94 | Exactly the tracked tasks that failed or have been running for more than five minutes. |
| `NodeServer.NodeServer.GetOrphanedTasks` | internal/node/task_tracker.go:97-114 | Exactly the tracked tasks pending for more than ten minutes. |
| `NodeServer.NodeServer.GetTasksForRedistribution` | internal/node/task_tracker.go:197-220 | Exactly those two groups, without repetition. |
| `NodeServer.NodeServer.CalculateErrorRate` | cmd/node/main.go:714-730 | The sums over both maps, and 0 when nothing was recorded. |
| `Counting.BumpAddsOne` | cmd/node/main.go:533-539 | Counting one event under any key raises the sum over the map by one. |
| `Lifecycle.StepSound` | cmd/node/main.go:318-383 | Every step of submissions, workers, resets and cleanups keeps the places, statuses and start counts in agreement. |
| `Lifecycle.QueueWithinCapacity` | internal/queue/task_queue.go:96-99 | In every reachable state of a node its queue is within capacity. |
| `Lifecycle.PopsTakeTheFirst` | cmd/node/main.go:328 | In any run a worker takes a task than which no queued one has a higher priority, or the same priority and an earlier creation. |
| `Conservation.TasksAreConserved` | cmd/node/main.go:318-383 | In every reachable state each accepted task is queued, with exactly one worker, or finished, never twice; started at most once, and exactly once if finished. |
| `Conservation.TrackedExactly` | internal/node/task_tracker.go:171-183 | In every reachable state a task is tracked if and only if no cleanup found it more than a day old. |
| `Conservation.RefusedTasksNeverRun` | cmd/node/main.go:583-599 | A task refused as full stays pending, is never started, and stays tracked exactly until a cleanup finds it a day old. |
| `Conservation.PushRefusedExactly` | cmd/node/main.go:591-599 | In any reachable state a push is refused if and only if the queue is full at that moment. |
| `Conservation.RoomLostBeforePush` | cmd/node/main.go:583-599 | A run from the start in which a submission sees room and its push is refused. |
| `Conservation.StatusMovesForward` | cmd/node/main.go:343-383 | A status changes only from pending to running to the recorded outcome, by the task's one holder. |
| `Conservation.StatusNeverGoesBack` | cmd/node/main.go:482-523 | Over any run no status goes back and a final status is final. |
| `NodeCounts.ConcurrentTasksAreInFlight` | cmd/node/main.go:358-380 | The concurrency counter is the number of tasks between increment and decrement, and at most the worker pool's size. |
| `NodeCounts.TokensWithinTheMinute` | internal/models/node.go:103-128 | The token counter stays between 0 and the tokens added since the last reset, wherever resets land. |
| `NodeCounts.TokensExactUnlessResetInFlight` | internal/models/node.go:103-128 | The token counter is the in-flight sum all through a run if and only if every reset finds no tokens in flight. |
| `NodeCounts.ResetInFlightLeavesTokens` | internal/models/node.go:117-119 | A reachable state with all work done in which the counter shows the difference of two tasks, one counted before and one after a reset. |
| `NodeCounts.OutcomesAreRecordedTwice` | cmd/node/main.go:368-377 | In every reachable state the error counts sum to twice the failed tasks plus the half-recorded ones; the same for successes. |
| `NodeCounts.ErrorRateIsExact` | cmd/node/main.go:714-730 | With no worker between its two recordings the error rate is failed tasks over ended tasks, or 0. |
| `Progress.WorkIsOneStep` | cmd/node/main.go:318-383 | Every step of a worker takes exactly one from the work that is left. |
| `Progress.WorkIsBounded` | cmd/node/main.go:318-383 | However the workers are scheduled, their steps are bounded by the work left, and they can go on until exactly that is done. |
| `Progress.WorkersFinishEverything` | cmd/node/main.go:318-383 | Progress: when no worker can do anything more, in whatever order they worked, the queue is empty and every accepted task is finished. |
| `Progress.WorkToTheEnd` | cmd/node/main.go:318-341 | From any sound state some schedule does all the work. |
| `Progress.MayStartExactly` | cmd/node/main.go:318-383 | In any reachable state, a task may still be started on some way on if and only if it is pending, not refused, there are workers and, if not pushed yet, the queue has capacity. |
| `Handover.OfferedTasksArePlaced` | internal/node/task_tracker.go:197-220 | A task handed out is never a completed one, and is overdue if pending or running; it waits unstarted, or a worker has it, or it failed after one start. |
| `Handover.StartTimeExactly` | cmd/node/main.go:343-355 | In every reachable state the record of a started task has the time of its one start. |
| `Handover.OfferedExactly` | internal/node/task_tracker.go:73-220 | In every reachable state a task is handed out if and only if no cleanup found it a day old and it failed, or runs since more than five minutes, or is pending since more than ten. |
| `Handover.FailedTasksAreOffered` | internal/node/task_tracker.go:83-84 | Over every run, a task whose failure a worker concluded is handed out at every later time until a cleanup finds it a day old. |
| `Handover.DoneForGood` | cmd/node/main.go:318-383 | A task refused or finished is never started here again. |
| `Handover.RefusedTasksAreOffered` | internal/node/task_tracker.go:97-114 | A refused task is handed out once it is ten minutes old, unless a cleanup found it a day old. |
| `Handover.OfferedWorkedOnExactly` | internal/node/task_tracker.go:73-114 | In any reachable state, a task handed out is with a worker here or may still be started here if and only if it is running, or failed and not let go, or pending and able to start. |
| `Handover.WaitingTaskOfferedAndRun` | internal/node/task_tracker.go:106-111 | A run from the start in which a task waits ten minutes, is handed out, and is run here. |

## Left out

- Values in the queue: a queued task is a value and IDs are numbers; a change through another pointer to a queued task, and the payload beyond its length, are not modelled.
- Backing storage: the queue's array is allocated once at capacity; how Go grows the slice is not modelled.
- `Close`, cancellation of waiting consumers, and pushes after `Close`.
- Counting after unlock: `PopWithTimeout` updates its counters after it releases the lock; the model counts in the same step. The error counters of timeouts and cancellation are left out.
- Getters, `Peek`, statistics, distributions, last-operation times and free-form metrics maps: nothing is proved about them.
- Rounding of `float64`: exact reals instead.
- Limits that are not positive: configuration validation (`internal/config/config.go:154-174`) refuses them; division by zero in loads and scores is not modelled.
- Reports beyond the limits: `LeastLoadedComplete`, `WeightedComplete` and `WeightedRandomIsSuitable` take active tasks and queue lengths within the node's limits; `LeastLoadedExactly` does not.
- Tokens of at least one for least-loaded routing: the gateway never sends fewer than 100 (`cmd/gateway/main.go:293-298`).
- Locks of the router: `RouteTask` would block itself on its own lock (`internal/balancer/load_balancer.go:127` and 202); each call is one atomic step.
- Randomness: `Intn(n)` is an arbitrary number modulo n, `Float64` an arbitrary real in [0, 1).
- Status and capacity updates of the router: assignments into maps that touch no breaker.
- Third-party gossip (`internal/node/gossip.go:739-770`): it overwrites contact and status unconditionally, so detector safety and timing exclude it.
- Peer latencies: given numbers, which the configured selector reads. How they are measured and averaged over the last ten measurements (`internal/node/gossip.go:213-240`), also after a contact, is not modelled.
- The least-loaded and lowest-latency peer selectors: not used under the configured strategy.
- Duration of a pop call: `PopWithTimeout` starts a new timer after every wake, so a call can outlast its timeout; its steps are modelled, their timing is not.
- `markPeerDead` and `MarkTaskForRedistribution`: never called.
- Fetching a failed node's tasks and retrying sends: redistribution starts from a given list, and a send is one outcome.
- Interference during redistribution: peers' loads change only by the redistribution itself.
- GetTasksForRedistribution: reads the failed and the orphaned tasks at one moment; the source takes its lock twice, so a task may move in between.
- Data races on the node's count maps: each recording is one atomic step.
- Average processing time, results, and shutdown of a node.
- HTTP handlers, JSON, the model client, configuration loading, logging, tickers and signals: steps or parameters.
