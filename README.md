# Consumer network client request bookkeeping, in Dafny

This project models the request bookkeeping of a Kafka client's networking
layer and proves properties about it:

- **In-flight requests** (`InFlightRequests.dfy`, module `InFlight`): the
  per-node deques of requests that were sent but not yet answered. The class
  keeps a running total and supports adding, completing the oldest or newest
  request, the per-connection cap, clearing a node, and finding nodes with
  timed-out requests. Its invariant `Valid()` says that the running total
  equals the sum of the deque sizes. Each mutator keeps it.
- **Unsent requests** (`UnsentRequests.dfy`, module `Unsent`): the per-node
  FIFO queues of the consumer network client. It supports put, counts, the
  expiry sweep that takes the expired prefix of every queue, clean and
  remove.
- **Consumer network client** (`ConsumerNetworkClient.dfy`, module
  `ConsumerClient`) covers:
  - sending: `trySend`, which splits every queue into sent and kept requests
    and computes the least poll delay;
  - failing expired requests, failing a node's requests, and disconnect
    detection;
  - the completion handler and how its future is resolved (`fireCompletion`);
  - the poll-timeout clamp and the wakeup flag.
- **Shared queue arithmetic** (`NodeQueues.dfy`, module `NodeQueues`): the
  total number of requests over a map of per-node queues, and the
  concatenation of queues along a visit order.

The transport is a parameter, not a model:
- `ready(node, i)` is its answer when the i-th queued request of `node` is
  visited.
- `pollDelay(node)` is the delay it suggests.
- `connectionFailed(node)` and `authenticationException(node)` are its
  connection state.

The source differs from its own comments in one place, and the model follows
the code: the comment on `canSendMore` speaks of the earliest request, but the
code looks at the head of the deque (`peekFirst`), which is the request added
most recently.

Deque orientation: in `InFlight`, index 0 of a node's deque is its head. That
is the request sent last; the last index holds the oldest request. `clearAll`
returns the cleared requests through `descendingIterator`, which goes from
the tail to the head, so they come out oldest first, as `ClearAll` and
`Descending` state. In `Unsent`, index 0 of a queue is the oldest request.

## Model

| member | source | states |
|---|---|---|
| InFlight.InFlightRequests.constructor | learn2/src/main/java/org/apache/kafka/clients/InFlightRequests.java:51-53 | starts with no deques, a zero total and the given cap, and satisfies the invariant |
| InFlight.InFlightRequests.Add | learn2/src/main/java/org/apache/kafka/clients/InFlightRequests.java:59-72 | puts the request at the head of its destination's deque, creating the deque if needed; the total and that node's count grow by one; the request becomes `LastSent`; other nodes are untouched; the invariant is kept |
| InFlight.InFlightRequests.RequestQueue | learn2/src/main/java/org/apache/kafka/clients/InFlightRequests.java:79-84 | yields the node's deque exactly when it exists and is non-empty, and nothing (the source's IllegalStateException) otherwise |
| InFlight.InFlightRequests.CompleteNext | learn2/src/main/java/org/apache/kafka/clients/InFlightRequests.java:91-97 | removes and returns the tail of the deque, which is the oldest request; node count and total drop by one; the invariant is kept |
| InFlight.InFlightRequests.LastSent | learn2/src/main/java/org/apache/kafka/clients/InFlightRequests.java:104-106 | returns the head of the deque, which is the most recently added request, and leaves it in place |
| InFlight.InFlightRequests.CompleteLastSent | learn2/src/main/java/org/apache/kafka/clients/InFlightRequests.java:114-118 | removes and returns exactly what `LastSent` returned; the rest of the deque is unchanged; the total drops by one |
| InFlight.InFlightRequests.CanSendMore | learn2/src/main/java/org/apache/kafka/clients/InFlightRequests.java:134-138 | true for a missing or empty deque; otherwise true exactly when the head request has finished sending and the deque is below the per-connection cap |
| InFlight.InFlightRequests.Count | learn2/src/main/java/org/apache/kafka/clients/InFlightRequests.java:147-150 | the node's count is zero for an unknown node and never exceeds the running total |
| InFlight.InFlightRequests.IsEmptyFor | learn2/src/main/java/org/apache/kafka/clients/InFlightRequests.java:155-158 | true exactly when the node's count is zero |
| InFlight.InFlightRequests.TotalCount | learn2/src/main/java/org/apache/kafka/clients/InFlightRequests.java:163-165 | the running total equals the sum of all deque sizes and bounds each one |
| InFlight.InFlightRequests.IsEmpty | learn2/src/main/java/org/apache/kafka/clients/InFlightRequests.java:170-176 | the scan answers true exactly when every deque is empty, which is exactly when the running total is zero |
| InFlight.InFlightRequests.ClearAll | learn2/src/main/java/org/apache/kafka/clients/InFlightRequests.java:184-198 | an unknown node gives nothing and changes nothing; otherwise the node's deque is removed, the total drops by its size and the requests come back in reverse deque order, oldest first |
| InFlight.Descending | learn2/src/main/java/org/apache/kafka/clients/InFlightRequests.java:184-198 | the descending iteration has the same length and position i holds the deque's element at position length-1-i |
| InFlight.DescendingSameRequests | learn2/src/main/java/org/apache/kafka/clients/InFlightRequests.java:184-198 | the descending iteration returns the same multiset of requests as the deque |
| InFlight.InFlightRequests.HasExpiredRequest | learn2/src/main/java/org/apache/kafka/clients/InFlightRequests.java:200-207 | true exactly when some request has spent more than its request timeout since it was sent, with negative elapsed time counted as zero |
| InFlight.TimedOut | learn2/src/main/java/org/apache/kafka/clients/InFlightRequests.java:202-203 | a request has timed out exactly when `now` is past its send time plus its timeout, or its timeout is negative (elapsed time before sending counts as zero) |
| InFlight.InFlightRequests.NodesWithTimedOutRequests | learn2/src/main/java/org/apache/kafka/clients/InFlightRequests.java:215-224 | lists each node once, and a node is listed exactly when its deque holds a timed-out request |
| InFlight.CompletionOrder | learn2/src/main/java/org/apache/kafka/clients/InFlightRequests.java:91-97 | two requests added to an idle node come back from `completeNext` in the order they were added, and the node and the total end where they started |
| InFlight.AddWithinCap | learn2/src/main/java/org/apache/kafka/clients/InFlightRequests.java:134-138 | when `canSendMore` says yes and the cap is at least one, one more request keeps the node within the cap |
| NodeQueues.TotalZeroIff | learn2/src/main/java/org/apache/kafka/clients/InFlightRequests.java:170-176 | the total over all queues is zero exactly when every queue is empty |
| NodeQueues.ConcatTotal | learn2/src/main/java/org/apache/kafka/clients/consumer/internals/ConsumerNetworkClient.java:813-838 | concatenating the queues of distinct visited nodes yields exactly as many requests as those queues hold together |
| Unsent.UnsentRequests.constructor | learn2/src/main/java/org/apache/kafka/clients/consumer/internals/ConsumerNetworkClient.java:741-743 | starts with no queues |
| Unsent.UnsentRequests.Put | learn2/src/main/java/org/apache/kafka/clients/consumer/internals/ConsumerNetworkClient.java:750-767 | appends the request to the end of the node's queue, creating it if needed; that node's count and the total grow by one; other nodes are untouched |
| Unsent.UnsentRequests.RequestCount | learn2/src/main/java/org/apache/kafka/clients/consumer/internals/ConsumerNetworkClient.java:774-777 | zero for an unknown node and never more than the total |
| Unsent.UnsentRequests.TotalRequestCount | learn2/src/main/java/org/apache/kafka/clients/consumer/internals/ConsumerNetworkClient.java:783-788 | summing the queue sizes over the map's values gives the total |
| Unsent.UnsentRequests.HasRequests | learn2/src/main/java/org/apache/kafka/clients/consumer/internals/ConsumerNetworkClient.java:790-793 | true exactly when the node's count is positive |
| Unsent.UnsentRequests.HasAnyRequests | learn2/src/main/java/org/apache/kafka/clients/consumer/internals/ConsumerNetworkClient.java:801-806 | true exactly when some queue is non-empty, which is exactly when the total is positive |
| Unsent.Expired | learn2/src/main/java/org/apache/kafka/clients/consumer/internals/ConsumerNetworkClient.java:828-830 | a request has expired exactly when `now` is past its creation time plus its timeout, or its timeout is negative (elapsed time before creation counts as zero) |
| Unsent.ExpiredPrefixes | learn2/src/main/java/org/apache/kafka/clients/consumer/internals/ConsumerNetworkClient.java:813-838 | (specification function) for every node, what the sweep takes: the expired prefix of its queue, with the same nodes as the queues; `SweepSplitsQueue` states its properties |
| Unsent.AfterExpiry | learn2/src/main/java/org/apache/kafka/clients/consumer/internals/ConsumerNetworkClient.java:813-838 | (specification function) for every node, what the sweep leaves: its queue after the expired prefix; every node keeps its key, as emptied queues stay in the map |
| Unsent.ExpiredPrefixLength | learn2/src/main/java/org/apache/kafka/clients/consumer/internals/ConsumerNetworkClient.java:826-835 | gives the length of the longest prefix of expired requests: every request before it has expired and the one at it has not |
| Unsent.UnsentRequests.ExpiredCount | learn2/src/main/java/org/apache/kafka/clients/consumer/internals/ConsumerNetworkClient.java:826-835 | the scan that stops at the first live request passes exactly the expired prefix |
| Unsent.UnsentRequests.SweepExpired | learn2/src/main/java/org/apache/kafka/clients/consumer/internals/ConsumerNetworkClient.java:813-838 | visits every node once; it leaves each queue without its expired prefix and returns the removed prefixes concatenated in visit order |
| Unsent.UnsentRequests.RemoveExpiredRequests | learn2/src/main/java/org/apache/kafka/clients/consumer/internals/ConsumerNetworkClient.java:813-838 | the unsent queues become what the sweep leaves; the returned requests are the expired prefixes, node after node, each node visited once; the returned requests plus those left equal the requests queued before |
| Unsent.SweepSplitsQueue | learn2/src/main/java/org/apache/kafka/clients/consumer/internals/ConsumerNetworkClient.java:826-835 | each queue is exactly its removed part followed by its kept part; every removed request has expired, and a non-empty kept part starts with a live request |
| Unsent.SweepIdempotent | learn2/src/main/java/org/apache/kafka/clients/consumer/internals/ConsumerNetworkClient.java:826-835 | a second sweep at the same time removes nothing more |
| Unsent.SweepAgainTakesNothing | learn2/src/main/java/org/apache/kafka/clients/consumer/internals/ConsumerNetworkClient.java:813-838 | over all nodes, a second sweep at the same time leaves every queue unchanged and returns no request |
| Unsent.SweepTotals | learn2/src/main/java/org/apache/kafka/clients/consumer/internals/ConsumerNetworkClient.java:813-838 | over all nodes, the requests the sweep takes plus those it leaves equal the requests queued before |
| Unsent.SweepKeepsEveryRequest | learn2/src/main/java/org/apache/kafka/clients/consumer/internals/ConsumerNetworkClient.java:813-838 | visiting every node once, the requests the sweep returns plus those it leaves equal the requests queued before: no request is lost or duplicated |
| Unsent.ExpiredBehindLiveIsKept | learn2/src/main/java/org/apache/kafka/clients/consumer/internals/ConsumerNetworkClient.java:830-835 | because the sweep stops at the first live request, an expired request queued behind a live one stays |
| Unsent.UnsentRequests.Clean | learn2/src/main/java/org/apache/kafka/clients/consumer/internals/ConsumerNetworkClient.java:840-851 | drops exactly the empty queues; every node's count and the total are unchanged |
| NodeQueues.NonEmpty | learn2/src/main/java/org/apache/kafka/clients/consumer/internals/ConsumerNetworkClient.java:840-851 | keeps exactly the nodes whose queue is non-empty, each with its queue unchanged |
| Unsent.UnsentRequests.Remove | learn2/src/main/java/org/apache/kafka/clients/consumer/internals/ConsumerNetworkClient.java:858-865 | takes the node's whole queue in order, or nothing for an unknown node; afterwards the node has no queue and the total dropped by what was returned |
| ConsumerClient.FireCompletion | learn2/src/main/java/org/apache/kafka/clients/consumer/internals/ConsumerNetworkClient.java:685-699 | the future either succeeds with the response or is raised. The checks are ordered: stored exception, authentication error, disconnect, version mismatch. It succeeds exactly when none applies |
| ConsumerClient.ConsumerNetworkClient.OnFailure | learn2/src/main/java/org/apache/kafka/clients/consumer/internals/ConsumerNetworkClient.java:701-704 | records the exception on the handler and appends the handler to the pending completions |
| ConsumerClient.ConsumerNetworkClient.OnComplete | learn2/src/main/java/org/apache/kafka/clients/consumer/internals/ConsumerNetworkClient.java:706-710 | records the response on the handler and appends the handler to the pending completions |
| ConsumerClient.TimeoutHandler | learn2/src/main/java/org/apache/kafka/clients/consumer/internals/ConsumerNetworkClient.java:536-544 | an expired request's future is raised with a timeout error that carries its request timeout |
| ConsumerClient.TimeoutHandlers | learn2/src/main/java/org/apache/kafka/clients/consumer/internals/ConsumerNetworkClient.java:536-544 | one timeout handler per expired request, in the same order |
| ConsumerClient.ConsumerNetworkClient.FailTimedOut | learn2/src/main/java/org/apache/kafka/clients/consumer/internals/ConsumerNetworkClient.java:538-543 | appends one timeout handler per request, in order, to the pending completions |
| ConsumerClient.ConsumerNetworkClient.FailExpiredRequests | learn2/src/main/java/org/apache/kafka/clients/consumer/internals/ConsumerNetworkClient.java:536-544 | removes the expired prefix of every unsent queue; pending completions grow by one timeout handler per removed request, in sweep order |
| ConsumerClient.FailedHandlers | learn2/src/main/java/org/apache/kafka/clients/consumer/internals/ConsumerNetworkClient.java:546-558 | one handler per request, each holding the given exception, and each future is raised with it |
| ConsumerClient.ConsumerNetworkClient.FailAll | learn2/src/main/java/org/apache/kafka/clients/consumer/internals/ConsumerNetworkClient.java:551-555 | appends one failed handler per request, in order, to the pending completions |
| ConsumerClient.ConsumerNetworkClient.FailUnsentRequests | learn2/src/main/java/org/apache/kafka/clients/consumer/internals/ConsumerNetworkClient.java:546-558 | removes the node's unsent queue and fails each of its requests, in order, with the given exception |
| ConsumerClient.DisconnectHandler | learn2/src/main/java/org/apache/kafka/clients/consumer/internals/ConsumerNetworkClient.java:500-505 | the synthesized disconnect response raises the node's authentication error if it has one, and a disconnect error otherwise |
| ConsumerClient.DisconnectHandlers | learn2/src/main/java/org/apache/kafka/clients/consumer/internals/ConsumerNetworkClient.java:500-505 | one disconnect handler per request of the node, in queue order |
| ConsumerClient.DisconnectedHandlerMap | learn2/src/main/java/org/apache/kafka/clients/consumer/internals/ConsumerNetworkClient.java:492-507 | handlers are produced for exactly the queued nodes whose connection failed |
| ConsumerClient.DisconnectedHandlersFail | learn2/src/main/java/org/apache/kafka/clients/consumer/internals/ConsumerNetworkClient.java:483-509 | every handler produced by disconnect detection carries a response and no stored exception, and its future is raised with a disconnect or an authentication error, never completed |
| ConsumerClient.ConsumerNetworkClient.CompleteDisconnected | learn2/src/main/java/org/apache/kafka/clients/consumer/internals/ConsumerNetworkClient.java:500-505 | appends one disconnect handler per request, in order, to the pending completions |
| ConsumerClient.ConsumerNetworkClient.DisconnectNode | learn2/src/main/java/org/apache/kafka/clients/consumer/internals/ConsumerNetworkClient.java:498-505 | removes the node's queue and completes each of its requests with a disconnect response |
| ConsumerClient.Connected | learn2/src/main/java/org/apache/kafka/clients/consumer/internals/ConsumerNetworkClient.java:492-507 | disconnect detection keeps exactly the queues of the nodes whose connection has not failed, unchanged |
| ConsumerClient.ConsumerNetworkClient.CheckDisconnects | learn2/src/main/java/org/apache/kafka/clients/consumer/internals/ConsumerNetworkClient.java:483-509 | only the queues of live nodes remain. Each failed node is visited once. Pending completions grow by that node's disconnect handlers, node after node |
| ConsumerClient.Pick | learn2/src/main/java/org/apache/kafka/clients/consumer/internals/ConsumerNetworkClient.java:583-593 | (specification function) the requests of a queue whose visit got a given readiness answer, in queue order |
| ConsumerClient.VisitIndices | learn2/src/main/java/org/apache/kafka/clients/consumer/internals/ConsumerNetworkClient.java:583-593 | the visit positions with a given readiness answer: strictly increasing, in range, and including every such position |
| ConsumerClient.PickFollowsVisits | learn2/src/main/java/org/apache/kafka/clients/consumer/internals/ConsumerNetworkClient.java:583-593 | a request is picked exactly when its visit got the answer, and the picked requests keep queue order |
| ConsumerClient.PickPartition | learn2/src/main/java/org/apache/kafka/clients/consumer/internals/ConsumerNetworkClient.java:583-593 | sent and kept requests together are exactly the original queue as a multiset |
| ConsumerClient.PickLengths | learn2/src/main/java/org/apache/kafka/clients/consumer/internals/ConsumerNetworkClient.java:583-593 | the numbers of kept and sent requests of one node add up to the length of its queue |
| ConsumerClient.SendReady | learn2/src/main/java/org/apache/kafka/clients/consumer/internals/ConsumerNetworkClient.java:583-593 | walking one queue sends the requests whose visit found the node ready and keeps the rest, in order, losing none |
| ConsumerClient.KeptQueues | learn2/src/main/java/org/apache/kafka/clients/consumer/internals/ConsumerNetworkClient.java:565-596 | sending keeps a queue for every node that had one |
| ConsumerClient.SentQueues | learn2/src/main/java/org/apache/kafka/clients/consumer/internals/ConsumerNetworkClient.java:565-596 | sending yields a sent sequence for every node that had a queue |
| ConsumerClient.SendKeepsEveryRequest | learn2/src/main/java/org/apache/kafka/clients/consumer/internals/ConsumerNetworkClient.java:565-596 | over all nodes, kept plus sent requests equal the requests queued before sending |
| ConsumerClient.LeastDelayStep | learn2/src/main/java/org/apache/kafka/clients/consumer/internals/ConsumerNetworkClient.java:579-581 | taking the minimum with a visited node's delay, only when it has requests, keeps the result the least delay over the visited nodes with requests |
| ConsumerClient.IsLeastDelay | learn2/src/main/java/org/apache/kafka/clients/consumer/internals/ConsumerNetworkClient.java:566-581 | (specification predicate) the delay is at most Long.MAX_VALUE and at most the delay of every visited node with requests, and it is one of those delays or Long.MAX_VALUE |
| ConsumerClient.LeastDelayUnique | learn2/src/main/java/org/apache/kafka/clients/consumer/internals/ConsumerNetworkClient.java:566-581 | the least delay is determined: two values that both satisfy `IsLeastDelay` are equal |
| ConsumerClient.NothingQueuedNoDelay | learn2/src/main/java/org/apache/kafka/clients/consumer/internals/ConsumerNetworkClient.java:566 | with nothing queued anywhere, the poll delay stays at Long.MAX_VALUE |
| ConsumerClient.SendAll | learn2/src/main/java/org/apache/kafka/clients/consumer/internals/ConsumerNetworkClient.java:565-596 | visiting every node gives the kept and sent queues and the least poll delay over the nodes that had requests |
| ConsumerClient.ConsumerNetworkClient.TrySend | learn2/src/main/java/org/apache/kafka/clients/consumer/internals/ConsumerNetworkClient.java:565-596 | the unsent queues become the kept requests. The returned delay is the least over nodes that had requests, or Long.MAX_VALUE. No request is lost: kept plus sent equals the old total |
| ConsumerClient.MaxPollTimeout | learn2/src/main/java/org/apache/kafka/clients/consumer/internals/ConsumerNetworkClient.java:120 | the configured maximum poll timeout is clamped to at most 5000 ms and never raised |
| ConsumerClient.ConsumerNetworkClient.constructor | learn2/src/main/java/org/apache/kafka/clients/consumer/internals/ConsumerNetworkClient.java:108-122 | keeps the backoff and request timeout, clamps the maximum poll timeout to 5000 ms, and starts with no unsent requests, no pending completion and no wakeup |
| ConsumerClient.PollTimeout | learn2/src/main/java/org/apache/kafka/clients/consumer/internals/ConsumerNetworkClient.java:310-325 | zero unless it may block. When it may block it is at most the timeout, the poll delay and the maximum poll timeout, and at most the retry backoff when nothing is in flight. It always equals one of those bounds |
| ConsumerClient.PollNeverExceedsBound | learn2/src/main/java/org/apache/kafka/clients/consumer/internals/ConsumerNetworkClient.java:310-325 | with the clamped maximum, no poll blocks longer than 5000 ms |
| ConsumerClient.ConsumerNetworkClient.Wakeup | learn2/src/main/java/org/apache/kafka/clients/consumer/internals/ConsumerNetworkClient.java:222-230 | sets the wakeup flag |
| ConsumerClient.ConsumerNetworkClient.DisableWakeups | learn2/src/main/java/org/apache/kafka/clients/consumer/internals/ConsumerNetworkClient.java:618-620 | sets the flag that disables wakeups |
| ConsumerClient.ConsumerNetworkClient.MaybeTriggerWakeup | learn2/src/main/java/org/apache/kafka/clients/consumer/internals/ConsumerNetworkClient.java:603-610 | raises exactly when wakeups are enabled and a wakeup was requested; raising clears the request, otherwise the flag is unchanged |
| ConsumerClient.WakeupRaisedOnce | learn2/src/main/java/org/apache/kafka/clients/consumer/internals/ConsumerNetworkClient.java:603-610 | one wakeup request is raised at most once: a second check right after does not raise |

## Left out

- Locking and concurrency are not modelled: the client lock, the `synchronized` blocks of the unsent map, the atomic flags, and the thread that calls `wakeup`. Every operation is modelled as one atomic step.
- The transport (`KafkaClient`) is not part of this model. `ready`, `pollDelayMs`, `inFlightRequestCount` (which `PollTimeout` reads), `connectionFailed` and `authenticationException` are parameters. `send`, the transport's own `poll` and `wakeup`, and `disconnect` are not modelled. The requests `TrySend` hands to the transport are returned as a map instead.
- Time is a parameter (`now`). The clock and the waiting loops that re-read it are not modelled; `poll(timeout, ...)`'s blocking loop reduces to the `PollTimeout` computation.
- The `poll` orchestration is modelled through its parts, not as one method: `TrySend`, `PollTimeout`, `CheckDisconnects`, `MaybeTriggerWakeup`, `FailExpiredRequests`, and `Clean` for the final `unsent.clean()` step (ConsumerNetworkClient.java:360).
- `handlePendingDisconnects` is modelled only through its per-node step, `FailUnsentRequests`; the queue of pending disconnects and `disconnectAsync` are not modelled.
- `firePendingCompletedRequests`, `send`, the metadata-awaiting methods and the interrupt checks are not modelled: they drain or feed queues of callbacks and transport calls that are outside this model.
- Nodes are identified by their id string. Two `Node` values with the same id share one queue in the model, whereas the source keys its unsent map by `Node` equality.
- Futures and listeners are not objects here. `FireCompletion` returns how the future ends, and a handler is a value, so "the same handler object" is not tracked.
- Exceptions that carry messages are reduced to the `RuntimeError` cases; log statements are left out.
- `requestIterator` and `nodes` of the unsent requests are the map lookup and the key set, used directly by the loops that call them.
- Per-node queues are values (`seq`) reassigned in the map. This stands in for in-place iterator removal from a `ConcurrentLinkedQueue` and an `ArrayDeque`; aliasing of a queue handed out by `remove` or `requestQueue` is not captured.
- The order in which nodes of a map are visited is unspecified in the source (hash map iteration). The model leaves it open, and the ghost `order` out-parameters record it.
- Java `int` and `long` are unbounded integers here: overflow of counts and of `now - createdTimeMs` is not modelled. `Long.MAX_VALUE` is the constant `LONG_MAX_VALUE`.
- InFlight.InFlightRequests.RequestQueue: the IllegalStateException for a missing or empty deque is an `Option`. `CompleteNext`, `LastSent` and `CompleteLastSent` require the deque to be present and non-empty instead of throwing.
- ConsumerClient.ConsumerNetworkClient.MaybeTriggerWakeup: the WakeupException is a boolean result.
- ConsumerClient.ConsumerNetworkClient.TrySend: the transport's `ready` answer is modelled per visited request (`ready(node, i)`). Its link to the in-flight bookkeeping (`canSendMore`) is not modelled, because it goes through the transport.
