/**
 * The requests that have been sent, or are being sent, but have not yet
 * received a response, kept per node, together with the running total.
 *
 * Each node's deque is a sequence whose index 0 is the head: `add` pushes at
 * the head, normal completion takes from the tail, so the tail holds the
 * oldest request and the head the one sent last.
 */
module InFlight {
  import opened NodeQueues

  /** The fields of an in-flight request that the bookkeeping reads. */
  datatype InFlightRequest = InFlightRequest(
    destination: NodeId,
    correlationId: int,
    sendTimeMs: int,
    requestTimeoutMs: int,
    sendCompleted: bool)   // whether the transport has finished writing the request

  /**
   * A request has timed out when more than its timeout has passed since it was
   * sent, elapsed time before sending counting as zero: that is, when `now` is
   * past its deadline, or its timeout is negative.
   */
  function TimedOut(request: InFlightRequest, now: int): (b: bool)
    ensures b <==> now > request.sendTimeMs + request.requestTimeoutMs || request.requestTimeoutMs < 0
  {
    var timeSinceSend := if now - request.sendTimeMs < 0 then 0 else now - request.sendTimeMs;
    timeSinceSend > request.requestTimeoutMs
  }

  ghost predicate HasTimedOut(deque: seq<InFlightRequest>, now: int)
  {
    exists i :: 0 <= i < |deque| && TimedOut(deque[i], now)
  }

  /** The deque read from its tail to its head: oldest request first. */
  function Descending(deque: seq<InFlightRequest>): (r: seq<InFlightRequest>)
    ensures |r| == |deque|
    ensures forall i :: 0 <= i < |deque| ==> r[i] == deque[|deque| - 1 - i]
  {
    if deque == [] then [] else [deque[|deque| - 1]] + Descending(deque[..|deque| - 1])
  }

  /** Reading the deque backwards neither loses nor duplicates a request. */
  lemma {:induction false} DescendingSameRequests(deque: seq<InFlightRequest>)
    ensures multiset(Descending(deque)) == multiset(deque)
  {
    if deque != [] {
      var init := deque[..|deque| - 1];
      DescendingSameRequests(init);
      assert deque == init + [deque[|deque| - 1]];
    }
  }

  class InFlightRequests {
    const maxInFlightRequestsPerConnection: int
    /** node -> deque, head (index 0) = most recently added */
    var requests: map<NodeId, seq<InFlightRequest>>
    /** the running total over all nodes */
    var inFlightRequestCount: int

    /** The running total always equals the sum of the deque sizes. */
    ghost predicate Valid()
      reads this
    {
      inFlightRequestCount == Total(requests)
    }

    constructor (maxInFlightRequestsPerConnection: int)
      ensures Valid()
      ensures this.maxInFlightRequestsPerConnection == maxInFlightRequestsPerConnection
      ensures requests == map[] && inFlightRequestCount == 0
    {
      this.maxInFlightRequestsPerConnection := maxInFlightRequestsPerConnection;
      requests := map[];
      inFlightRequestCount := 0;
    }

    /** Adds `request` at the head of its destination's deque, creating the deque if needed. */
    method Add(request: InFlightRequest)
      requires Valid()
      modifies this
      ensures Valid()
      ensures requests == old(requests)[request.destination := [request] + QueueOf(old(requests), request.destination)]
      ensures inFlightRequestCount == old(inFlightRequestCount) + 1
      ensures LastSent(request.destination) == request
      ensures Count(request.destination) == old(Count(request.destination)) + 1
      ensures forall n :: n != request.destination ==> QueueOf(requests, n) == QueueOf(old(requests), n)
    {
      var destination := request.destination;
      var reqs := QueueOf(requests, destination);
      TotalUpdate(requests, destination, [request] + reqs);
      requests := requests[destination := [request] + reqs];
      inFlightRequestCount := inFlightRequestCount + 1;
    }

    /** The deque of `node`, or nothing (the source throws IllegalStateException) when it is absent or empty. */
    function RequestQueue(node: NodeId): (r: Option<seq<InFlightRequest>>)
      reads this
      ensures r.Some? <==> node in requests && requests[node] != []
      ensures r.Some? ==> r.value == requests[node] && |r.value| > 0
    {
      if node !in requests || requests[node] == [] then None else Some(requests[node])
    }

    /** Removes and returns the oldest request of `node`: the one at the tail. */
    method CompleteNext(node: NodeId) returns (inFlightRequest: InFlightRequest)
      requires Valid()
      requires RequestQueue(node).Some?
      modifies this
      ensures Valid()
      ensures var q := old(requests)[node];
        inFlightRequest == q[|q| - 1] && requests == old(requests)[node := q[..|q| - 1]]
      ensures Count(node) == old(Count(node)) - 1
      ensures inFlightRequestCount == old(inFlightRequestCount) - 1
    {
      var reqs := requests[node];
      inFlightRequest := reqs[|reqs| - 1];
      TotalUpdate(requests, node, reqs[..|reqs| - 1]);
      requests := requests[node := reqs[..|reqs| - 1]];
      inFlightRequestCount := inFlightRequestCount - 1;
    }

    /** The request most recently sent to `node`, left in place. */
    function LastSent(node: NodeId): (r: InFlightRequest)
      reads this
      requires RequestQueue(node).Some?
      ensures r == requests[node][0]
      ensures r in requests[node]
    {
      RequestQueue(node).value[0]
    }

    /** Removes and returns the request most recently sent to `node`: the one at the head. */
    method CompleteLastSent(node: NodeId) returns (inFlightRequest: InFlightRequest)
      requires Valid()
      requires RequestQueue(node).Some?
      modifies this
      ensures Valid()
      ensures inFlightRequest == old(LastSent(node))
      ensures requests == old(requests)[node := old(requests)[node][1..]]
      ensures inFlightRequestCount == old(inFlightRequestCount) - 1
    {
      var reqs := requests[node];
      inFlightRequest := reqs[0];
      TotalUpdate(requests, node, reqs[1..]);
      requests := requests[node := reqs[1..]];
      inFlightRequestCount := inFlightRequestCount - 1;
    }

    /**
     * Whether another request may be sent to `node`: it has no deque, an empty
     * one, or the request at the head has been fully written and the deque is
     * below the per-connection cap.
     */
    function CanSendMore(node: NodeId): (b: bool)
      reads this
      ensures node !in requests || requests[node] == [] ==> b
      ensures b && node in requests && requests[node] != [] ==>
        requests[node][0].sendCompleted && |requests[node]| < maxInFlightRequestsPerConnection
      ensures (node in requests && requests[node] != [] && requests[node][0].sendCompleted
        && |requests[node]| < maxInFlightRequestsPerConnection) ==> b
    {
      var queue := QueueOf(requests, node);
      queue == [] || (queue[0].sendCompleted && |queue| < maxInFlightRequestsPerConnection)
    }

    /** The number of requests in flight to `node`; never more than the running total. */
    function Count(node: NodeId): (n: nat)
      reads this
      requires Valid()
      ensures n <= inFlightRequestCount
      ensures node !in requests ==> n == 0
    {
      QueueWithinTotal(requests, node);
      |QueueOf(requests, node)|
    }

    /** True when no request is in flight to `node`. */
    function IsEmptyFor(node: NodeId): (b: bool)
      reads this
      requires Valid()
      ensures b <==> Count(node) == 0
    {
      node !in requests || requests[node] == []
    }

    /** The running total, which is the number of in-flight requests over all nodes. */
    method TotalCount() returns (n: int)
      requires Valid()
      ensures n == Total(requests)
      ensures forall node :: node in requests ==> |requests[node]| <= n
    {
      forall node | node in requests
        ensures |requests[node]| <= inFlightRequestCount
      {
        QueueWithinTotal(requests, node);
      }
      n := inFlightRequestCount;
    }

    /** Scans the deques: true exactly when every one is empty, that is, when the running total is zero. */
    method IsEmpty() returns (b: bool)
      requires Valid()
      ensures b <==> forall node :: node in requests ==> requests[node] == []
      ensures b <==> inFlightRequestCount == 0
    {
      TotalZeroIff(requests);
      var remaining := requests.Keys;
      while remaining != {}
        invariant remaining <= requests.Keys
        invariant forall node :: node in requests && node !in remaining ==> requests[node] == []
      {
        var node :| node in remaining;
        if requests[node] != [] {
          return false;
        }
        remaining := remaining - {node};
      }
      return true;
    }

    /**
     * Removes every request of `node` and returns them oldest first. An unknown
     * node yields nothing and changes nothing.
     */
    method ClearAll(node: NodeId) returns (cleared: seq<InFlightRequest>)
      requires Valid()
      modifies this
      ensures Valid()
      ensures node !in old(requests) ==>
        cleared == [] && requests == old(requests) && inFlightRequestCount == old(inFlightRequestCount)
      ensures node in old(requests) ==>
        && requests == old(requests) - {node}
        && cleared == Descending(old(requests)[node])
        && inFlightRequestCount == old(inFlightRequestCount) - |old(requests)[node]|
    {
      if node !in requests {
        cleared := [];
      } else {
        var clearedRequests := requests[node];
        TotalDrop(requests, node);
        requests := requests - {node};
        inFlightRequestCount := inFlightRequestCount - |clearedRequests|;
        cleared := Descending(clearedRequests);
      }
    }

    /** Whether some request of `deque` has timed out at `now`. */
    static method HasExpiredRequest(now: int, deque: seq<InFlightRequest>) returns (b: bool)
      ensures b <==> exists i :: 0 <= i < |deque| && TimedOut(deque[i], now)
    {
      for i := 0 to |deque|
        invariant forall j :: 0 <= j < i ==> !TimedOut(deque[j], now)
      {
        if TimedOut(deque[i], now) {
          return true;
        }
      }
      return false;
    }

    /** The nodes, each listed once, that hold at least one timed-out request. */
    method NodesWithTimedOutRequests(now: int) returns (nodeIds: seq<NodeId>)
      ensures forall node :: node in nodeIds <==> node in requests && HasTimedOut(requests[node], now)
      ensures Distinct(nodeIds)
    {
      nodeIds := [];
      var remaining := requests.Keys;
      while remaining != {}
        invariant remaining <= requests.Keys
        invariant forall node :: node in nodeIds <==>
          node in requests && node !in remaining && HasTimedOut(requests[node], now)
        invariant Distinct(nodeIds)
      {
        var nodeId :| nodeId in remaining;
        var expired := HasExpiredRequest(now, requests[nodeId]);
        if expired {
          nodeIds := nodeIds + [nodeId];
        }
        remaining := remaining - {nodeId};
      }
    }
  }

  /**
   * Adding a request after `CanSendMore` said yes keeps the node within the
   * per-connection cap (when the cap allows at least one request).
   */
  lemma AddWithinCap(f: InFlightRequests, request: InFlightRequest)
    requires f.Valid() && f.maxInFlightRequestsPerConnection >= 1
    requires f.CanSendMore(request.destination)
    ensures |[request] + QueueOf(f.requests, request.destination)| <= f.maxInFlightRequestsPerConnection
  {
  }

  /** Two requests added to an idle node complete in the order they were added. */
  method CompletionOrder(f: InFlightRequests, first: InFlightRequest, second: InFlightRequest)
    returns (completed1: InFlightRequest, completed2: InFlightRequest)
    requires f.Valid() && first.destination == second.destination
    requires f.IsEmptyFor(first.destination)
    modifies f
    ensures f.Valid()
    ensures completed1 == first && completed2 == second
    ensures f.IsEmptyFor(first.destination)
    ensures f.inFlightRequestCount == old(f.inFlightRequestCount)
  {
    f.Add(first);
    f.Add(second);
    completed1 := f.CompleteNext(first.destination);
    completed2 := f.CompleteNext(first.destination);
  }
}
