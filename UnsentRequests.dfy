/**
 * Requests accepted by the consumer network client but not yet handed to the
 * transport, kept per node in first-in first-out order (index 0 is the
 * oldest request of a node).
 */
module Unsent {
  import opened NodeQueues

  /** The fields of a client request that the bookkeeping reads. */
  datatype ClientRequest = ClientRequest(
    destination: NodeId,
    correlationId: int,
    createdTimeMs: int,
    requestTimeoutMs: int)

  /**
   * A request has expired when more than its timeout has passed since it was
   * created, elapsed time before creation counting as zero: that is, when `now`
   * is past its deadline, or its timeout is negative.
   */
  function Expired(request: ClientRequest, now: int): (b: bool)
    ensures b <==> now > request.createdTimeMs + request.requestTimeoutMs || request.requestTimeoutMs < 0
  {
    var elapsedMs := if now - request.createdTimeMs < 0 then 0 else now - request.createdTimeMs;
    elapsedMs > request.requestTimeoutMs
  }

  /** The length of the longest prefix of `q` whose requests have all expired at `now`. */
  function ExpiredPrefixLength(q: seq<ClientRequest>, now: int): (k: nat)
    ensures k <= |q|
    ensures forall i :: 0 <= i < k ==> Expired(q[i], now)
    ensures k < |q| ==> !Expired(q[k], now)
  {
    if q == [] || !Expired(q[0], now) then 0 else 1 + ExpiredPrefixLength(q[1..], now)
  }

  /**
   * For every node, the requests an expiry sweep at `now` takes from it: the
   * longest prefix of its queue whose requests have all expired.
   */
  function ExpiredPrefixes(m: map<NodeId, seq<ClientRequest>>, now: int): (p: map<NodeId, seq<ClientRequest>>)
    ensures p.Keys == m.Keys
  {
    map n | n in m :: m[n][..ExpiredPrefixLength(m[n], now)]
  }

  /**
   * What an expiry sweep at `now` leaves of every node's queue. A node whose
   * queue becomes empty keeps its key.
   */
  function AfterExpiry(m: map<NodeId, seq<ClientRequest>>, now: int): (r: map<NodeId, seq<ClientRequest>>)
    ensures r.Keys == m.Keys
  {
    map n | n in m :: m[n][ExpiredPrefixLength(m[n], now)..]
  }

  /** A sweep splits every queue into the requests it takes and the requests it leaves, in order. */
  lemma SweepSplitsQueue(m: map<NodeId, seq<ClientRequest>>, now: int, n: NodeId)
    requires n in m
    ensures m[n] == ExpiredPrefixes(m, now)[n] + AfterExpiry(m, now)[n]
    ensures forall r :: r in ExpiredPrefixes(m, now)[n] ==> Expired(r, now)
    ensures AfterExpiry(m, now)[n] != [] ==> !Expired(AfterExpiry(m, now)[n][0], now)
  {
    assert m[n] == m[n][..ExpiredPrefixLength(m[n], now)] + m[n][ExpiredPrefixLength(m[n], now)..];
  }

  /** A second sweep at the same time finds nothing more to expire. */
  lemma {:induction false} SweepIdempotent(q: seq<ClientRequest>, now: int)
    ensures ExpiredPrefixLength(q[ExpiredPrefixLength(q, now)..], now) == 0
  {
    var k := ExpiredPrefixLength(q, now);
    if k < |q| {
      assert q[k..][0] == q[k];
    }
  }

  /** Over all nodes, a second sweep at the same time takes nothing and leaves every queue as it is. */
  lemma {:induction false} SweepAgainTakesNothing(m: map<NodeId, seq<ClientRequest>>, now: int, order: seq<NodeId>)
    requires forall i :: 0 <= i < |order| ==> order[i] in m
    ensures AfterExpiry(AfterExpiry(m, now), now) == AfterExpiry(m, now)
    ensures Concat(order, ExpiredPrefixes(AfterExpiry(m, now), now)) == []
  {
    var once := AfterExpiry(m, now);
    forall n | n in once
      ensures ExpiredPrefixLength(once[n], now) == 0
    {
      SweepIdempotent(m[n], now);
    }
    if order != [] {
      SweepAgainTakesNothing(m, now, order[..|order| - 1]);
    }
  }

  /** Sweeping a map without `k` is sweeping the map and then dropping `k`. */
  lemma SweepWithout(m: map<NodeId, seq<ClientRequest>>, now: int, k: NodeId)
    ensures ExpiredPrefixes(m, now) - {k} == ExpiredPrefixes(m - {k}, now)
    ensures AfterExpiry(m, now) - {k} == AfterExpiry(m - {k}, now)
  {
  }

  /** Over all nodes, the requests a sweep takes and the requests it leaves add up to the requests queued before. */
  lemma {:induction false} SweepTotals(m: map<NodeId, seq<ClientRequest>>, now: int)
    ensures Total(ExpiredPrefixes(m, now)) + Total(AfterExpiry(m, now)) == Total(m)
    decreases |m|
  {
    if m == map[] {
      assert ExpiredPrefixes(m, now) == map[] && AfterExpiry(m, now) == map[];
    } else {
      var k :| k in m;
      var rest := m - {k};
      assert rest.Keys == m.Keys - {k};
      SweepTotals(rest, now);
      SweepWithout(m, now, k);
      SweepSplitsQueue(m, now, k);
      TotalRemove(m, k);
      TotalRemove(ExpiredPrefixes(m, now), k);
      TotalRemove(AfterExpiry(m, now), k);
    }
  }

  /** A sweep loses no request: what it returns and what it leaves add up to what was queued. */
  lemma SweepKeepsEveryRequest(m: map<NodeId, seq<ClientRequest>>, now: int, order: seq<NodeId>)
    requires Distinct(order) && forall n :: n in order <==> n in m
    ensures |Concat(order, ExpiredPrefixes(m, now))| + Total(AfterExpiry(m, now)) == Total(m)
  {
    var taken := ExpiredPrefixes(m, now);
    ConcatTotal(order, taken);
    assert Restrict(taken, set i | 0 <= i < |order| :: order[i]) == taken;
    SweepTotals(m, now);
  }

  /**
   * A sweep stops at the first request that has not expired: an expired request
   * queued behind it stays in the queue.
   */
  lemma ExpiredBehindLiveIsKept(q: seq<ClientRequest>, now: int, live: nat, later: nat)
    requires live < later < |q|
    requires !Expired(q[live], now) && Expired(q[later], now)
    ensures q[later] in q[ExpiredPrefixLength(q, now)..]
  {
    var k := ExpiredPrefixLength(q, now);
    assert k <= live;
    assert q[k..][later - k] == q[later];
  }

  /** What a sweep has left of the queues once it has visited every node of `queues` but those in `remaining`. */
  ghost predicate SweepLeft(queues: map<NodeId, seq<ClientRequest>>, now: int, left: map<NodeId, seq<ClientRequest>>,
                            remaining: set<NodeId>)
  {
    && remaining <= left.Keys == queues.Keys
    && (forall n :: n in remaining ==> left[n] == queues[n])
    && (forall n :: n in queues && n !in remaining ==> left[n] == AfterExpiry(queues, now)[n])
  }

  /** What a sweep has taken once it has visited, in `order`, every node of `queues` but those in `remaining`. */
  ghost predicate SweepTaken(queues: map<NodeId, seq<ClientRequest>>, now: int, remaining: set<NodeId>,
                             expired: seq<ClientRequest>, order: seq<NodeId>)
  {
    && Distinct(order) && (forall n :: n in order <==> n in queues && n !in remaining)
    && expired == Concat(order, ExpiredPrefixes(queues, now))
  }

  /** Where a sweep stands once it has visited every node of `queues` but those in `remaining`. */
  ghost predicate SweepState(queues: map<NodeId, seq<ClientRequest>>, now: int, left: map<NodeId, seq<ClientRequest>>,
                             remaining: set<NodeId>, expired: seq<ClientRequest>, order: seq<NodeId>)
  {
    SweepLeft(queues, now, left, remaining) && SweepTaken(queues, now, remaining, expired, order)
  }

  lemma SweepLeftStep(queues: map<NodeId, seq<ClientRequest>>, now: int, left: map<NodeId, seq<ClientRequest>>,
                      remaining: set<NodeId>, node: NodeId)
    requires SweepLeft(queues, now, left, remaining) && node in remaining
    ensures left[node] == queues[node]
    ensures SweepLeft(queues, now, left[node := queues[node][ExpiredPrefixLength(queues[node], now)..]], remaining - {node})
  {
  }

  lemma SweepTakenStep(queues: map<NodeId, seq<ClientRequest>>, now: int, remaining: set<NodeId>,
                       expired: seq<ClientRequest>, order: seq<NodeId>, node: NodeId)
    requires SweepTaken(queues, now, remaining, expired, order) && node in remaining && node in queues
    ensures SweepTaken(queues, now, remaining - {node},
                       expired + queues[node][..ExpiredPrefixLength(queues[node], now)], order + [node])
  {
    var prefixes := ExpiredPrefixes(queues, now);
    assert (order + [node])[..|order|] == order;
    assert node !in order;
    DistinctAppend(order, node);
    assert Concat(order + [node], prefixes) == Concat(order, prefixes) + prefixes[node];
  }

  lemma SweepStep(queues: map<NodeId, seq<ClientRequest>>, now: int, left: map<NodeId, seq<ClientRequest>>,
                  remaining: set<NodeId>, expired: seq<ClientRequest>, order: seq<NodeId>, node: NodeId)
    requires SweepState(queues, now, left, remaining, expired, order) && node in remaining
    ensures var k := ExpiredPrefixLength(left[node], now);
      SweepState(queues, now, left[node := left[node][k..]], remaining - {node},
                 expired + left[node][..k], order + [node])
  {
    SweepLeftStep(queues, now, left, remaining, node);
    SweepTakenStep(queues, now, remaining, expired, order, node);
  }

  lemma SweepDone(queues: map<NodeId, seq<ClientRequest>>, now: int, left: map<NodeId, seq<ClientRequest>>,
                  expired: seq<ClientRequest>, order: seq<NodeId>)
    requires SweepState(queues, now, left, {}, expired, order)
    ensures left == AfterExpiry(queues, now)
  {
  }

  class UnsentRequests {
    /** node -> queue, index 0 = oldest */
    var unsent: map<NodeId, seq<ClientRequest>>

    constructor ()
      ensures unsent == map[]
    {
      unsent := map[];
    }

    /** Appends `request` to the end of the queue of `node`, creating the queue if needed. */
    method Put(node: NodeId, request: ClientRequest)
      modifies this
      ensures unsent == old(unsent)[node := QueueOf(old(unsent), node) + [request]]
      ensures RequestCount(node) == old(RequestCount(node)) + 1
      ensures forall n :: n != node ==> QueueOf(unsent, n) == QueueOf(old(unsent), n)
      ensures Total(unsent) == old(Total(unsent)) + 1
    {
      var requests := QueueOf(unsent, node);
      TotalUpdate(unsent, node, requests + [request]);
      unsent := unsent[node := requests + [request]];
    }

    /** The number of requests waiting for `node`; zero for an unknown node, never more than the total. */
    function RequestCount(node: NodeId): (n: nat)
      reads this
      ensures node !in unsent ==> n == 0
      ensures n <= Total(unsent)
    {
      QueueWithinTotal(unsent, node);
      if node in unsent then |unsent[node]| else 0
    }

    /** Sums the queue sizes: the number of requests waiting over all nodes. */
    method TotalRequestCount() returns (total: nat)
      ensures total == Total(unsent)
    {
      total := 0;
      var remaining := unsent.Keys;
      assert Restrict(unsent, remaining) == unsent;
      while remaining != {}
        invariant remaining <= unsent.Keys
        invariant total + Total(Restrict(unsent, remaining)) == Total(unsent)
      {
        var node :| node in remaining;
        RestrictStep(unsent, remaining, node);
        total := total + |unsent[node]|;
        remaining := remaining - {node};
      }
      assert Restrict(unsent, remaining) == map[];
    }

    /** True when some request waits for `node`. */
    function HasRequests(node: NodeId): (b: bool)
      reads this
      ensures b <==> RequestCount(node) > 0
    {
      node in unsent && unsent[node] != []
    }

    /** True when some request waits for some node, that is, when the total is positive. */
    method HasAnyRequests() returns (b: bool)
      ensures b <==> exists node :: node in unsent && unsent[node] != []
      ensures b <==> Total(unsent) > 0
    {
      TotalZeroIff(unsent);
      var remaining := unsent.Keys;
      while remaining != {}
        invariant remaining <= unsent.Keys
        invariant forall node :: node in unsent && node !in remaining ==> unsent[node] == []
      {
        var node :| node in remaining;
        if unsent[node] != [] {
          return true;
        }
        remaining := remaining - {node};
      }
      return false;
    }

    /** Scans `requests` from the front up to the first one not expired at `now`; returns how many it passed. */
    static method ExpiredCount(requests: seq<ClientRequest>, now: int) returns (i: nat)
      ensures i == ExpiredPrefixLength(requests, now)
    {
      i := 0;
      while i < |requests| && Expired(requests[i], now)
        invariant i <= ExpiredPrefixLength(requests, now)
      {
        i := i + 1;
      }
    }

    /**
     * Takes from every queue of `queues` the longest prefix of requests expired
     * at `now`; returns what is left and the requests taken, node after node in
     * the ghost visit `order`.
     */
    static method SweepExpired(queues: map<NodeId, seq<ClientRequest>>, now: int)
      returns (left: map<NodeId, seq<ClientRequest>>, expiredRequests: seq<ClientRequest>, ghost order: seq<NodeId>)
      ensures left == AfterExpiry(queues, now)
      ensures Distinct(order) && forall n :: n in order <==> n in queues
      ensures expiredRequests == Concat(order, ExpiredPrefixes(queues, now))
    {
      left := queues;
      expiredRequests := [];
      order := [];
      var remaining := left.Keys;
      while remaining != {}
        invariant SweepState(queues, now, left, remaining, expiredRequests, order)
      {
        var node :| node in remaining;
        var requests := left[node];
        var i := ExpiredCount(requests, now);
        SweepStep(queues, now, left, remaining, expiredRequests, order, node);
        expiredRequests := expiredRequests + requests[..i];
        left := left[node := requests[i..]];
        order := order + [node];
        remaining := remaining - {node};
      }
      SweepDone(queues, now, left, expiredRequests, order);
    }

    /**
     * Removes from every queue the longest prefix of requests expired at `now`
     * and returns them, node after node in the ghost visit `order`.
     */
    method RemoveExpiredRequests(now: int) returns (expiredRequests: seq<ClientRequest>, ghost order: seq<NodeId>)
      modifies this
      ensures unsent == AfterExpiry(old(unsent), now)
      ensures Distinct(order) && forall n :: n in order <==> n in old(unsent)
      ensures expiredRequests == Concat(order, ExpiredPrefixes(old(unsent), now))
      ensures |expiredRequests| + Total(unsent) == old(Total(unsent))
    {
      var left;
      left, expiredRequests, order := SweepExpired(unsent, now);
      SweepKeepsEveryRequest(unsent, now, order);
      unsent := left;
    }

    /** Drops the empty queues, so that no request is lost and every count is unchanged. */
    method Clean()
      modifies this
      ensures unsent == NonEmpty(old(unsent))
      ensures forall n :: RequestCount(n) == old(RequestCount(n))
      ensures Total(unsent) == old(Total(unsent))
    {
      var remaining := unsent.Keys;
      while remaining != {}
        invariant remaining <= old(unsent).Keys
        invariant unsent == map n | n in old(unsent) && (n in remaining || old(unsent)[n] != []) :: old(unsent)[n]
      {
        var node :| node in remaining;
        if unsent[node] == [] {
          unsent := unsent - {node};
        }
        remaining := remaining - {node};
      }
      NonEmptyTotal(old(unsent));
    }

    /** Removes the whole queue of `node` and returns it in order; nothing for an unknown node. */
    method Remove(node: NodeId) returns (requests: seq<ClientRequest>)
      modifies this
      ensures requests == QueueOf(old(unsent), node)
      ensures unsent == old(unsent) - {node}
      ensures RequestCount(node) == 0
      ensures Total(unsent) == old(Total(unsent)) - |requests|
    {
      requests := QueueOf(unsent, node);
      TotalDrop(unsent, node);
      unsent := unsent - {node};
    }
  }
}
