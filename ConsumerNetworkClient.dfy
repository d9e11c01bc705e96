/**
 * The sequential logic of the consumer network client: handing unsent
 * requests to the transport, failing expired or disconnected ones through
 * their completion handlers, resolving a completed handler, bounding the time
 * a poll may block, and the cross-thread wakeup flag.
 *
 * The transport is not modelled; what the client asks of it (is the node
 * ready, what poll delay does it suggest, has the connection failed, is there
 * an authentication error) comes in as function parameters.
 */
module ConsumerClient {
  import opened NodeQueues
  import opened Unsent

  /** Hard upper bound on the time one poll may block. */
  const MAX_POLL_TIMEOUT_MS: int := 5000
  /** Java's Long.MAX_VALUE: the poll delay when nothing waits to be sent. */
  const LONG_MAX_VALUE: int := 0x7FFF_FFFF_FFFF_FFFF

  // ---------------------------------------------------------------------------
  // Completion handlers
  // ---------------------------------------------------------------------------

  /** The exceptions a request future can be raised with. */
  datatype RuntimeError =
    | TimeoutError(requestTimeoutMs: int)
    | DisconnectError
    | AuthenticationError(message: string)
    | UnsupportedVersionError(message: string)
    | OtherError(message: string)

  /** The fields of a client response that decide how its future completes. */
  datatype ClientResponse = ClientResponse(
    destination: NodeId,
    createdTimeMs: int,
    receivedTimeMs: int,
    disconnected: bool,
    authenticationException: Option<string>,
    versionMismatch: Option<string>)

  /** The state of a request's completion handler: the exception or the response it was given. */
  datatype CompletionHandler = CompletionHandler(
    request: ClientRequest,
    e: Option<RuntimeError>,
    response: Option<ClientResponse>)

  /** How a request future ends. */
  datatype FutureResult = Succeeded(response: ClientResponse) | Raised(error: RuntimeError)

  /** A fresh handler: neither an exception nor a response yet. */
  function NewHandler(request: ClientRequest): (h: CompletionHandler)
  {
    CompletionHandler(request, None, None)
  }

  /**
   * Resolves the future of a handler that was given an exception or a
   * response: exactly one outcome, chosen in the order stored exception,
   * authentication failure, disconnect, version mismatch, success.
   */
  function FireCompletion(handler: CompletionHandler): (r: FutureResult)
    requires handler.e.Some? || handler.response.Some?
    ensures handler.e.Some? ==> r == Raised(handler.e.value)
    ensures handler.e.None? ==>
      var response := handler.response.value;
      && (r.Succeeded? <==>
            response.authenticationException.None? && !response.disconnected && response.versionMismatch.None?)
      && (r.Succeeded? ==> r.response == response)
      && (response.authenticationException.Some? ==>
            r == Raised(AuthenticationError(response.authenticationException.value)))
      && (response.authenticationException.None? && response.disconnected ==> r == Raised(DisconnectError))
      && (response.authenticationException.None? && !response.disconnected && response.versionMismatch.Some? ==>
            r == Raised(UnsupportedVersionError(response.versionMismatch.value)))
  {
    if handler.e.Some? then
      Raised(handler.e.value)
    else if handler.response.value.authenticationException.Some? then
      Raised(AuthenticationError(handler.response.value.authenticationException.value))
    else if handler.response.value.disconnected then
      Raised(DisconnectError)
    else if handler.response.value.versionMismatch.Some? then
      Raised(UnsupportedVersionError(handler.response.value.versionMismatch.value))
    else
      Succeeded(handler.response.value)
  }

  /** The handler of a request that expired before it could be sent. */
  function TimeoutHandler(request: ClientRequest): (h: CompletionHandler)
    ensures h.request == request && h.e.Some?
    ensures FireCompletion(h) == Raised(TimeoutError(request.requestTimeoutMs))
  {
    NewHandler(request).(e := Some(TimeoutError(request.requestTimeoutMs)))
  }

  /** The response synthesized for an unsent request whose connection failed: disconnected, received at `now`. */
  function DisconnectResponse(request: ClientRequest, now: int, authenticationException: Option<string>)
    : (response: ClientResponse)
  {
    ClientResponse(request.destination, request.createdTimeMs, now, true, authenticationException, None)
  }

  /** The handler of an unsent request whose connection failed, completed with a synthesized disconnect response. */
  function DisconnectHandler(request: ClientRequest, now: int, authenticationException: Option<string>): (h: CompletionHandler)
    ensures h.request == request && h.e.None? && h.response.Some?
    ensures FireCompletion(h) ==
      if authenticationException.Some? then Raised(AuthenticationError(authenticationException.value))
      else Raised(DisconnectError)
  {
    NewHandler(request).(response := Some(DisconnectResponse(request, now, authenticationException)))
  }

  function TimeoutHandlers(requests: seq<ClientRequest>): (hs: seq<CompletionHandler>)
    ensures |hs| == |requests|
    ensures forall i :: 0 <= i < |requests| ==> hs[i] == TimeoutHandler(requests[i])
  {
    if requests == [] then []
    else TimeoutHandlers(requests[..|requests| - 1]) + [TimeoutHandler(requests[|requests| - 1])]
  }

  function DisconnectHandlers(requests: seq<ClientRequest>, now: int, authenticationException: Option<string>)
    : (hs: seq<CompletionHandler>)
    ensures |hs| == |requests|
    ensures forall i :: 0 <= i < |requests| ==> hs[i] == DisconnectHandler(requests[i], now, authenticationException)
  {
    if requests == [] then []
    else DisconnectHandlers(requests[..|requests| - 1], now, authenticationException)
         + [DisconnectHandler(requests[|requests| - 1], now, authenticationException)]
  }

  /** The handlers of `requests`, each failed with `e`. */
  function FailedHandlers(requests: seq<ClientRequest>, e: RuntimeError): (hs: seq<CompletionHandler>)
    ensures |hs| == |requests|
    ensures forall i :: 0 <= i < |requests| ==>
      hs[i].request == requests[i] && hs[i].e == Some(e) && FireCompletion(hs[i]) == Raised(e)
  {
    if requests == [] then []
    else FailedHandlers(requests[..|requests| - 1], e) + [NewHandler(requests[|requests| - 1]).(e := Some(e))]
  }

  /** For every node whose connection failed, the handlers of its unsent requests. */
  function DisconnectedHandlerMap(queues: map<NodeId, seq<ClientRequest>>, now: int,
                                  connectionFailed: NodeId -> bool, authenticationException: NodeId -> Option<string>)
    : (m: map<NodeId, seq<CompletionHandler>>)
    ensures m.Keys == set n | n in queues && connectionFailed(n)
  {
    map n | n in queues && connectionFailed(n) :: DisconnectHandlers(queues[n], now, authenticationException(n))
  }

  /** A handler in a concatenation of queues comes from one of the concatenated queues. */
  lemma {:induction false} InConcat<R>(order: seq<NodeId>, m: map<NodeId, seq<R>>, x: R)
    requires forall i :: 0 <= i < |order| ==> order[i] in m
    requires x in Concat(order, m)
    ensures exists i :: 0 <= i < |order| && x in m[order[i]]
  {
    var last := order[|order| - 1];
    if x !in m[last] {
      InConcat(order[..|order| - 1], m, x);
      var i :| 0 <= i < |order| - 1 && x in m[order[..|order| - 1][i]];
      assert order[..|order| - 1][i] == order[i];
    }
  }

  /** Every handler produced by disconnect detection fails its future with the node's authentication error or a disconnect. */
  lemma DisconnectedHandlersFail(queues: map<NodeId, seq<ClientRequest>>, now: int,
                                 connectionFailed: NodeId -> bool, authenticationException: NodeId -> Option<string>,
                                 order: seq<NodeId>, h: CompletionHandler)
    requires forall i :: 0 <= i < |order| ==> order[i] in queues && connectionFailed(order[i])
    requires h in Concat(order, DisconnectedHandlerMap(queues, now, connectionFailed, authenticationException))
    ensures h.e.None? && h.response.Some?
    ensures FireCompletion(h).Raised?
    ensures FireCompletion(h).error == DisconnectError || FireCompletion(h).error.AuthenticationError?
  {
    var m := DisconnectedHandlerMap(queues, now, connectionFailed, authenticationException);
    InConcat(order, m, h);
    var i :| 0 <= i < |order| && h in m[order[i]];
    var hs := m[order[i]];
    var j :| 0 <= j < |hs| && hs[j] == h;
    assert h == DisconnectHandler(queues[order[i]][j], now, authenticationException(order[i]));
  }

  /** The queues of the nodes whose connection has not failed. */
  function Connected(queues: map<NodeId, seq<ClientRequest>>, connectionFailed: NodeId -> bool)
    : (m: map<NodeId, seq<ClientRequest>>)
    ensures m.Keys == set n | n in queues && !connectionFailed(n)
    ensures forall n :: n in m ==> m[n] == queues[n]
  {
    map n | n in queues && !connectionFailed(n) :: queues[n]
  }

  /** Where disconnect detection stands once it has visited every node of `before` but those in `remaining`. */
  ghost predicate DisconnectState(before: map<NodeId, seq<ClientRequest>>, now: int, connectionFailed: NodeId -> bool,
                                  authenticationException: NodeId -> Option<string>,
                                  left: map<NodeId, seq<ClientRequest>>, remaining: set<NodeId>,
                                  order: seq<NodeId>, handled: seq<CompletionHandler>)
  {
    && remaining <= before.Keys
    && left == (map n | n in before && (n in remaining || !connectionFailed(n)) :: before[n])
    && Distinct(order) && (forall n :: n in order <==> n in before && n !in remaining && connectionFailed(n))
    && handled == Concat(order, DisconnectedHandlerMap(before, now, connectionFailed, authenticationException))
  }

  lemma DisconnectStep(before: map<NodeId, seq<ClientRequest>>, now: int, connectionFailed: NodeId -> bool,
                       authenticationException: NodeId -> Option<string>,
                       left: map<NodeId, seq<ClientRequest>>, remaining: set<NodeId>,
                       order: seq<NodeId>, handled: seq<CompletionHandler>, node: NodeId)
    requires DisconnectState(before, now, connectionFailed, authenticationException, left, remaining, order, handled)
    requires node in remaining
    ensures node in left && left[node] == before[node]
    ensures connectionFailed(node) ==>
      DisconnectState(before, now, connectionFailed, authenticationException, left - {node}, remaining - {node},
                      order + [node], handled + DisconnectHandlers(left[node], now, authenticationException(node)))
    ensures !connectionFailed(node) ==>
      DisconnectState(before, now, connectionFailed, authenticationException, left, remaining - {node}, order, handled)
  {
    if connectionFailed(node) {
      var handlers := DisconnectedHandlerMap(before, now, connectionFailed, authenticationException);
      assert (order + [node])[..|order|] == order;
      assert node !in order;
      DistinctAppend(order, node);
      assert Concat(order + [node], handlers) == Concat(order, handlers) + handlers[node];
    }
  }

  lemma DisconnectDone(before: map<NodeId, seq<ClientRequest>>, now: int, connectionFailed: NodeId -> bool,
                       authenticationException: NodeId -> Option<string>,
                       left: map<NodeId, seq<ClientRequest>>, order: seq<NodeId>, handled: seq<CompletionHandler>)
    requires DisconnectState(before, now, connectionFailed, authenticationException, left, {}, order, handled)
    ensures left == Connected(before, connectionFailed)
  {
  }

  // ---------------------------------------------------------------------------
  // Sending: which requests leave their queue
  // ---------------------------------------------------------------------------

  /**
   * The requests of `q` (the queue of `node`) whose visit got the answer `want`
   * from the `ready` oracle; `ready(node, i)` is the answer given when the i-th
   * request of the queue was visited.
   */
  function Pick(q: seq<ClientRequest>, node: NodeId, ready: (NodeId, nat) -> bool, want: bool): (picked: seq<ClientRequest>)
  {
    if q == [] then []
    else Pick(q[..|q| - 1], node, ready, want) + (if ready(node, |q| - 1) == want then [q[|q| - 1]] else [])
  }

  /** The visit positions below `len` whose `ready` answer was `want`, in increasing order. */
  function VisitIndices(len: nat, node: NodeId, ready: (NodeId, nat) -> bool, want: bool): (idx: seq<nat>)
    ensures forall j :: 0 <= j < |idx| ==> idx[j] < len && ready(node, idx[j]) == want
    ensures forall j, k :: 0 <= j < k < |idx| ==> idx[j] < idx[k]
    ensures forall i :: 0 <= i < len && ready(node, i) == want ==> i in idx
  {
    if len == 0 then []
    else
      var earlier := VisitIndices(len - 1, node, ready, want);
      if ready(node, len - 1) == want then
        assert forall i :: 0 <= i < len - 1 && ready(node, i) == want ==> i in earlier;
        earlier + [len - 1]
      else earlier
  }

  /**
   * A request is picked exactly when its visit got the answer `want`, and the
   * picked requests keep their queue order.
   */
  lemma {:induction false} PickFollowsVisits(q: seq<ClientRequest>, node: NodeId, ready: (NodeId, nat) -> bool, want: bool)
    ensures var idx := VisitIndices(|q|, node, ready, want);
      && |Pick(q, node, ready, want)| == |idx|
      && forall j :: 0 <= j < |idx| ==> Pick(q, node, ready, want)[j] == q[idx[j]]
  {
    if q != [] {
      var init := q[..|q| - 1];
      PickFollowsVisits(init, node, ready, want);
      assert |init| == |q| - 1;
    }
  }

  /** Sending splits a queue into sent and kept requests: none is lost, none is duplicated. */
  lemma {:induction false} PickPartition(q: seq<ClientRequest>, node: NodeId, ready: (NodeId, nat) -> bool)
    ensures multiset(Pick(q, node, ready, true)) + multiset(Pick(q, node, ready, false)) == multiset(q)
  {
    if q != [] {
      var init, x := q[..|q| - 1], q[|q| - 1];
      PickPartition(init, node, ready);
      assert q == init + [x];
      if ready(node, |q| - 1) {
        assert Pick(q, node, ready, true) == Pick(init, node, ready, true) + [x];
        assert Pick(q, node, ready, false) == Pick(init, node, ready, false);
      } else {
        assert Pick(q, node, ready, true) == Pick(init, node, ready, true);
        assert Pick(q, node, ready, false) == Pick(init, node, ready, false) + [x];
      }
    }
  }

  /** Visits the queue of `node` in order and splits it by the `ready` answer for each visit. */
  method SendReady(node: NodeId, q: seq<ClientRequest>, ready: (NodeId, nat) -> bool)
    returns (kept: seq<ClientRequest>, sent: seq<ClientRequest>)
    ensures kept == Pick(q, node, ready, false)
    ensures sent == Pick(q, node, ready, true)
    ensures multiset(sent) + multiset(kept) == multiset(q)
  {
    kept, sent := [], [];
    var i := 0;
    while i < |q|
      invariant i <= |q|
      invariant kept == Pick(q[..i], node, ready, false)
      invariant sent == Pick(q[..i], node, ready, true)
    {
      assert q[..i + 1][..i] == q[..i];
      if ready(node, i) {
        sent := sent + [q[i]];
      } else {
        kept := kept + [q[i]];
      }
      i := i + 1;
    }
    assert q[..i] == q;
    PickPartition(q, node, ready);
  }

  /** What sending leaves queued for every node. */
  function KeptQueues(queues: map<NodeId, seq<ClientRequest>>, ready: (NodeId, nat) -> bool)
    : (m: map<NodeId, seq<ClientRequest>>)
    ensures m.Keys == queues.Keys
  {
    map n | n in queues :: Pick(queues[n], n, ready, false)
  }

  /** What sending hands to the transport for every node. */
  function SentQueues(queues: map<NodeId, seq<ClientRequest>>, ready: (NodeId, nat) -> bool)
    : (m: map<NodeId, seq<ClientRequest>>)
    ensures m.Keys == queues.Keys
  {
    map n | n in queues :: Pick(queues[n], n, ready, true)
  }

  /** Sending over a map without `k` is sending over the map and then dropping `k`. */
  lemma SendWithout(queues: map<NodeId, seq<ClientRequest>>, ready: (NodeId, nat) -> bool, k: NodeId)
    ensures KeptQueues(queues, ready) - {k} == KeptQueues(queues - {k}, ready)
    ensures SentQueues(queues, ready) - {k} == SentQueues(queues - {k}, ready)
  {
  }

  /** Sending one queue keeps as many requests as it does not send. */
  lemma PickLengths(q: seq<ClientRequest>, node: NodeId, ready: (NodeId, nat) -> bool)
    ensures |Pick(q, node, ready, false)| + |Pick(q, node, ready, true)| == |q|
  {
    PickPartition(q, node, ready);
    assert |multiset(Pick(q, node, ready, true)) + multiset(Pick(q, node, ready, false))| == |multiset(q)|;
  }

  /** Over all nodes, every request is either sent or kept, exactly once. */
  lemma {:induction false} SendKeepsEveryRequest(queues: map<NodeId, seq<ClientRequest>>, ready: (NodeId, nat) -> bool)
    ensures Total(KeptQueues(queues, ready)) + Total(SentQueues(queues, ready)) == Total(queues)
    decreases |queues|
  {
    if queues == map[] {
      assert KeptQueues(queues, ready) == map[] && SentQueues(queues, ready) == map[];
    } else {
      var k :| k in queues;
      var rest := queues - {k};
      assert rest.Keys == queues.Keys - {k};
      SendKeepsEveryRequest(rest, ready);
      SendWithout(queues, ready, k);
      PickLengths(queues[k], k, ready);
      TotalRemove(queues, k);
      TotalRemove(KeptQueues(queues, ready), k);
      TotalRemove(SentQueues(queues, ready), k);
    }
  }

  /**
   * `d` is the least poll delay over the nodes of `visited` that have queued
   * requests, or Long.MAX_VALUE when there is no such node.
   */
  ghost predicate IsLeastDelay(queues: map<NodeId, seq<ClientRequest>>, pollDelay: NodeId -> int,
                               visited: set<NodeId>, d: int)
  {
    && d <= LONG_MAX_VALUE
    && (forall n :: n in visited && n in queues && queues[n] != [] ==> d <= pollDelay(n))
    && (d == LONG_MAX_VALUE || exists n :: n in visited && n in queues && queues[n] != [] && d == pollDelay(n))
  }

  /** The least delay is determined: two values that are both least delays are equal. */
  lemma LeastDelayUnique(queues: map<NodeId, seq<ClientRequest>>, pollDelay: NodeId -> int,
                         visited: set<NodeId>, d1: int, d2: int)
    requires IsLeastDelay(queues, pollDelay, visited, d1) && IsLeastDelay(queues, pollDelay, visited, d2)
    ensures d1 == d2
  {
    if d1 != LONG_MAX_VALUE {
      var n1 :| n1 in visited && n1 in queues && queues[n1] != [] && d1 == pollDelay(n1);
      assert d2 <= d1;
    }
    if d2 != LONG_MAX_VALUE {
      var n2 :| n2 in visited && n2 in queues && queues[n2] != [] && d2 == pollDelay(n2);
      assert d1 <= d2;
    }
  }

  /** With no queued request anywhere, the poll delay stays at Long.MAX_VALUE. */
  lemma NothingQueuedNoDelay(queues: map<NodeId, seq<ClientRequest>>, pollDelay: NodeId -> int, d: int)
    requires IsLeastDelay(queues, pollDelay, queues.Keys, d)
    requires forall n :: n in queues ==> queues[n] == []
    ensures d == LONG_MAX_VALUE
  {
  }

  /** Visiting one more node lowers the least delay to that node's delay when it has requests. */
  lemma LeastDelayStep(queues: map<NodeId, seq<ClientRequest>>, pollDelay: NodeId -> int,
                       visited: set<NodeId>, d: int, node: NodeId)
    requires IsLeastDelay(queues, pollDelay, visited, d) && node in queues
    ensures IsLeastDelay(queues, pollDelay, visited + {node}, if queues[node] != [] then Min(d, pollDelay(node)) else d)
  {
    var d' := if queues[node] != [] then Min(d, pollDelay(node)) else d;
    if d' != LONG_MAX_VALUE {
      if queues[node] != [] && d' == pollDelay(node) {
        assert node in visited + {node} && queues[node] != [];
      } else {
        var n :| n in visited && n in queues && queues[n] != [] && d == pollDelay(n);
        assert n in visited + {node};
      }
    }
  }

  /** Where sending stands once it has visited every node of `queues` but those in `remaining`. */
  ghost predicate SendState(queues: map<NodeId, seq<ClientRequest>>, ready: (NodeId, nat) -> bool,
                            pollDelay: NodeId -> int, left: map<NodeId, seq<ClientRequest>>,
                            sent: map<NodeId, seq<ClientRequest>>, remaining: set<NodeId>, d: int)
  {
    && remaining <= left.Keys == queues.Keys
    && sent.Keys == queues.Keys - remaining
    && (forall n :: n in remaining ==> left[n] == queues[n])
    && (forall n :: n in queues && n !in remaining ==>
          left[n] == Pick(queues[n], n, ready, false) && sent[n] == Pick(queues[n], n, ready, true))
    && IsLeastDelay(queues, pollDelay, queues.Keys - remaining, d)
  }

  lemma SendStep(queues: map<NodeId, seq<ClientRequest>>, ready: (NodeId, nat) -> bool,
                 pollDelay: NodeId -> int, left: map<NodeId, seq<ClientRequest>>,
                 sent: map<NodeId, seq<ClientRequest>>, remaining: set<NodeId>, d: int, node: NodeId,
                 kept: seq<ClientRequest>, out: seq<ClientRequest>)
    requires SendState(queues, ready, pollDelay, left, sent, remaining, d) && node in remaining
    requires kept == Pick(queues[node], node, ready, false) && out == Pick(queues[node], node, ready, true)
    ensures left[node] == queues[node]
    ensures SendState(queues, ready, pollDelay, left[node := kept], sent[node := out], remaining - {node},
                      if queues[node] != [] then Min(d, pollDelay(node)) else d)
  {
    var visited := queues.Keys - remaining;
    assert queues.Keys - (remaining - {node}) == visited + {node};
    LeastDelayStep(queues, pollDelay, visited, d, node);
  }

  lemma SendDone(queues: map<NodeId, seq<ClientRequest>>, ready: (NodeId, nat) -> bool,
                 pollDelay: NodeId -> int, left: map<NodeId, seq<ClientRequest>>,
                 sent: map<NodeId, seq<ClientRequest>>, d: int)
    requires SendState(queues, ready, pollDelay, left, sent, {}, d)
    ensures left == KeptQueues(queues, ready) && sent == SentQueues(queues, ready)
    ensures IsLeastDelay(queues, pollDelay, queues.Keys, d)
  {
    assert queues.Keys - {} == queues.Keys;
  }

  /**
   * Visits every node of `queues`, sends what the `ready` answers allow and
   * keeps the rest; returns the kept and the sent queues and the least poll
   * delay over the nodes that had requests.
   */
  method SendAll(queues: map<NodeId, seq<ClientRequest>>, ready: (NodeId, nat) -> bool, pollDelay: NodeId -> int)
    returns (left: map<NodeId, seq<ClientRequest>>, sent: map<NodeId, seq<ClientRequest>>, pollDelayMs: int)
    ensures left == KeptQueues(queues, ready)
    ensures sent == SentQueues(queues, ready)
    ensures IsLeastDelay(queues, pollDelay, queues.Keys, pollDelayMs)
  {
    left, sent := queues, map[];
    pollDelayMs := LONG_MAX_VALUE;
    var remaining := queues.Keys;
    while remaining != {}
      invariant SendState(queues, ready, pollDelay, left, sent, remaining, pollDelayMs)
    {
      var node :| node in remaining;
      var requests := left[node];
      var kept, out := SendReady(node, requests, ready);
      SendStep(queues, ready, pollDelay, left, sent, remaining, pollDelayMs, node, kept, out);
      if requests != [] {
        pollDelayMs := Min(pollDelayMs, pollDelay(node));
      }
      left := left[node := kept];
      sent := sent[node := out];
      remaining := remaining - {node};
    }
    SendDone(queues, ready, pollDelay, left, sent, pollDelayMs);
  }

  // ---------------------------------------------------------------------------
  // Poll timeout
  // ---------------------------------------------------------------------------

  /** The configured maximum poll timeout, clamped to the hard bound. */
  function MaxPollTimeout(maxPollTimeoutMs: int): (r: int)
    ensures r <= MAX_POLL_TIMEOUT_MS && r <= maxPollTimeoutMs
    ensures r == maxPollTimeoutMs || r == MAX_POLL_TIMEOUT_MS
  {
    Min(maxPollTimeoutMs, MAX_POLL_TIMEOUT_MS)
  }

  /**
   * The timeout handed to the transport's poll. It blocks only when no
   * completion is pending and the caller still waits (`shouldBlock`, true when
   * there is no poll condition); then it is the least of the caller's timeout,
   * the poll delay, the maximum poll timeout and, when nothing is in flight,
   * the retry backoff. Otherwise the poll does not block.
   */
  function PollTimeout(timeout: int, pollDelayMs: int, pendingCompletionEmpty: bool, shouldBlock: bool,
                       inFlightRequestCount: int, retryBackoffMs: int, maxPollTimeoutMs: int): (r: int)
    ensures !(pendingCompletionEmpty && shouldBlock) ==> r == 0
    ensures pendingCompletionEmpty && shouldBlock ==>
      && r <= timeout && r <= pollDelayMs && r <= maxPollTimeoutMs
      && (inFlightRequestCount == 0 ==> r <= retryBackoffMs)
      && (r == timeout || r == pollDelayMs || r == maxPollTimeoutMs
          || (inFlightRequestCount == 0 && r == retryBackoffMs))
  {
    var t := Min(timeout, pollDelayMs);
    if pendingCompletionEmpty && shouldBlock then
      var t' := if inFlightRequestCount == 0 then Min(t, retryBackoffMs) else t;
      Min(maxPollTimeoutMs, t')
    else
      0
  }

  /** With a clamped maximum, no poll blocks longer than the hard bound. */
  lemma PollNeverExceedsBound(timeout: int, pollDelayMs: int, pendingCompletionEmpty: bool, shouldBlock: bool,
                              inFlightRequestCount: int, retryBackoffMs: int, configuredMaxPollTimeoutMs: int)
    ensures PollTimeout(timeout, pollDelayMs, pendingCompletionEmpty, shouldBlock, inFlightRequestCount,
                        retryBackoffMs, MaxPollTimeout(configuredMaxPollTimeoutMs)) <= MAX_POLL_TIMEOUT_MS
  {
  }

  // ---------------------------------------------------------------------------
  // The client
  // ---------------------------------------------------------------------------

  class ConsumerNetworkClient {
    const unsent: UnsentRequests
    const retryBackoffMs: int
    const maxPollTimeoutMs: int
    const requestTimeoutMs: int
    var wakeupDisabled: bool
    var wakeup: bool
    /** completed handlers waiting to be fired outside the lock */
    var pendingCompletion: seq<CompletionHandler>

    constructor (retryBackoffMs: int, requestTimeoutMs: int, maxPollTimeoutMs: int)
      ensures fresh(unsent) && unsent.unsent == map[]
      ensures this.retryBackoffMs == retryBackoffMs && this.requestTimeoutMs == requestTimeoutMs
      ensures this.maxPollTimeoutMs == MaxPollTimeout(maxPollTimeoutMs)
      ensures this.maxPollTimeoutMs <= MAX_POLL_TIMEOUT_MS
      ensures !wakeup && !wakeupDisabled && pendingCompletion == []
    {
      unsent := new UnsentRequests();
      this.retryBackoffMs := retryBackoffMs;
      this.maxPollTimeoutMs := MaxPollTimeout(maxPollTimeoutMs);
      this.requestTimeoutMs := requestTimeoutMs;
      wakeupDisabled := false;
      wakeup := false;
      pendingCompletion := [];
    }

    /** Records the exception on the handler and queues it for firing. */
    method OnFailure(handler: CompletionHandler, e: RuntimeError)
      modifies this`pendingCompletion
      ensures pendingCompletion == old(pendingCompletion) + [handler.(e := Some(e))]
    {
      pendingCompletion := pendingCompletion + [handler.(e := Some(e))];
    }

    /** Records the response on the handler and queues it for firing. */
    method OnComplete(handler: CompletionHandler, response: ClientResponse)
      modifies this`pendingCompletion
      ensures pendingCompletion == old(pendingCompletion) + [handler.(response := Some(response))]
    {
      pendingCompletion := pendingCompletion + [handler.(response := Some(response))];
    }

    /**
     * Hands every unsent request whose visit finds its node ready to the
     * transport and keeps the others queued, in order. Returns the least poll
     * delay over the nodes that had requests, or Long.MAX_VALUE if none had.
     */
    method TrySend(ready: (NodeId, nat) -> bool, pollDelay: NodeId -> int)
      returns (pollDelayMs: int, sent: map<NodeId, seq<ClientRequest>>)
      modifies unsent
      ensures unsent.unsent == KeptQueues(old(unsent.unsent), ready)
      ensures sent == SentQueues(old(unsent.unsent), ready)
      ensures IsLeastDelay(old(unsent.unsent), pollDelay, old(unsent.unsent).Keys, pollDelayMs)
      ensures Total(unsent.unsent) + Total(sent) == old(Total(unsent.unsent))
    {
      var left;
      left, sent, pollDelayMs := SendAll(unsent.unsent, ready, pollDelay);
      SendKeepsEveryRequest(unsent.unsent, ready);
      unsent.unsent := left;
    }

    /** Fails each of `requests`, in order, with a timeout error. */
    method FailTimedOut(requests: seq<ClientRequest>)
      modifies this`pendingCompletion
      ensures pendingCompletion == old(pendingCompletion) + TimeoutHandlers(requests)
    {
      ghost var pending0 := pendingCompletion;
      for i := 0 to |requests|
        invariant pendingCompletion == pending0 + TimeoutHandlers(requests[..i])
      {
        assert requests[..i + 1][..i] == requests[..i];
        var request := requests[i];
        OnFailure(NewHandler(request), TimeoutError(request.requestTimeoutMs));
      }
      assert requests[..|requests|] == requests;
    }

    /** Removes every unsent request that expired at `now` and fails it with a timeout error. */
    method FailExpiredRequests(now: int) returns (ghost expiredRequests: seq<ClientRequest>, ghost order: seq<NodeId>)
      modifies unsent, this`pendingCompletion
      ensures unsent.unsent == AfterExpiry(old(unsent.unsent), now)
      ensures Distinct(order) && forall n :: n in order <==> n in old(unsent.unsent)
      ensures expiredRequests == Concat(order, ExpiredPrefixes(old(unsent.unsent), now))
      ensures pendingCompletion == old(pendingCompletion) + TimeoutHandlers(expiredRequests)
    {
      var expired;
      expired, order := unsent.RemoveExpiredRequests(now);
      FailTimedOut(expired);
      expiredRequests := expired;
    }

    /** Fails each of `requests`, in order, with `e`. */
    method FailAll(requests: seq<ClientRequest>, e: RuntimeError)
      modifies this`pendingCompletion
      ensures pendingCompletion == old(pendingCompletion) + FailedHandlers(requests, e)
    {
      ghost var pending0 := pendingCompletion;
      for i := 0 to |requests|
        invariant pendingCompletion == pending0 + FailedHandlers(requests[..i], e)
      {
        assert requests[..i + 1][..i] == requests[..i];
        OnFailure(NewHandler(requests[i]), e);
      }
      assert requests[..|requests|] == requests;
    }

    /** Removes the unsent requests of `node` and fails each with `e`. */
    method FailUnsentRequests(node: NodeId, e: RuntimeError)
      modifies unsent, this`pendingCompletion
      ensures unsent.unsent == old(unsent.unsent) - {node}
      ensures pendingCompletion == old(pendingCompletion) + FailedHandlers(QueueOf(old(unsent.unsent), node), e)
    {
      var requests := unsent.Remove(node);
      FailAll(requests, e);
    }

    /** Completes each of `requests`, in order, with a disconnect response received at `now`. */
    method CompleteDisconnected(requests: seq<ClientRequest>, now: int, authenticationException: Option<string>)
      modifies this`pendingCompletion
      ensures pendingCompletion == old(pendingCompletion) + DisconnectHandlers(requests, now, authenticationException)
    {
      ghost var pending0 := pendingCompletion;
      for i := 0 to |requests|
        invariant pendingCompletion == pending0 + DisconnectHandlers(requests[..i], now, authenticationException)
      {
        assert requests[..i + 1][..i] == requests[..i];
        var request := requests[i];
        OnComplete(NewHandler(request), DisconnectResponse(request, now, authenticationException));
      }
      assert requests[..|requests|] == requests;
    }

    /** Removes the queue of `node` and completes each of its requests with a disconnect response. */
    method DisconnectNode(node: NodeId, now: int, authenticationException: Option<string>)
      modifies unsent, this`pendingCompletion
      ensures unsent.unsent == old(unsent.unsent) - {node}
      ensures pendingCompletion ==
        old(pendingCompletion) + DisconnectHandlers(QueueOf(old(unsent.unsent), node), now, authenticationException)
    {
      var requests := unsent.Remove(node);
      CompleteDisconnected(requests, now, authenticationException);
    }

    /**
     * For every node with unsent requests whose connection has failed, removes
     * its queue and completes each of its requests with a disconnect response.
     */
    method CheckDisconnects(now: int, connectionFailed: NodeId -> bool, authenticationException: NodeId -> Option<string>)
      returns (ghost order: seq<NodeId>)
      modifies unsent, this`pendingCompletion
      ensures unsent.unsent == Connected(old(unsent.unsent), connectionFailed)
      ensures Distinct(order) && forall n :: n in order <==> n in old(unsent.unsent) && connectionFailed(n)
      ensures pendingCompletion == old(pendingCompletion)
        + Concat(order, DisconnectedHandlerMap(old(unsent.unsent), now, connectionFailed, authenticationException))
    {
      ghost var before := unsent.unsent;
      ghost var pending0 := pendingCompletion;
      ghost var handled := [];
      order := [];
      var nodes := unsent.unsent.Keys;
      while nodes != {}
        invariant DisconnectState(before, now, connectionFailed, authenticationException, unsent.unsent, nodes, order, handled)
        invariant pendingCompletion == pending0 + handled
      {
        var node :| node in nodes;
        DisconnectStep(before, now, connectionFailed, authenticationException, unsent.unsent, nodes, order, handled, node);
        if connectionFailed(node) {
          handled := handled + DisconnectHandlers(unsent.unsent[node], now, authenticationException(node));
          DisconnectNode(node, now, authenticationException(node));
          order := order + [node];
        }
        nodes := nodes - {node};
      }
      DisconnectDone(before, now, connectionFailed, authenticationException, unsent.unsent, order, handled);
    }

    /** Asks the polling thread to give up at its next check. */
    method Wakeup()
      modifies this`wakeup
      ensures wakeup
    {
      wakeup := true;
    }

    /** Turns wakeups off for good. */
    method DisableWakeups()
      modifies this`wakeupDisabled
      ensures wakeupDisabled
    {
      wakeupDisabled := true;
    }

    /**
     * Raises the wakeup (returns true) when wakeups are enabled and one was
     * requested, clearing the request so that it is raised only once.
     */
    method MaybeTriggerWakeup() returns (raised: bool)
      modifies this`wakeup
      ensures raised <==> !wakeupDisabled && old(wakeup)
      ensures wakeup == (old(wakeup) && !raised)
    {
      raised := false;
      if !wakeupDisabled && wakeup {
        wakeup := false;
        raised := true;
      }
    }
  }

  /** One wakeup request is raised at most once: a second check right after finds nothing. */
  method WakeupRaisedOnce(client: ConsumerNetworkClient) returns (first: bool, second: bool)
    modifies client
    ensures first <==> !client.wakeupDisabled && old(client.wakeup)
    ensures !second
  {
    first := client.MaybeTriggerWakeup();
    second := client.MaybeTriggerWakeup();
  }
}
