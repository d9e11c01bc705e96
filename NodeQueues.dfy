/**
 * Per-node request queues: the shape shared by the in-flight and the unsent
 * request bookkeeping. A queue set is a map from node id to a sequence of
 * requests; `Total` is the number of requests over all nodes.
 */
module NodeQueues {

  /** A node is identified by its id string. */
  type NodeId = string

  datatype Option<T> = None | Some(value: T)

  /** The queue of `node`, or the empty queue when the node has none. */
  function QueueOf<R>(m: map<NodeId, seq<R>>, node: NodeId): (q: seq<R>)
  {
    if node in m then m[node] else []
  }

  /** The smaller of `a` and `b`. */
  function Min(a: int, b: int): (r: int)
    ensures r <= a && r <= b
    ensures r == a || r == b
  {
    if a <= b then a else b
  }

  /** The number of requests held over all nodes. */
  ghost function Total<R>(m: map<NodeId, seq<R>>): nat
    decreases |m|
  {
    if m == map[] then 0
    else
      var k :| k in m;
      assert (m - {k}).Keys == m.Keys - {k};
      |m[k]| + Total(m - {k})
  }

  /** `m` restricted to the keys in `keys`. */
  function Restrict<R>(m: map<NodeId, seq<R>>, keys: set<NodeId>): (r: map<NodeId, seq<R>>)
  {
    map k | k in keys && k in m :: m[k]
  }

  /** `m` without its empty queues. */
  function NonEmpty<R>(m: map<NodeId, seq<R>>): (r: map<NodeId, seq<R>>)
    ensures forall k :: k in r <==> k in m && m[k] != []
    ensures forall k :: k in r ==> r[k] == m[k]
  {
    map k | k in m && m[k] != [] :: m[k]
  }

  /** The total can be split at any key, whichever key `Total` happened to pick. */
  lemma {:induction false} TotalRemove<R>(m: map<NodeId, seq<R>>, k: NodeId)
    requires k in m
    ensures Total(m) == |m[k]| + Total(m - {k})
    decreases |m|
  {
    var j :| j in m && Total(m) == |m[j]| + Total(m - {j});
    if j != k {
      assert (m - {j}).Keys == m.Keys - {j};
      assert (m - {k}).Keys == m.Keys - {k};
      TotalRemove(m - {j}, k);
      TotalRemove(m - {k}, j);
      assert m - {j} - {k} == m - {k} - {j};
    }
  }

  /** Replacing the queue of one node changes the total by the difference in length. */
  lemma TotalUpdate<R>(m: map<NodeId, seq<R>>, k: NodeId, s: seq<R>)
    ensures Total(m[k := s]) + |QueueOf(m, k)| == Total(m) + |s|
  {
    TotalRemove(m[k := s], k);
    if k in m {
      TotalRemove(m, k);
      assert m[k := s] - {k} == m - {k};
    } else {
      assert m[k := s] - {k} == m;
    }
  }

  /** Dropping a node removes exactly its queue from the total. */
  lemma TotalDrop<R>(m: map<NodeId, seq<R>>, k: NodeId)
    ensures Total(m - {k}) + |QueueOf(m, k)| == Total(m)
  {
    if k in m {
      TotalRemove(m, k);
    } else {
      assert m - {k} == m;
    }
  }

  /** One node's queue never holds more than the total. */
  lemma QueueWithinTotal<R>(m: map<NodeId, seq<R>>, k: NodeId)
    ensures |QueueOf(m, k)| <= Total(m)
  {
    TotalDrop(m, k);
  }

  /** The total is zero exactly when every queue is empty. */
  lemma {:induction false} TotalZeroIff<R>(m: map<NodeId, seq<R>>)
    ensures Total(m) == 0 <==> forall k :: k in m ==> m[k] == []
    decreases |m|
  {
    if m != map[] {
      var k :| k in m;
      TotalRemove(m, k);
      assert (m - {k}).Keys == m.Keys - {k};
      TotalZeroIff(m - {k});
      if forall j :: j in m ==> m[j] == [] {
        assert forall j :: j in m - {k} ==> (m - {k})[j] == [];
      } else {
        var j :| j in m && m[j] != [];
        if j != k {
          assert j in m - {k} && (m - {k})[j] != [];
        }
      }
    }
  }

  /** Dropping the empty queues loses no request. */
  lemma {:induction false} NonEmptyTotal<R>(m: map<NodeId, seq<R>>)
    ensures Total(NonEmpty(m)) == Total(m)
    decreases |m|
  {
    if m != map[] {
      var k :| k in m;
      assert (m - {k}).Keys == m.Keys - {k};
      TotalRemove(m, k);
      NonEmptyTotal(m - {k});
      if m[k] == [] {
        assert NonEmpty(m) == NonEmpty(m - {k});
      } else {
        TotalRemove(NonEmpty(m), k);
        assert NonEmpty(m) - {k} == NonEmpty(m - {k});
      }
    }
  }

  /** One step of a loop that visits the keys of `m` one at a time. */
  lemma RestrictStep<R>(m: map<NodeId, seq<R>>, keys: set<NodeId>, k: NodeId)
    requires k in keys && k in m
    ensures Total(Restrict(m, keys)) == |m[k]| + Total(Restrict(m, keys - {k}))
  {
    TotalRemove(Restrict(m, keys), k);
    assert Restrict(m, keys) - {k} == Restrict(m, keys - {k});
  }

  /** Pairwise distinct elements. */
  predicate Distinct<T(==)>(s: seq<T>)
  {
    forall i, j :: 0 <= i < j < |s| ==> s[i] != s[j]
  }

  lemma DistinctAppend<T>(s: seq<T>, x: T)
    requires Distinct(s) && x !in s
    ensures Distinct(s + [x])
  {
  }

  /** The queues of the nodes in `order`, concatenated in that order. */
  function Concat<R>(order: seq<NodeId>, m: map<NodeId, seq<R>>): (s: seq<R>)
    requires forall i :: 0 <= i < |order| ==> order[i] in m
  {
    if order == [] then []
    else Concat(order[..|order| - 1], m) + m[order[|order| - 1]]
  }

  /** Concatenation along a visit order holds every request of the visited queues once. */
  lemma {:induction false} ConcatTotal<R>(order: seq<NodeId>, m: map<NodeId, seq<R>>)
    requires forall i :: 0 <= i < |order| ==> order[i] in m
    requires Distinct(order)
    ensures |Concat(order, m)| == Total(Restrict(m, set i | 0 <= i < |order| :: order[i]))
  {
    var visited := set i | 0 <= i < |order| :: order[i];
    if order == [] {
      assert Restrict(m, visited) == map[];
    } else {
      var init := order[..|order| - 1];
      var last := order[|order| - 1];
      var before := set i | 0 <= i < |init| :: init[i];
      ConcatTotal(init, m);
      assert visited == before + {last};
      assert last !in before;
      RestrictStep(m, visited, last);
      assert visited - {last} == before;
    }
  }
}
