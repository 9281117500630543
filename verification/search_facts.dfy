/**
 * The invariant of the shortest-path search and the lemmas that carry it
 * from one dequeue to the next: the queue holds the visited but
 * unexpanded nodes in non-decreasing distance order, every visited node
 * sits at its true distance, and the visited set covers the ball up to
 * the distance of the queue's head.
 */
module SearchFacts {
  import opened Wrappers
  import opened Nodes
  import opened Topology

  /** The queue holds, without repeats, exactly the visited nodes not yet expanded. */
  ghost predicate QueueHolds(queue: seq<Pos>, visited: set<Pos>, done: set<Pos>)
  {
    && (forall i :: 0 <= i < |queue| ==> queue[i] in visited && queue[i] !in done)
    && (forall i, j :: 0 <= i < j < |queue| ==> queue[i] != queue[j])
    && (forall v :: v in visited && v !in done ==> v in queue)
  }

  /** The queue's distances never decrease and span at most two layers. */
  ghost predicate Layered(queue: seq<Pos>, distances: map<Pos, nat>)
  {
    && (forall i :: 0 <= i < |queue| ==> queue[i] in distances)
    && (forall i, j :: 0 <= i <= j < |queue| ==> distances[queue[i]] <= distances[queue[j]])
    && (|queue| > 0 ==> distances[queue[|queue| - 1]] <= distances[queue[0]] + 1)
  }

  /** Every visited node is recorded at its true distance from `start`. */
  ghost predicate DistancesHold(t: Topo, start: Pos, visited: set<Pos>, distances: map<Pos, nat>)
  {
    && distances.Keys == visited
    && (forall v {:trigger distances[v]} :: v in visited ==> IsDist(t, start, v, distances[v]))
  }

  /** Every expanded node has all of its neighbours visited. */
  ghost predicate Expanded(t: Topo, done: set<Pos>, visited: set<Pos>)
  {
    forall p, v {:trigger v in Nbrs(t, p)} :: p in done && v in Nbrs(t, p) ==> v in visited
  }

  /** Dequeuing the head and appending the newly visited nodes keeps the queue exact. */
  lemma QueueAdvance(queue: seq<Pos>, added: seq<Pos>, visited: set<Pos>, visited': set<Pos>, done: set<Pos>)
    requires QueueHolds(queue, visited, done) && |queue| > 0
    requires done <= visited <= visited'
    requires forall k :: 0 <= k < |added| ==> added[k] in visited' && added[k] !in visited
    requires forall k, j :: 0 <= k < j < |added| ==> added[k] != added[j]
    requires forall v :: v in visited' && v !in visited ==> v in added
    ensures QueueHolds(queue[1..] + added, visited', done + {queue[0]})
  {
    var q := queue[1..] + added;
    forall i | 0 <= i < |q| ensures q[i] in visited' && q[i] !in done + {queue[0]} {
      if i < |queue| - 1 {
        assert q[i] == queue[i + 1] && queue[0] != queue[i + 1];
      } else {
        assert q[i] == added[i - |queue| + 1];
      }
    }
    forall i, j | 0 <= i < j < |q| ensures q[i] != q[j] {
      if j < |queue| - 1 {
        assert q[i] == queue[i + 1] && q[j] == queue[j + 1];
      } else if i < |queue| - 1 {
        assert q[i] in visited && q[j] !in visited;
      }
    }
    forall v | v in visited' && v !in done + {queue[0]} ensures v in q {
      if v in visited {
        var i :| 0 <= i < |queue| && queue[i] == v;
        assert q[i - 1] == v;
      } else {
        var k :| 0 <= k < |added| && added[k] == v;
        assert q[|queue| - 1 + k] == v;
      }
    }
  }

  /** The same step keeps the queue layered when the new nodes sit one layer below the head. */
  lemma LayerAdvance(queue: seq<Pos>, added: seq<Pos>, distances: map<Pos, nat>, distances': map<Pos, nat>)
    requires Layered(queue, distances) && |queue| > 0
    requires forall i :: 0 <= i < |queue| ==> queue[i] in distances' && distances'[queue[i]] == distances[queue[i]]
    requires forall k :: 0 <= k < |added| ==> added[k] in distances' && distances'[added[k]] == distances[queue[0]] + 1
    ensures Layered(queue[1..] + added, distances')
    ensures forall i :: 0 <= i < |queue[1..] + added| ==>
      distances[queue[0]] <= distances'[(queue[1..] + added)[i]] <= distances[queue[0]] + 1
  {
    var q := queue[1..] + added;
    var d := distances[queue[0]];
    forall i | 0 <= i < |queue| ensures d <= distances[queue[i]] <= d + 1 {
      assert distances[queue[0]] <= distances[queue[i]] <= distances[queue[|queue| - 1]];
    }
    forall i | 0 <= i < |q| ensures q[i] in distances' && d <= distances'[q[i]] <= d + 1 {
      if i < |queue| - 1 {
        assert q[i] == queue[i + 1];
      } else {
        assert q[i] == added[i - |queue| + 1];
      }
    }
    forall i, j | 0 <= i <= j < |q| ensures distances'[q[i]] <= distances'[q[j]] {
      if j < |queue| - 1 {
        assert q[i] == queue[i + 1] && q[j] == queue[j + 1];
      } else if i >= |queue| - 1 {
        assert q[i] == added[i - |queue| + 1] && q[j] == added[j - |queue| + 1];
      } else {
        assert q[j] == added[j - |queue| + 1];
      }
    }
  }

  /** Expanding `top` once all its neighbours are visited keeps every expanded node's neighbours visited. */
  lemma ExpandedAdvance(t: Topo, top: Pos, done: set<Pos>, visited: set<Pos>, visited': set<Pos>)
    requires Expanded(t, done, visited) && visited <= visited'
    requires Nbrs(t, top) <= visited'
    ensures Expanded(t, done + {top}, visited')
  {
  }

  /** The distances of the newly visited nodes, all one layer below the expanded node, are true. */
  lemma DistancesAdvance(t: Topo, start: Pos, d: nat, visited: set<Pos>, distances: map<Pos, nat>,
                         visited': set<Pos>, distances': map<Pos, nat>)
    requires DistancesHold(t, start, visited, distances)
    requires visited <= visited' && distances'.Keys == visited'
    requires forall v :: v in visited ==> distances'[v] == distances[v]
    requires forall v :: v in visited' && v !in visited ==> distances'[v] == d + 1 && IsDist(t, start, v, d + 1)
    ensures DistancesHold(t, start, visited', distances')
  {
  }

  /**
   * Once the queue's head lies one layer beyond d, every node within
   * distance d has been expanded, so the visited set covers the
   * (d+1)-ball.
   */
  lemma {:induction false} BallAdvance(t: Topo, start: Pos, d: nat, queue: seq<Pos>, visited: set<Pos>,
                                       done: set<Pos>, distances: map<Pos, nat>)
    requires DistancesHold(t, start, visited, distances)
    requires QueueHolds(queue, visited, done) && Layered(queue, distances)
    requires |queue| > 0 && distances[queue[0]] == d + 1
    requires BallWithin(t, start, d, visited)
    requires Expanded(t, done, visited)
    ensures BallWithin(t, start, d + 1, visited)
  {
    forall w | w in Ball(t, start, d) ensures w in done {
      DistBelow(t, start, w, distances[w], d);
    }
    BallExtends(t, start, d, done, visited);
  }

  lemma LessOne(a: set<Pos>, x: Pos)
    requires x in a
    ensures |a - {x}| == |a| - 1
  {
    var b := a - {x};
    assert a == b + {x} && x !in b;
  }

  /** Every node within distance k of `start` is in `c`. */
  ghost predicate BallWithin(t: Topo, start: Pos, k: nat, c: set<Pos>)
  {
    forall v {:trigger v in Ball(t, start, k)} :: v in Ball(t, start, k) ==> v in c
  }

  /** The visited set covers the ball out to the distance of the queue's head. */
  ghost predicate Covered(t: Topo, start: Pos, queue: seq<Pos>, distances: map<Pos, nat>, visited: set<Pos>)
  {
    |queue| > 0 ==> queue[0] in distances && BallWithin(t, start, distances[queue[0]], visited)
  }

  /** After expanding a node at distance d, the ball covered reaches the new head's distance. */
  lemma CoveredAdvance(t: Topo, start: Pos, d: nat, queue: seq<Pos>, visited: set<Pos>,
                       done: set<Pos>, distances: map<Pos, nat>)
    requires BallWithin(t, start, d, visited)
    requires DistancesHold(t, start, visited, distances)
    requires QueueHolds(queue, visited, done) && Layered(queue, distances)
    requires Expanded(t, done, visited)
    requires forall i :: 0 <= i < |queue| ==> d <= distances[queue[i]] <= d + 1
    ensures Covered(t, start, queue, distances, visited)
  {
    if |queue| > 0 && distances[queue[0]] != d {
      BallAdvance(t, start, d, queue, visited, done, distances);
    }
  }

  /**
   * The nodes that expanding `top` newly visits are its unvisited
   * neighbours, all one layer further out than `top`; afterwards every
   * neighbour of `top` is visited.
   */
  lemma NewLayer(t: Topo, start: Pos, top: Pos, d: nat, neighbours: seq<Pos>, visited: set<Pos>,
                 distances: map<Pos, nat>, visited': set<Pos>, distances': map<Pos, nat>, added: seq<Pos>)
    requires Closed(t) && top in t && neighbours == NeighbourList(t[top]) && visited <= t.Keys
    requires IsDist(t, start, top, d) && BallWithin(t, start, d, visited)
    requires DistancesHold(t, start, visited, distances)
    requires Expansion(neighbours, d, visited, distances, visited', distances', added)
    ensures DistancesHold(t, start, visited', distances')
    ensures Nbrs(t, top) <= visited'
    ensures visited' <= t.Keys
  {
    assert ExpansionFacts(neighbours, d, visited, distances, visited', distances', added, 0);
    forall v | v in visited' && v !in visited ensures IsDist(t, start, v, d + 1) {
      NextLayer(t, start, top, v, d);
    }
    DistancesAdvance(t, start, d, visited, distances, visited', distances');
  }

  /**
   * The outcome of expanding a node at distance d whose neighbour list is
   * `neighbours`: every neighbour is visited, the new ones at distance
   * d + 1, and `added` lists each new one exactly once. Folded like
   * SearchState below.
   */
  ghost predicate Expansion(neighbours: seq<Pos>, d: nat, visited: set<Pos>, distances: map<Pos, nat>,
                            visited': set<Pos>, distances': map<Pos, nat>, added: seq<Pos>)
  {
    forall k: nat {:trigger ExpansionFacts(neighbours, d, visited, distances, visited', distances', added, k)} ::
      ExpansionFacts(neighbours, d, visited, distances, visited', distances', added, k)
  }

  /** The facts Expansion bundles; `k` only gives its quantifier a trigger. */
  ghost predicate ExpansionFacts(neighbours: seq<Pos>, d: nat, visited: set<Pos>, distances: map<Pos, nat>,
                                 visited': set<Pos>, distances': map<Pos, nat>, added: seq<Pos>, k: nat)
  {
    && distances.Keys == visited
    && (forall v :: v in visited' <==> v in visited || v in neighbours)
    && distances'.Keys == visited'
    && (forall v :: v in visited ==> distances'[v] == distances[v])
    && (forall v :: v in visited' && v !in visited ==> distances'[v] == d + 1)
    && (forall i :: 0 <= i < |added| ==> added[i] in visited' && added[i] !in visited)
    && (forall i, j :: 0 <= i < j < |added| ==> added[i] != added[j])
    && (forall v :: v in visited' && v !in visited ==> v in added)
  }

  /** Before any neighbour is looked at, nothing has changed. */
  lemma ExpansionStarts(d: nat, visited: set<Pos>, distances: map<Pos, nat>)
    requires distances.Keys == visited
    ensures Expansion([], d, visited, distances, visited, distances, [])
  {
    forall k: nat ensures ExpansionFacts([], d, visited, distances, visited, distances, [], k) {
    }
  }

  /**
   * Looking at one more neighbour: a visited one changes nothing, an
   * unvisited one is recorded at d + 1 and appended to `added`.
   */
  lemma ExpansionGrows(ns: seq<Pos>, nb: Pos, d: nat, visited: set<Pos>, distances: map<Pos, nat>,
                       visited': set<Pos>, distances': map<Pos, nat>, added: seq<Pos>)
    requires Expansion(ns, d, visited, distances, visited', distances', added)
    ensures visited <= visited'
    ensures nb in visited' ==> Expansion(ns + [nb], d, visited, distances, visited', distances', added)
    ensures nb !in visited' ==>
      Expansion(ns + [nb], d, visited, distances, visited' + {nb}, distances'[nb := d + 1], added + [nb])
  {
    assert ExpansionFacts(ns, d, visited, distances, visited', distances', added, 0);
    if nb in visited' {
      forall k: nat ensures ExpansionFacts(ns + [nb], d, visited, distances, visited', distances', added, k) {
      }
    } else {
      var v', d', a' := visited' + {nb}, distances'[nb := d + 1], added + [nb];
      forall k: nat ensures ExpansionFacts(ns + [nb], d, visited, distances, v', d', a', k) {
      }
    }
  }

  /**
   * The shortest-path search's loop invariant: the queue holds exactly the
   * visited but unexpanded positions, in layers; every visited position
   * is recorded at its true distance; expanded positions have all their
   * neighbours visited; the visited set covers the ball out to the head's
   * distance; and the end has not been visited unless it is the start.
   *
   * It is stated as a quantifier whose only trigger is StateFacts, so the
   * verifier unfolds it just where a proof names StateFacts(..., 0).
   */
  ghost predicate SearchState(t: Topo, start: Pos, end: Pos, queue: seq<Pos>, visited: set<Pos>,
                              distances: map<Pos, nat>, done: set<Pos>)
  {
    forall k: nat {:trigger StateFacts(t, start, end, queue, visited, distances, done, k)} ::
      StateFacts(t, start, end, queue, visited, distances, done, k)
  }

  /** The facts SearchState bundles; `k` only gives its quantifier a trigger. */
  ghost predicate StateFacts(t: Topo, start: Pos, end: Pos, queue: seq<Pos>, visited: set<Pos>,
                             distances: map<Pos, nat>, done: set<Pos>, k: nat)
  {
    && GraphFacts(t, start, end, visited, distances, done)
    && QueueFacts(queue, visited, distances, done)
    && Covered(t, start, queue, distances, visited)
  }

  /** The part of the search state about the visited set and its distances. */
  ghost predicate GraphFacts(t: Topo, start: Pos, end: Pos, visited: set<Pos>, distances: map<Pos, nat>,
                             done: set<Pos>)
  {
    && visited <= t.Keys && start in visited && done <= visited
    && DistancesHold(t, start, visited, distances)
    && Expanded(t, done, visited)
    && (start != end ==> end !in visited)
  }

  /** The part of the search state about the queue. */
  ghost predicate QueueFacts(queue: seq<Pos>, visited: set<Pos>, distances: map<Pos, nat>, done: set<Pos>)
  {
    QueueHolds(queue, visited, done) && Layered(queue, distances)
  }

  /**
   * The queue's head, a grid position at a recorded distance, has been
   * expanded into `visited'`, `distances'` and `added` without meeting
   * `end` among its neighbours, unless `end` was visited already.
   */
  ghost predicate Expanding(t: Topo, end: Pos, queue: seq<Pos>, visited: set<Pos>, distances: map<Pos, nat>,
                            neighbours: seq<Pos>, visited': set<Pos>, distances': map<Pos, nat>, added: seq<Pos>)
  {
    && |queue| > 0 && queue[0] in t && queue[0] in distances
    && neighbours == NeighbourList(t[queue[0]]) && (end in visited || end !in neighbours)
    && Expansion(neighbours, distances[queue[0]], visited, distances, visited', distances', added)
  }

  /** The number of grid positions not yet expanded: the search's termination measure. */
  ghost function Unexpanded(t: Topo, done: set<Pos>): nat
  {
    |t.Keys - done|
  }
}
