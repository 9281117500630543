/**
 * The lemmas that establish the shortest-path search's invariant, carry it
 * across one expansion, and read the two possible answers off it.
 */
module SearchInvariant {
  import opened Nodes
  import opened Topology
  import opened SearchFacts

  lemma SearchStarts(t: Topo, start: Pos, end: Pos)
    requires start in t
    ensures SearchState(t, start, end, [start], {start}, map[start := 0], {})
  {
    assert IsDist(t, start, start, 0);
    forall k: nat ensures StateFacts(t, start, end, [start], {start}, map[start := 0], {}, k) {
    }
  }

  /** The head of a non-empty queue is a grid position with a recorded distance. */
  lemma HeadKnown(t: Topo, start: Pos, end: Pos, queue: seq<Pos>, visited: set<Pos>,
                  distances: map<Pos, nat>, done: set<Pos>)
    requires SearchState(t, start, end, queue, visited, distances, done) && |queue| > 0
    ensures queue[0] in t && queue[0] in distances && distances.Keys == visited && start in visited
  {
    assert StateFacts(t, start, end, queue, visited, distances, done, 0);
  }

  /** Expanding the head keeps the queue exact and layered, one layer at most past the old head. */
  lemma QueueSteps(t: Topo, start: Pos, end: Pos, queue: seq<Pos>, visited: set<Pos>,
                   distances: map<Pos, nat>, done: set<Pos>, neighbours: seq<Pos>,
                   visited': set<Pos>, distances': map<Pos, nat>, added: seq<Pos>)
    requires SearchState(t, start, end, queue, visited, distances, done)
    requires Expanding(t, end, queue, visited, distances, neighbours, visited', distances', added)
    ensures QueueFacts(queue[1..] + added, visited', distances', done + {queue[0]})
    ensures forall i :: 0 <= i < |queue[1..] + added| ==>
      distances[queue[0]] <= distances'[(queue[1..] + added)[i]] <= distances[queue[0]] + 1
  {
    assert StateFacts(t, start, end, queue, visited, distances, done, 0);
    assert ExpansionFacts(neighbours, distances[queue[0]], visited, distances, visited', distances', added, 0);
    QueueAdvance(queue, added, visited, visited', done);
    LayerAdvance(queue, added, distances, distances');
  }

  /**
   * Expanding the head keeps every distance true and every expanded node's
   * neighbours visited, and shrinks the unexpanded part of the grid.
   */
  lemma GraphSteps(t: Topo, start: Pos, end: Pos, queue: seq<Pos>, visited: set<Pos>,
                   distances: map<Pos, nat>, done: set<Pos>, neighbours: seq<Pos>,
                   visited': set<Pos>, distances': map<Pos, nat>, added: seq<Pos>)
    requires Closed(t)
    requires SearchState(t, start, end, queue, visited, distances, done)
    requires Expanding(t, end, queue, visited, distances, neighbours, visited', distances', added)
    ensures GraphFacts(t, start, end, visited', distances', done + {queue[0]})
    ensures BallWithin(t, start, distances[queue[0]], visited')
    ensures Unexpanded(t, done + {queue[0]}) < Unexpanded(t, done)
  {
    assert StateFacts(t, start, end, queue, visited, distances, done, 0);
    var top, d := queue[0], distances[queue[0]];
    assert ExpansionFacts(neighbours, d, visited, distances, visited', distances', added, 0);
    assert top in visited && IsDist(t, start, top, d);
    NewLayer(t, start, top, d, neighbours, visited, distances, visited', distances', added);
    ExpandedAdvance(t, top, done, visited, visited');
    LessOne(t.Keys - done, top);
    assert t.Keys - (done + {top}) == (t.Keys - done) - {top};
  }

  /** After expanding the head, the visited set covers the ball out to the new head's distance. */
  lemma CoverSteps(t: Topo, start: Pos, end: Pos, queue: seq<Pos>, visited: set<Pos>,
                   distances: map<Pos, nat>, done: set<Pos>, neighbours: seq<Pos>,
                   visited': set<Pos>, distances': map<Pos, nat>, added: seq<Pos>)
    requires Closed(t)
    requires SearchState(t, start, end, queue, visited, distances, done)
    requires Expanding(t, end, queue, visited, distances, neighbours, visited', distances', added)
    ensures Covered(t, start, queue[1..] + added, distances', visited')
  {
    QueueSteps(t, start, end, queue, visited, distances, done, neighbours, visited', distances', added);
    GraphSteps(t, start, end, queue, visited, distances, done, neighbours, visited', distances', added);
    CoveredAdvance(t, start, distances[queue[0]], queue[1..] + added, visited', done + {queue[0]}, distances');
  }

  /** Expanding the queue's head keeps the search state and shrinks the unexpanded part of the grid. */
  lemma SearchSteps(t: Topo, start: Pos, end: Pos, queue: seq<Pos>, visited: set<Pos>,
                    distances: map<Pos, nat>, done: set<Pos>, neighbours: seq<Pos>,
                    visited': set<Pos>, distances': map<Pos, nat>, added: seq<Pos>)
    requires Closed(t)
    requires SearchState(t, start, end, queue, visited, distances, done)
    requires Expanding(t, end, queue, visited, distances, neighbours, visited', distances', added)
    ensures SearchState(t, start, end, queue[1..] + added, visited', distances', done + {queue[0]})
    ensures Unexpanded(t, done + {queue[0]}) < Unexpanded(t, done)
  {
    QueueSteps(t, start, end, queue, visited, distances, done, neighbours, visited', distances', added);
    GraphSteps(t, start, end, queue, visited, distances, done, neighbours, visited', distances', added);
    CoverSteps(t, start, end, queue, visited, distances, done, neighbours, visited', distances', added);
    forall k: nat ensures StateFacts(t, start, end, queue[1..] + added, visited', distances', done + {queue[0]}, k) {
    }
  }

  /**
   * `r` is a correct answer of findShortestPathDistance: -1 or positive;
   * between two different nodes, their distance, or -1 exactly when the
   * end is out of reach. Folded like SearchState.
   */
  ghost predicate Answers(t: Topo, start: Pos, end: Pos, r: int)
  {
    forall k: nat {:trigger AnswerFacts(t, start, end, r, k)} :: AnswerFacts(t, start, end, r, k)
  }

  /** The facts Answers bundles; `k` only gives its quantifier a trigger. */
  ghost predicate AnswerFacts(t: Topo, start: Pos, end: Pos, r: int, k: nat)
  {
    && (r == -1 || r >= 1)
    && (start != end && r >= 1 ==> IsDist(t, start, end, r))
    && (start != end && r == -1 ==> !Reachable(t, start, end))
  }

  lemma AnswerFound(t: Topo, start: Pos, end: Pos, r: int)
    requires r >= 1 && (start != end ==> IsDist(t, start, end, r))
    ensures Answers(t, start, end, r)
  {
    forall k: nat ensures AnswerFacts(t, start, end, r, k) {
    }
  }

  lemma AnswerMissing(t: Topo, start: Pos, end: Pos)
    requires start != end ==> !Reachable(t, start, end)
    ensures Answers(t, start, end, -1)
  {
    forall k: nat ensures AnswerFacts(t, start, end, -1, k) {
    }
  }

  /**
   * One round of the search, judged: when the head's neighbour list holds
   * the end, one more than the head's distance is a correct answer;
   * otherwise the expansion keeps the search state and shrinks the
   * unexpanded part of the grid.
   */
  lemma RoundOutcome(t: Topo, start: Pos, end: Pos, queue: seq<Pos>, visited: set<Pos>,
                     distances: map<Pos, nat>, done: set<Pos>, neighbours: seq<Pos>, found: bool,
                     visited': set<Pos>, distances': map<Pos, nat>, added: seq<Pos>)
    requires Closed(t)
    requires SearchState(t, start, end, queue, visited, distances, done) && |queue| > 0
    requires queue[0] in t && queue[0] in distances && neighbours == NeighbourList(t[queue[0]])
    requires found <==> end in neighbours
    requires !found ==> Expansion(neighbours, distances[queue[0]], visited, distances, visited', distances', added)
    ensures found ==> Answers(t, start, end, distances[queue[0]] + 1)
    ensures !found ==> SearchState(t, start, end, queue[1..] + added, visited', distances', done + {queue[0]})
    ensures !found ==> Unexpanded(t, done + {queue[0]}) < Unexpanded(t, done)
  {
    if found {
      if start != end {
        SearchFinds(t, start, end, queue, visited, distances, done);
      }
      AnswerFound(t, start, end, distances[queue[0]] + 1);
    } else {
      SearchSteps(t, start, end, queue, visited, distances, done, neighbours, visited', distances', added);
    }
  }

  /** A neighbour of the expanded node that is the end node lies one layer further out. */
  lemma SearchFinds(t: Topo, start: Pos, end: Pos, queue: seq<Pos>, visited: set<Pos>,
                    distances: map<Pos, nat>, done: set<Pos>)
    requires SearchState(t, start, end, queue, visited, distances, done) && |queue| > 0
    requires queue[0] in t && queue[0] in distances && end in NeighbourList(t[queue[0]]) && start != end
    ensures IsDist(t, start, end, distances[queue[0]] + 1)
  {
    assert StateFacts(t, start, end, queue, visited, distances, done, 0);
    NextLayer(t, start, queue[0], end, distances[queue[0]]);
  }

  /** An exhausted queue means the visited set is closed under links, so the end is out of reach. */
  lemma SearchExhausted(t: Topo, start: Pos, end: Pos, visited: set<Pos>,
                        distances: map<Pos, nat>, done: set<Pos>)
    requires SearchState(t, start, end, [], visited, distances, done) && start != end
    ensures !Reachable(t, start, end)
  {
    assert StateFacts(t, start, end, [], visited, distances, done, 0);
    forall k: nat ensures end !in Ball(t, start, k) {
      ClosedSetHoldsBalls(t, start, k, visited);
    }
  }

  // ------------------------------------------------------------------ searching for the start itself

  /**
   * The search from a node for that same node, on a graph whose links all
   * go both ways: a self-link is found at once (1); otherwise the search
   * meets the node again from its first neighbour (2); an isolated node
   * is never met (-1).
   */
  ghost predicate SelfAnswer(t: Topo, start: Pos, r: int)
  {
    r == (if start in Nbrs(t, start) then 1 else if Nbrs(t, start) == {} then -1 else 2)
  }

  /**
   * The two states a search for the start itself passes through: before
   * the start is expanded, and after, when the queue holds exactly its
   * neighbours, one step away.
   */
  ghost predicate SelfSearch(t: Topo, start: Pos, queue: seq<Pos>, distances: map<Pos, nat>, done: set<Pos>)
  {
    || (done == {} && queue == [start] && distances == map[start := 0])
    || (done == {start} && start !in Nbrs(t, start) &&
        (forall v :: v in Nbrs(t, start) <==> v in queue) &&
        (forall v :: v in queue ==> v in distances && distances[v] == 1))
  }

  /** One round of the search for the start itself either answers as SelfAnswer says or reaches the second state. */
  lemma SelfRound(t: Topo, start: Pos, queue: seq<Pos>, visited: set<Pos>, distances: map<Pos, nat>, done: set<Pos>,
                  found: bool, visited': set<Pos>, distances': map<Pos, nat>, added: seq<Pos>)
    requires Undirected(t) && start in t && SelfSearch(t, start, queue, distances, done) && |queue| > 0
    requires queue[0] in t && queue[0] in distances && distances.Keys == visited && start in visited
    requires found <==> start in NeighbourList(t[queue[0]])
    requires !found ==> Expansion(NeighbourList(t[queue[0]]), distances[queue[0]], visited, distances, visited', distances', added)
    ensures found ==> SelfAnswer(t, start, distances[queue[0]] + 1)
    ensures !found ==> SelfSearch(t, start, queue[1..] + added, distances', done + {queue[0]})
  {
    var h := queue[0];
    if done == {} {
      assert h == start;
      if !found {
        var ns := NeighbourList(t[start]);
        assert ExpansionFacts(ns, 0, visited, distances, visited', distances', added, 0);
        assert visited == {start};
        assert queue[1..] + added == added;
        forall v
          ensures v in Nbrs(t, start) <==> v in added
        {
          if v in Nbrs(t, start) {
            assert v in ns && v != start;
          }
        }
      }
    } else {
      assert h in Nbrs(t, start);
      assert start in Nbrs(t, h);
    }
  }
}
