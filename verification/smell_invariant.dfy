/**
 * The Otyugh count of the smell search. The search is the shortest-path
 * search run from a node to itself (so it never meets its end), cut short
 * once it would visit a node beyond the distance asked about. Next to the
 * search invariant it keeps one more fact: the count equals the number of
 * visited Otyugh caves lying at exactly that distance.
 */
module SmellInvariant {
  import opened Nodes
  import opened Topology
  import opened SearchFacts
  import opened SearchInvariant

  /** The Otyugh caves at distance m that the search has visited so far. */
  ghost function Smelled(t: Topo, start: Pos, m: nat, cells: set<Pos>, visited: set<Pos>): set<Pos>
  {
    AtDistance(t, start, m, cells) * visited
  }

  /**
   * Visiting a layer at distance d + 1 adds to the visited Otyugh caves at
   * distance m exactly the new Otyugh caves, when d + 1 is m, and none
   * otherwise.
   */
  lemma SmellCount(t: Topo, start: Pos, m: nat, cells: set<Pos>, d: nat, visited: set<Pos>,
                   visited': set<Pos>, distances': map<Pos, nat>)
    requires DistancesHold(t, start, visited', distances')
    requires visited <= visited'
    requires forall v :: v in visited' && v !in visited ==> distances'[v] == d + 1
    ensures |Smelled(t, start, m, cells, visited')| ==
      |Smelled(t, start, m, cells, visited)| + (if d + 1 == m then |(visited' - visited) * cells| else 0)
  {
    if d + 1 == m {
      SmelledGrows(t, start, m, cells, visited, visited', distances');
      assert Smelled(t, start, m, cells, visited) !! (visited' - visited) * cells;
    } else {
      SmelledStays(t, start, m, cells, d, visited, visited', distances');
    }
  }

  /** A layer at distance m adds its Otyugh caves to those visited at distance m. */
  lemma SmelledGrows(t: Topo, start: Pos, m: nat, cells: set<Pos>, visited: set<Pos>,
                     visited': set<Pos>, distances': map<Pos, nat>)
    requires DistancesHold(t, start, visited', distances')
    requires visited <= visited'
    requires forall v :: v in visited' && v !in visited ==> distances'[v] == m
    ensures Smelled(t, start, m, cells, visited') == Smelled(t, start, m, cells, visited) + (visited' - visited) * cells
  {
    forall v | v in (visited' - visited) * cells ensures v in AtDistance(t, start, m, cells) {
      assert IsDist(t, start, v, distances'[v]);
    }
  }

  /** A layer at any other distance adds nothing at distance m. */
  lemma SmelledStays(t: Topo, start: Pos, m: nat, cells: set<Pos>, d: nat, visited: set<Pos>,
                     visited': set<Pos>, distances': map<Pos, nat>)
    requires DistancesHold(t, start, visited', distances')
    requires visited <= visited' && d + 1 != m
    requires forall v :: v in visited' && v !in visited ==> distances'[v] == d + 1
    ensures Smelled(t, start, m, cells, visited') == Smelled(t, start, m, cells, visited)
  {
    forall v | v in Smelled(t, start, m, cells, visited') ensures v in visited {
      if v !in visited {
        assert IsDist(t, start, v, distances'[v]);
        DistUnique(t, start, v, m, d + 1);
      }
    }
  }

  /** How many entries of `s` are members of `cells`. */
  ghost function CountIn(s: seq<Pos>, cells: set<Pos>): nat
  {
    if |s| == 0 then 0 else CountIn(s[..|s| - 1], cells) + (if s[|s| - 1] in cells then 1 else 0)
  }

  lemma CountInAppend(s: seq<Pos>, v: Pos, cells: set<Pos>)
    ensures CountIn(s + [v], cells) == CountIn(s, cells) + (if v in cells then 1 else 0)
  {
    assert (s + [v])[..|s|] == s;
  }

  /** Counting along a list without repeats counts the members of the set it lists. */
  lemma {:induction false} CountInDistinct(s: seq<Pos>, cells: set<Pos>, a: set<Pos>)
    requires forall i, j :: 0 <= i < j < |s| ==> s[i] != s[j]
    requires forall v :: v in a <==> v in s
    ensures CountIn(s, cells) == |a * cells|
  {
    if |s| == 0 {
      assert a * cells == {};
    } else {
      var last, init := s[|s| - 1], s[..|s| - 1];
      assert s == init + [last];
      forall v ensures v in a - {last} <==> v in init {
        if v in init {
          var i :| 0 <= i < |init| && init[i] == v;
          assert s[i] == v;
        }
      }
      CountInDistinct(init, cells, a - {last});
      if last in cells {
        assert a * cells == (a - {last}) * cells + {last};
      } else {
        assert a * cells == (a - {last}) * cells;
      }
    }
  }

  /**
   * Expanding the head keeps the search state, shrinks the unexpanded part
   * of the grid, and adds the head's new Otyugh neighbours to the count
   * when they lie at distance m.
   */
  lemma SmellSteps(t: Topo, start: Pos, m: nat, cells: set<Pos>, queue: seq<Pos>, visited: set<Pos>,
                   distances: map<Pos, nat>, done: set<Pos>, neighbours: seq<Pos>,
                   visited': set<Pos>, distances': map<Pos, nat>, added: seq<Pos>)
    requires Closed(t)
    requires SearchState(t, start, start, queue, visited, distances, done)
    requires Expanding(t, start, queue, visited, distances, neighbours, visited', distances', added)
    ensures SearchState(t, start, start, queue[1..] + added, visited', distances', done + {queue[0]})
    ensures Unexpanded(t, done + {queue[0]}) < Unexpanded(t, done)
    ensures |Smelled(t, start, m, cells, visited')| == |Smelled(t, start, m, cells, visited)|
      + (if distances[queue[0]] + 1 == m then CountIn(added, cells) else 0)
  {
    var d := distances[queue[0]];
    SearchSteps(t, start, start, queue, visited, distances, done, neighbours, visited', distances', added);
    GraphSteps(t, start, start, queue, visited, distances, done, neighbours, visited', distances', added);
    assert ExpansionFacts(neighbours, d, visited, distances, visited', distances', added, 0);
    SmellCount(t, start, m, cells, d, visited, visited', distances');
    CountInDistinct(added, cells, visited' - visited);
  }

  /**
   * Once the queue's head lies at distance m or beyond, every node at
   * distance m has been visited.
   */
  lemma SmellStops(t: Topo, start: Pos, m: nat, cells: set<Pos>, queue: seq<Pos>, visited: set<Pos>,
                   distances: map<Pos, nat>, done: set<Pos>)
    requires SearchState(t, start, start, queue, visited, distances, done) && |queue| > 0
    requires queue[0] in distances && distances[queue[0]] >= m
    ensures Smelled(t, start, m, cells, visited) == AtDistance(t, start, m, cells)
  {
    assert StateFacts(t, start, start, queue, visited, distances, done, 0);
    BallMono(t, start, m, distances[queue[0]]);
  }

  /** An exhausted queue has visited every reachable node, those at distance m included. */
  lemma SmellExhausted(t: Topo, start: Pos, m: nat, cells: set<Pos>, visited: set<Pos>,
                       distances: map<Pos, nat>, done: set<Pos>)
    requires SearchState(t, start, start, [], visited, distances, done)
    ensures Smelled(t, start, m, cells, visited) == AtDistance(t, start, m, cells)
  {
    assert StateFacts(t, start, start, [], visited, distances, done, 0);
    ClosedSetHoldsBalls(t, start, m, visited);
  }
}
