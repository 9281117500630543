/**
 * The two breadth-first searches over the grid's links: the engine's
 * shortest-path distance between two nodes, and the node's count of
 * Otyughs at an exact distance, which decides the smell in a room
 * description. Both keep a visited set, a distance table and a FIFO
 * queue, and visit a node's neighbours in the order left, right, bottom,
 * top.
 */
module Search {
  import opened Wrappers
  import opened Nodes
  import opened Topology
  import opened SearchFacts
  import opened SearchInvariant
  import opened SmellInvariant

  /**
   * One expansion step of findShortestPathDistance: every neighbour not yet
   * visited is marked visited at distance d + 1 and queued, in list order;
   * the step stops early when a neighbour (visited or not) is the end node.
   */
  method VisitNeighbours(neighbours: seq<Pos>, end: Pos, d: nat, visited: set<Pos>, distances: map<Pos, nat>)
    returns (found: bool, visited': set<Pos>, distances': map<Pos, nat>, added: seq<Pos>)
    requires distances.Keys == visited
    ensures found <==> end in neighbours
    ensures !found ==> Expansion(neighbours, d, visited, distances, visited', distances', added)
  {
    visited', distances', added := visited, distances, [];
    ExpansionStarts(d, visited, distances);
    var i := 0;
    while i < |neighbours|
      invariant 0 <= i <= |neighbours|
      invariant end !in neighbours[..i]
      invariant Expansion(neighbours[..i], d, visited, distances, visited', distances', added)
    {
      var nb := neighbours[i];
      assert neighbours[..i + 1] == neighbours[..i] + [nb];
      ExpansionGrows(neighbours[..i], nb, d, visited, distances, visited', distances', added);
      if nb !in visited' {
        visited' := visited' + {nb};
        distances' := distances'[nb := d + 1];
        added := added + [nb];
      }
      if nb == end {
        return true, visited', distances', added;
      }
      i := i + 1;
    }
    assert neighbours[..i] == neighbours;
    found := false;
  }

  /** The linked neighbours of the node at `p`, in visiting order. */
  method NeighboursOf(g: array2<Node>, ghost t: Topo, p: Pos) returns (ns: seq<Pos>)
    requires Agrees(g, t) && p in t
    ensures ns == NeighbourList(t[p])
  {
    ns := NeighbourList(g[p.row, p.col].links);
  }

  /**
   * Apart from `start`, the positions of `t` in `cells` are those of the
   * grid's caves that hold an Otyugh.
   */
  ghost predicate OtyughsAt(g: array2<Node>, t: Topo, cells: set<Pos>, start: Pos)
    reads g
  {
    forall p :: p in t && p != start && InGrid(g, p) ==> (p in cells <==> HasOtyugh(g[p.row, p.col]))
  }

  /**
   * findShortestPathDistance. Between two different nodes the result is
   * their distance, or -1 when the end cannot be reached. The end is
   * checked against every neighbour of the node being expanded, visited or
   * not, so for start == end the result is the length of the first cycle
   * through the start that the search comes across, never 0: on a graph
   * whose links go both ways, 1, 2 or -1 as SelfAnswer says.
   */
  method ShortestPathDistance(g: array2<Node>, start: Pos, end: Pos) returns (r: int)
    requires InGrid(g, start) && InGrid(g, end)
    requires LinksInGrid(g)
    ensures r == -1 || r >= 1
    ensures start != end && r >= 1 ==> IsDist(TopologyOf(g), start, end, r)
    ensures start != end && r == -1 ==> !Reachable(TopologyOf(g), start, end)
    ensures start == end && Undirected(TopologyOf(g)) ==> SelfAnswer(TopologyOf(g), start, r)
  {
    GridClosed(g);
    SnapshotAgrees(g);
    r := SearchGrid(g, TopologyOf(g), start, end);
    assert AnswerFacts(TopologyOf(g), start, end, r, 0);
  }

  /** The breadth-first search itself, over a grid whose links are those of `t`. */
  method SearchGrid(g: array2<Node>, ghost t: Topo, start: Pos, end: Pos) returns (r: int)
    requires Closed(t) && start in t
    requires Agrees(g, t)
    ensures Answers(t, start, end, r)
    ensures start == end && Undirected(t) ==> SelfAnswer(t, start, r)
  {
    var visited: set<Pos> := {start};
    var distances: map<Pos, nat> := map[start := 0];
    var queue: seq<Pos> := [start];
    ghost var done: set<Pos> := {};
    SearchStarts(t, start, end);
    while |queue| != 0
      invariant SearchState(t, start, end, queue, visited, distances, done)
      invariant start == end && Undirected(t) ==> SelfSearch(t, start, queue, distances, done)
      decreases Unexpanded(t, done)
    {
      var found, visited', distances', added := ExpandHead(g, t, start, end, queue, visited, distances, done);
      if start == end && Undirected(t) {
        SelfRound(t, start, queue, visited, distances, done, found, visited', distances', added);
      }
      if found {
        return distances[queue[0]] + 1;
      }
      visited, distances, queue, done := visited', distances', queue[1..] + added, done + {queue[0]};
    }
    if start != end {
      SearchExhausted(t, start, end, visited, distances, done);
    }
    AnswerMissing(t, start, end);
    return -1;
  }

  /**
   * One round of the search loop: take the queue's head and visit its
   * neighbours. Either one of them is the end, which then lies one layer
   * past the head, or the round leaves the search state intact with the
   * head expanded.
   */
  method ExpandHead(g: array2<Node>, ghost t: Topo, start: Pos, end: Pos, queue: seq<Pos>, visited: set<Pos>,
                    distances: map<Pos, nat>, ghost done: set<Pos>)
    returns (found: bool, visited': set<Pos>, distances': map<Pos, nat>, added: seq<Pos>)
    requires Closed(t)
    requires Agrees(g, t)
    requires SearchState(t, start, end, queue, visited, distances, done) && |queue| > 0
    ensures queue[0] in t && queue[0] in distances && distances.Keys == visited && start in visited
    ensures found <==> end in NeighbourList(t[queue[0]])
    ensures !found ==> Expansion(NeighbourList(t[queue[0]]), distances[queue[0]], visited, distances, visited', distances', added)
    ensures found ==> Answers(t, start, end, distances[queue[0]] + 1)
    ensures !found ==> SearchState(t, start, end, queue[1..] + added, visited', distances', done + {queue[0]})
    ensures !found ==> Unexpanded(t, done + {queue[0]}) < Unexpanded(t, done)
  {
    HeadKnown(t, start, end, queue, visited, distances, done);
    var top := queue[0];
    var d := distances[top];
    var neighbours := NeighboursOf(g, t, top);
    found, visited', distances', added := VisitNeighbours(neighbours, end, d, visited, distances);
    RoundOutcome(t, start, end, queue, visited, distances, done, neighbours, found, visited', distances', added);
  }

  /**
   * numOtyughsInNeighbouringNodes(start, maxDistance): the number of caves
   * holding an Otyugh at distance exactly maxDistance from `start`, not
   * counting `start` itself.
   */
  method OtyughsAtDistance(g: array2<Node>, start: Pos, maxDistance: nat) returns (count: nat)
    requires InGrid(g, start) && LinksInGrid(g)
    ensures count == |AtDistance(TopologyOf(g), start, maxDistance, OtyughCells(g) - {start})|
  {
    GridClosed(g);
    SnapshotAgrees(g);
    count := SmellGrid(g, TopologyOf(g), OtyughCells(g) - {start}, start, maxDistance);
  }

  /**
   * The smell search over a grid whose links are those of `t` and whose
   * Otyugh caves, other than `start`, are `cells`. It stops at the first
   * node it would place beyond distance m, or when the queue runs dry.
   */
  method SmellGrid(g: array2<Node>, ghost t: Topo, ghost cells: set<Pos>, start: Pos, m: nat) returns (count: nat)
    requires Closed(t) && start in t && start !in cells
    requires Agrees(g, t) && OtyughsAt(g, t, cells, start)
    ensures count == |AtDistance(t, start, m, cells)|
  {
    var visited: set<Pos> := {start};
    var distances: map<Pos, nat> := map[start := 0];
    var queue: seq<Pos> := [start];
    ghost var done: set<Pos> := {};
    count := 0;
    SearchStarts(t, start, start);
    assert Smelled(t, start, m, cells, visited) == {};
    while |queue| != 0
      invariant SearchState(t, start, start, queue, visited, distances, done)
      invariant count == |Smelled(t, start, m, cells, visited)|
      decreases Unexpanded(t, done)
    {
      var stop, inc, visited', distances', added := ExpandSmell(g, t, cells, start, m, queue, visited, distances, done);
      if stop {
        return count;
      }
      count := count + inc;
      visited, distances, queue, done := visited', distances', queue[1..] + added, done + {queue[0]};
    }
    SmellExhausted(t, start, m, cells, visited, distances, done);
    return count;
  }

  /**
   * One round of the smell search: take the queue's head and scan its
   * neighbours. Either the scan stops, and then every node at distance m
   * has been visited already, or the round keeps the search state and
   * counts the new Otyugh caves at distance m.
   */
  method ExpandSmell(g: array2<Node>, ghost t: Topo, ghost cells: set<Pos>, start: Pos, m: nat, queue: seq<Pos>,
                     visited: set<Pos>, distances: map<Pos, nat>, ghost done: set<Pos>)
    returns (stop: bool, inc: nat, visited': set<Pos>, distances': map<Pos, nat>, added: seq<Pos>)
    requires Closed(t)
    requires Agrees(g, t) && OtyughsAt(g, t, cells, start)
    requires SearchState(t, start, start, queue, visited, distances, done) && |queue| > 0
    ensures stop ==> Smelled(t, start, m, cells, visited) == AtDistance(t, start, m, cells)
    ensures !stop ==> SearchState(t, start, start, queue[1..] + added, visited', distances', done + {queue[0]})
    ensures !stop ==> Unexpanded(t, done + {queue[0]}) < Unexpanded(t, done)
    ensures !stop ==> |Smelled(t, start, m, cells, visited')| == |Smelled(t, start, m, cells, visited)| + inc
  {
    HeadKnown(t, start, start, queue, visited, distances, done);
    var top := queue[0];
    var d := distances[top];
    var neighbours := NeighboursOf(g, t, top);
    forall i | 0 <= i < |neighbours| ensures neighbours[i] in t {
      assert neighbours[i] in Nbrs(t, top);
    }
    stop, inc, visited', distances', added := ScanNeighbours(g, cells, neighbours, d, m, visited, distances);
    if stop {
      SmellStops(t, start, m, cells, queue, visited, distances, done);
    } else {
      SmellSteps(t, start, m, cells, queue, visited, distances, done, neighbours, visited', distances', added);
    }
  }

  /**
   * The inner loop of numOtyughsInNeighbouringNodes for a node at
   * distance d: each unvisited neighbour lies at d + 1 and is counted when
   * it holds an Otyugh and d + 1 is m; the first one beyond m stops the
   * whole search, otherwise it is recorded and queued.
   */
  method ScanNeighbours(g: array2<Node>, ghost cells: set<Pos>, neighbours: seq<Pos>, d: nat, m: nat,
                        visited: set<Pos>, distances: map<Pos, nat>)
    returns (stop: bool, inc: nat, visited': set<Pos>, distances': map<Pos, nat>, added: seq<Pos>)
    requires distances.Keys == visited
    requires forall i :: 0 <= i < |neighbours| && neighbours[i] !in visited ==>
      InGrid(g, neighbours[i]) && (neighbours[i] in cells <==> HasOtyugh(g[neighbours[i].row, neighbours[i].col]))
    ensures stop <==> d + 1 > m && exists v :: v in neighbours && v !in visited
    ensures !stop ==> Expansion(neighbours, d, visited, distances, visited', distances', added)
    ensures !stop ==> inc == if d + 1 == m then CountIn(added, cells) else 0
  {
    visited', distances', added, inc := visited, distances, [], 0;
    ExpansionStarts(d, visited, distances);
    var i := 0;
    while i < |neighbours|
      invariant 0 <= i <= |neighbours|
      invariant visited <= visited'
      invariant Expansion(neighbours[..i], d, visited, distances, visited', distances', added)
      invariant d + 1 > m ==> visited' == visited && forall v :: v in neighbours[..i] ==> v in visited
      invariant inc == if d + 1 == m then CountIn(added, cells) else 0
    {
      var nb := neighbours[i];
      assert neighbours[..i + 1] == neighbours[..i] + [nb];
      ExpansionGrows(neighbours[..i], nb, d, visited, distances, visited', distances', added);
      if nb !in visited' {
        var distance := d + 1;
        if HasOtyugh(g[nb.row, nb.col]) && distance == m {
          inc := inc + 1;
        }
        CountInAppend(added, nb, cells);
        visited' := visited' + {nb};
        if distance > m {
          return true, inc, visited', distances', added;
        }
        distances' := distances'[nb := distance];
        added := added + [nb];
      }
      i := i + 1;
    }
    assert neighbours[..i] == neighbours;
    stop := false;
  }
}
