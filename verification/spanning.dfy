/**
 * The spanning-tree step of DungeonImpl's random constructor and the two
 * steps after it. Node pairs are drawn at random from the grid's edges;
 * a pair whose ends already share a cloud is unlinked and becomes a
 * leftover, otherwise the two clouds merge. The interconnectivity step
 * links k leftovers again, and the cast turns every node into a cave or
 * a tunnel by its number of links. While they run, the grid is the
 * generateGraph grid with the leftovers still unlinked cut out of it.
 */
module Spanning {
  import opened Wrappers
  import opened Nodes
  import opened Topology
  import opened GridOps
  import opened Randomness
  import opened Draws
  import opened Grid
  import opened Forest
  import Text

  const RangeErrorHead: string := "Max interconnectivity allowed = "
  const RangeErrorTail: string :=
    ", greater interconnectivities do not guarantee viable start and end positions in dungeon, if you still want to increase interconnectivity then set forceInterconnectivityRange to true!"
  const ExceedErrorHead: string := "Max interconnectivity cannot exceed "

  // ------------------------------------------------------------------ the carved grid

  /** Side `d` of cell `p` once the edges in `removed` are unlinked. */
  function Side(rows: nat, cols: nat, wrap: bool, removed: seq<Edge>, p: Pos, d: Dir): Option<Pos>
    requires Inside(rows, cols, p)
  {
    if Neighbour(rows, cols, wrap, p, d).Some? && EdgeAt(rows, cols, wrap, p, d) !in removed
    then Neighbour(rows, cols, wrap, p, d)
    else None
  }

  function CarvedLinks(rows: nat, cols: nat, wrap: bool, removed: seq<Edge>, p: Pos): (l: Links)
    requires Inside(rows, cols, p)
    ensures forall d :: Link(l, d) == Side(rows, cols, wrap, removed, p, d)
  {
    Links(Side(rows, cols, wrap, removed, p, Up), Side(rows, cols, wrap, removed, p, Down),
          Side(rows, cols, wrap, removed, p, Right), Side(rows, cols, wrap, removed, p, Left))
  }

  /** The generic node at `p` once the edges in `removed` are unlinked. */
  function CarvedNode(rows: nat, cols: nat, wrap: bool, removed: seq<Edge>, p: Pos): Node
    requires Inside(rows, cols, p)
  {
    Node(CellName(cols, p), CarvedLinks(rows, cols, wrap, removed, p), Generic)
  }

  /** The grid is the generateGraph grid with the edges in `removed` unlinked. */
  ghost predicate Carved(g: array2<Node>, wrap: bool, removed: seq<Edge>)
    reads g
  {
    forall r, c :: 0 <= r < g.Length0 && 0 <= c < g.Length1 ==>
      g[r, c] == CarvedNode(g.Length0, g.Length1, wrap, removed, Pos(r, c))
  }

  /** Every node can be reached from the first one. */
  ghost predicate Connected(g: array2<Node>)
    reads g
  {
    forall p :: InGrid(g, p) ==> Reachable(TopologyOf(g), Pos(0, 0), p)
  }

  /** Every cell can be walked to from the first one without crossing a removed edge. */
  ghost predicate Spans(rows: nat, cols: nat, wrap: bool, removed: seq<Edge>)
  {
    forall p :: Inside(rows, cols, p) ==> exists w :: Walk(rows, cols, wrap, removed, w, Pos(0, 0), p)
  }

  /** The undirected edges of a grid, each counted once, by its right or bottom end. */
  ghost function LinkedEdges(g: array2<Node>): set<Edge>
    reads g
  {
    (set p | p in Cells(g.Length0, g.Length1) && Link(g[p.row, p.col].links, Right).Some? :: Edge(p, Right)) +
    (set p | p in Cells(g.Length0, g.Length1) && Link(g[p.row, p.col].links, Down).Some? :: Edge(p, Down))
  }

  /** The links of the node at `p` once side `d` of `a` and the opposite side of `b` are cleared. */
  function Cut(l: Links, p: Pos, a: Pos, d: Dir, b: Pos): Links
  {
    var l1 := if p == a then WithLink(l, d, None) else l;
    if p == b then WithLink(l1, Opposite(d), None) else l1
  }

  /** The links of the node at `p` once side `d` of `a` leads to `b` and the opposite side of `b` to `a`. */
  function Join(l: Links, p: Pos, a: Pos, d: Dir, b: Pos): Links
  {
    var l1 := if p == a then WithLink(l, d, Some(b)) else l;
    if p == b then WithLink(l1, Opposite(d), Some(a)) else l1
  }

  // ------------------------------------------------------------------ unlinking and linking

  /**
   * removeNeighbour(a, b): the first side of `a`, in the order left,
   * right, top, bottom, that leads to `b` is cleared, and so is the
   * opposite side of `b`. Nothing happens when no side leads to `b`.
   */
  method RemoveNeighbour(g: array2<Node>, a: Pos, b: Pos)
    requires InGrid(g, a) && InGrid(g, b)
    modifies g
    ensures SelfSide(old(g[a.row, a.col].links), b).None? ==> unchanged(g)
    ensures SelfSide(old(g[a.row, a.col].links), b).Some? ==>
      var d := SelfSide(old(g[a.row, a.col].links), b).value;
      forall r, c :: 0 <= r < g.Length0 && 0 <= c < g.Length1 ==>
        g[r, c] == old(g[r, c]).(links := Cut(old(g[r, c].links), Pos(r, c), a, d, b))
  {
    var side := SelfSide(g[a.row, a.col].links, b);
    if side.None? {
      return;
    }
    var d := side.value;
    // clearing a side never names the node itself, so the setters accept it
    g[a.row, a.col] := SetLink(g[a.row, a.col], a, d, None).value;
    g[b.row, b.col] := SetLink(g[b.row, b.col], b, Opposite(d), None).value;
    forall r, c | 0 <= r < g.Length0 && 0 <= c < g.Length1
      ensures g[r, c] == old(g[r, c]).(links := Cut(old(g[r, c].links), Pos(r, c), a, d, b))
    {
      if Pos(r, c) != a && Pos(r, c) != b {
        assert g[r, c] == old(g[r, c]);
      }
    }
  }

  /**
   * addConnection(a, b, d): side `d` of `a` is set to `b` and the
   * opposite side of `b` to `a`, through the setters, which refuse to
   * link a node to itself.
   */
  method AddConnection(g: array2<Node>, a: Pos, b: Pos, d: Dir) returns (err: Option<Error>)
    requires InGrid(g, a) && InGrid(g, b)
    modifies g
    ensures err.Some? <==> a == b
    ensures err.Some? ==> err.value == IllegalArgument("Cannot set " + SideName(d) + SelfLinkSuffix) && unchanged(g)
    ensures err.None? ==> forall r, c :: 0 <= r < g.Length0 && 0 <= c < g.Length1 ==>
      g[r, c] == old(g[r, c]).(links := Join(old(g[r, c].links), Pos(r, c), a, d, b))
  {
    var first := SetLink(g[a.row, a.col], a, d, Some(b));
    if first.Err? {
      return Some(first.error);
    }
    g[a.row, a.col] := first.value;
    g[b.row, b.col] := SetLink(g[b.row, b.col], b, Opposite(d), Some(a)).value;
    forall r, c | 0 <= r < g.Length0 && 0 <= c < g.Length1
      ensures g[r, c] == old(g[r, c]).(links := Join(old(g[r, c].links), Pos(r, c), a, d, b))
    {
      if Pos(r, c) != a && Pos(r, c) != b {
        assert g[r, c] == old(g[r, c]);
      }
    }
    err := None;
  }

  /**
   * mergeClouds for the pair joined by edge `e`: when its two ends
   * already share a cloud, the pair is unlinked, in both directions, and
   * becomes a leftover; otherwise the cloud of the far end joins the
   * cloud of the near end and the grid is left alone.
   */
  method MergeClouds(g: array2<Node>, wrap: bool, clouds: Clouds, e: Edge, ghost removed: seq<Edge>)
    returns (merged: Clouds, leftover: bool)
    requires Sized(g.Length0, g.Length1) && IsGridEdge(g.Length0, g.Length1, wrap, e) && e !in removed
    requires Carved(g, wrap, removed) && Partition(g.Length0, g.Length1, clouds)
    modifies g
    ensures leftover <==> clouds[e.from] == clouds[Far(g.Length0, g.Length1, wrap, e)]
    ensures leftover ==> merged == clouds && Carved(g, wrap, removed + [e])
    ensures !leftover ==> merged == Merge(clouds, clouds[e.from], clouds[Far(g.Length0, g.Length1, wrap, e)])
    ensures !leftover ==> unchanged(g)
  {
    var x, y := e.from, Far(g.Length0, g.Length1, wrap, e);
    if clouds[x] != clouds[y] {
      return Merge(clouds, clouds[x], clouds[y]), false;
    }
    Unlink(g, wrap, e, removed);
    return clouds, true;
  }

  /** The leftover branch of mergeClouds: removeNeighbour from the near end, then from the far end. */
  method Unlink(g: array2<Node>, wrap: bool, e: Edge, ghost removed: seq<Edge>)
    requires Sized(g.Length0, g.Length1) && IsGridEdge(g.Length0, g.Length1, wrap, e) && e !in removed
    requires Carved(g, wrap, removed)
    modifies g
    ensures Carved(g, wrap, removed + [e])
  {
    var rows, cols := g.Length0, g.Length1;
    var x, y := e.from, Far(rows, cols, wrap, e);
    CutCarved(rows, cols, wrap, removed, e, x);
    RemoveNeighbour(g, x, y);
    forall r, c | 0 <= r < rows && 0 <= c < cols
      ensures g[r, c] == CarvedNode(rows, cols, wrap, removed + [e], Pos(r, c))
    {
      CutCarved(rows, cols, wrap, removed, e, Pos(r, c));
    }
    NoOtherSide(rows, cols, wrap, removed + [e], e);
    RemoveNeighbour(g, y, x);
  }

  /**
   * generateMinSpanTree: node pairs are drawn one at a time, without
   * replacement, and handed to mergeClouds until none is left. The grid
   * that remains is a spanning tree of the generateGraph grid: it is
   * connected and has one edge fewer than it has nodes. The leftovers are
   * the grid edges it lacks, in the order they were drawn.
   */
  method SpanningTree(g: array2<Node>, wrap: bool, rng: Rng) returns (leftover: seq<Edge>)
    requires Sized(g.Length0, g.Length1)
    requires forall r, c :: 0 <= r < g.Length0 && 0 <= c < g.Length1 ==> g[r, c] == GridNode(g.Length0, g.Length1, wrap, Pos(r, c))
    modifies g, rng
    ensures Carved(g, wrap, leftover) && Spans(g.Length0, g.Length1, wrap, leftover) && Connected(g)
    ensures Distinct(leftover) && forall e :: e in leftover ==> IsGridEdge(g.Length0, g.Length1, wrap, e)
    ensures |leftover| + g.Length0 * g.Length1 - 1 == |GridEdges(g.Length0, g.Length1, wrap)|
    ensures |LinkedEdges(g)| == g.Length0 * g.Length1 - 1
    ensures rng.used == old(rng.used) + |GridEdges(g.Length0, g.Length1, wrap)|
  {
    var rows, cols := g.Length0, g.Length1;
    ghost var cells := CellList(rows, cols);
    var clouds := InitialClouds(rows, cols);
    var pairs := GridEdges(rows, cols, wrap);
    leftover := [];
    ghost var processed: seq<Edge> := [];
    ghost var walks: map<Pos, seq<Pos>> := Stays(rows, cols);
    TreeStart(g, wrap);
    while true
      invariant |pairs| > 0 && Growing(g, wrap, cells, pairs, processed, leftover, clouds, walks)
      invariant rng.used == old(rng.used) + |processed|
      decreases |pairs|
    {
      pairs, processed, leftover, clouds, walks := DrawPair(g, wrap, rng, cells, pairs, processed, leftover, clouds, walks);
      if |pairs| == 0 {
        break;
      }
    }
    TreeEnd(g, wrap, cells, processed, leftover, clouds, walks);
    CarvedConnected(g, wrap, leftover);
    CarvedEdgeCount(g, wrap, leftover);
  }

  /**
   * One round of generateMinSpanTree's loop: a pair drawn at random from
   * those left, handed to mergeClouds, and struck off.
   */
  method DrawPair(g: array2<Node>, wrap: bool, rng: Rng, ghost cells: seq<Pos>, pairs: seq<Edge>, ghost processed: seq<Edge>,
                  leftover: seq<Edge>, clouds: Clouds, ghost walks: map<Pos, seq<Pos>>)
    returns (pairs': seq<Edge>, ghost processed': seq<Edge>, leftover': seq<Edge>, clouds': Clouds, ghost walks': map<Pos, seq<Pos>>)
    requires |pairs| > 0 && Growing(g, wrap, cells, pairs, processed, leftover, clouds, walks)
    modifies g, rng
    ensures Growing(g, wrap, cells, pairs', processed', leftover', clouds', walks')
    ensures |pairs'| == |pairs| - 1 && |processed'| == |processed| + 1 && rng.used == old(rng.used) + 1
  {
    var idx := rng.NextInt(|pairs|);
    pairs', processed', leftover', clouds', walks' := Settle(g, wrap, cells, pairs, processed, leftover, clouds, walks, idx);
  }

  /** The pair at `idx` handed to mergeClouds and struck off. */
  method Settle(g: array2<Node>, wrap: bool, ghost cells: seq<Pos>, pairs: seq<Edge>, ghost processed: seq<Edge>,
                leftover: seq<Edge>, clouds: Clouds, ghost walks: map<Pos, seq<Pos>>, idx: nat)
    returns (pairs': seq<Edge>, ghost processed': seq<Edge>, leftover': seq<Edge>, clouds': Clouds, ghost walks': map<Pos, seq<Pos>>)
    requires idx < |pairs| && Growing(g, wrap, cells, pairs, processed, leftover, clouds, walks)
    modifies g
    ensures Growing(g, wrap, cells, pairs', processed', leftover', clouds', walks')
    ensures pairs' == RemoveAt(pairs, idx) && processed' == processed + [pairs[idx]]
  {
    var rows, cols := g.Length0, g.Length1;
    var e := pairs[idx];
    assert IsGridEdge(rows, cols, wrap, e) && e !in leftover by {
      RoundEdge(rows, cols, wrap, cells, pairs, processed, leftover, clouds, walks, idx);
    }
    pairs' := RemoveAt(pairs, idx);
    processed' := processed + [e];
    var left;
    clouds', left := MergeClouds(g, wrap, clouds, e, leftover);
    if left {
      KeepRound(rows, cols, wrap, cells, pairs, processed, leftover, clouds, walks, idx);
      leftover', walks' := leftover + [e], walks;
    } else {
      walks' := MergeRound(rows, cols, wrap, cells, pairs, processed, leftover, clouds, walks, idx);
      leftover' := leftover;
    }
  }

  /**
   * increaseInterconnectivity: with a positive interconnectivity `k`, `k`
   * leftover pairs drawn at random are linked back into the grid, after the
   * range checks on `k`. Each added pair makes one more path between the
   * nodes it joins. A draw from an exhausted leftover list fails as
   * java.util.Random.nextInt does.
   */
  method Interconnect(g: array2<Node>, wrap: bool, k: int, force: bool, leftover: seq<Edge>, rng: Rng)
    returns (err: Option<Error>, rest: seq<Edge>)
    requires Sized(g.Length0, g.Length1) && Carved(g, wrap, leftover) && Distinct(leftover)
    requires forall e :: e in leftover ==> IsGridEdge(g.Length0, g.Length1, wrap, e)
    modifies g, rng
    ensures var m := Min(g.Length0, g.Length1);
      err.Some? <==> k > 0 && ((!force && k > m) || k > |leftover|)
    ensures var m := Min(g.Length0, g.Length1);
      k > 0 && !force && k > m ==> err == Some(IllegalArgument(RangeErrorHead + Text.NatToString(m) + RangeErrorTail)) && unchanged(g)
    ensures k > 0 && force && k > |leftover| ==>
      err == Some(IllegalArgument(ExceedErrorHead + Text.NatToString(|leftover|) + "!")) && unchanged(g)
    ensures var m := Min(g.Length0, g.Length1);
      k > 0 && !force && |leftover| < k <= m ==> err == Some(IllegalArgument(BoundError))
    ensures k <= 0 ==> rest == leftover && unchanged(g) && rng.used == old(rng.used)
    ensures err.None? ==> Carved(g, wrap, rest) && Distinct(rest) && (forall e :: e in rest ==> e in leftover)
    ensures err.None? && k > 0 ==> |rest| + k == |leftover| && rng.used == old(rng.used) + k
    ensures err.None? ==> |LinkedEdges(g)| == |GridEdges(g.Length0, g.Length1, wrap)| - |rest|
  {
    rest := leftover;
    if k <= 0 {
      CarvedEdgeCount(g, wrap, rest);
      return None, rest;
    }
    var m := Min(g.Length0, g.Length1);
    if k > m && !force {
      return Some(IllegalArgument(RangeErrorHead + Text.NatToString(m) + RangeErrorTail)), rest;
    } else if force && k > |leftover| {
      return Some(IllegalArgument(ExceedErrorHead + Text.NatToString(|leftover|) + "!")), rest;
    }
    var done := 0;
    ghost var joined: seq<Edge> := [];
    while done < k
      invariant 0 <= done <= k && done == |joined| && Drawn(leftover, rest, joined)
      invariant Carved(g, wrap, rest) && rng.used == old(rng.used) + done
    {
      if |rest| == 0 {
        return Some(IllegalArgument(BoundError)), rest;
      }
      var idx := rng.NextInt(|rest|);
      DrawStep(leftover, rest, joined, idx);
      joined := joined + [rest[idx]];
      rest := Reconnect(g, wrap, rest, idx);
      done := done + 1;
    }
    CarvedEdgeCount(g, wrap, rest);
    err := None;
  }

  function Min(a: nat, b: nat): (m: nat)
    ensures m <= a && m <= b && (m == a || m == b)
  {
    if a < b then a else b
  }

  /** The leftover pair at `idx` linked back into the grid with addConnection, and struck off. */
  method Reconnect(g: array2<Node>, wrap: bool, rest: seq<Edge>, idx: nat) returns (rest': seq<Edge>)
    requires Sized(g.Length0, g.Length1) && idx < |rest| && Distinct(rest) && Carved(g, wrap, rest)
    requires forall e :: e in rest ==> IsGridEdge(g.Length0, g.Length1, wrap, e)
    modifies g
    ensures rest' == RemoveAt(rest, idx) && Carved(g, wrap, rest')
  {
    var e := rest[idx];
    assert e in rest;
    NoSelfLinks(g.Length0, g.Length1, wrap, e.from);
    var err := AddConnection(g, e.from, Far(g.Length0, g.Length1, wrap, e), e.dir);
    forall r, c | 0 <= r < g.Length0 && 0 <= c < g.Length1
      ensures g[r, c] == CarvedNode(g.Length0, g.Length1, wrap, RemoveAt(rest, idx), Pos(r, c))
    {
      JoinCarved(g.Length0, g.Length1, wrap, rest, idx, Pos(r, c));
    }
    rest' := RemoveAt(rest, idx);
  }

  /** Every cell's walk of one step, to itself. */
  ghost function Stays(rows: nat, cols: nat): map<Pos, seq<Pos>>
  {
    map p | p in Cells(rows, cols) :: [p]
  }

  /** The state generateMinSpanTree's loop keeps between rounds. */
  ghost predicate Growing(g: array2<Node>, wrap: bool, cells: seq<Pos>, pairs: seq<Edge>, processed: seq<Edge>,
                          leftover: seq<Edge>, clouds: Clouds, walks: map<Pos, seq<Pos>>)
    reads g
  {
    Carved(g, wrap, leftover) && Tally(g.Length0, g.Length1, wrap, cells, pairs, processed, leftover, clouds, walks)
  }

  /** The clouds, pairs and leftovers of that state, apart from the grid itself. */
  ghost predicate Tally(rows: nat, cols: nat, wrap: bool, cells: seq<Pos>, pairs: seq<Edge>, processed: seq<Edge>,
                        leftover: seq<Edge>, clouds: Clouds, walks: map<Pos, seq<Pos>>)
  {
    && Sized(rows, cols) && Distinct(cells) && (forall p :: p in cells <==> Inside(rows, cols, p))
    && Partition(rows, cols, clouds)
    && Drawn(GridEdges(rows, cols, wrap), pairs, processed)
    && (forall e :: IsGridEdge(rows, cols, wrap, e) <==> e in pairs || e in processed)
    && Distinct(leftover) && (forall e :: e in leftover ==> e in processed)
    && Settled(rows, cols, wrap, clouds, processed)
    && |processed| + Reps(clouds, cells) == rows * cols + |leftover|
    && Witnessed(rows, cols, wrap, leftover + pairs, clouds, walks)
  }

  /** Before the first round: every cell a cloud of its own, every grid edge still to draw. */
  lemma TreeStart(g: array2<Node>, wrap: bool)
    requires Sized(g.Length0, g.Length1)
    requires forall r, c :: 0 <= r < g.Length0 && 0 <= c < g.Length1 ==> g[r, c] == GridNode(g.Length0, g.Length1, wrap, Pos(r, c))
    ensures var rows, cols := g.Length0, g.Length1;
      |GridEdges(rows, cols, wrap)| > 0 &&
      Growing(g, wrap, CellList(rows, cols), GridEdges(rows, cols, wrap), [], [], InitialClouds(rows, cols),
              Stays(rows, cols))
  {
    NothingCarved(g, wrap);
    StartTally(g.Length0, g.Length1, wrap);
  }

  /** The clouds, pairs and walks before the first round. */
  lemma StartTally(rows: nat, cols: nat, wrap: bool)
    requires Sized(rows, cols)
    ensures |GridEdges(rows, cols, wrap)| > 0
    ensures Tally(rows, cols, wrap, CellList(rows, cols), GridEdges(rows, cols, wrap), [], [], InitialClouds(rows, cols),
                  Stays(rows, cols))
  {
    GridEdgesExact(rows, cols, wrap);
    CellListExact(rows, cols);
    assert IsGridEdge(rows, cols, wrap, Edge(Pos(0, 0), Right));
    InitialReps(rows, cols, CellList(rows, cols));
    StartWitnessed(rows, cols, wrap);
  }

  /** Before the first round every cell walks to its own cloud in no steps. */
  lemma StartWitnessed(rows: nat, cols: nat, wrap: bool)
    ensures Witnessed(rows, cols, wrap, GridEdges(rows, cols, wrap), InitialClouds(rows, cols), Stays(rows, cols))
  {
    var clouds, walks := InitialClouds(rows, cols), Stays(rows, cols);
    forall p | Inside(rows, cols, p) ensures p in clouds && p in walks && Walk(rows, cols, wrap, GridEdges(rows, cols, wrap), walks[p], p, clouds[p]) {
      assert p in Cells(rows, cols);
    }
  }

  /** After the last round: the leftovers are what the tree lacks, and the tree spans the grid. */
  lemma TreeEnd(g: array2<Node>, wrap: bool, cells: seq<Pos>, processed: seq<Edge>, leftover: seq<Edge>, clouds: Clouds,
                walks: map<Pos, seq<Pos>>)
    requires Growing(g, wrap, cells, [], processed, leftover, clouds, walks)
    ensures Carved(g, wrap, leftover) && Spans(g.Length0, g.Length1, wrap, leftover)
    ensures Distinct(leftover) && forall e :: e in leftover ==> IsGridEdge(g.Length0, g.Length1, wrap, e)
    ensures |leftover| + g.Length0 * g.Length1 - 1 == |GridEdges(g.Length0, g.Length1, wrap)|
  {
    var rows, cols := g.Length0, g.Length1;
    assert leftover + [] == leftover;
    TreeFacts(rows, cols, wrap, leftover, clouds, walks, processed, cells);
  }

  /** Each cell has a walk to the representative of its cloud that crosses no removed edge. */
  ghost predicate Witnessed(rows: nat, cols: nat, wrap: bool, removed: seq<Edge>, clouds: Clouds, walks: map<Pos, seq<Pos>>)
  {
    forall p :: Inside(rows, cols, p) ==> p in clouds && p in walks && Walk(rows, cols, wrap, removed, walks[p], p, clouds[p])
  }

  /** The two ends of every edge drawn so far share a cloud. */
  ghost predicate Settled(rows: nat, cols: nat, wrap: bool, clouds: Clouds, processed: seq<Edge>)
  {
    forall e :: e in processed ==> SameCloud(rows, cols, wrap, clouds, e)
  }

  /** Edge `e` is a grid edge whose two ends share a cloud. */
  ghost predicate SameCloud(rows: nat, cols: nat, wrap: bool, clouds: Clouds, e: Edge)
  {
    IsGridEdge(rows, cols, wrap, e) && e.from in clouds && Far(rows, cols, wrap, e) in clouds &&
    clouds[e.from] == clouds[Far(rows, cols, wrap, e)]
  }

  // ------------------------------------------------------------------ lemmas on the spanning tree

  /** The pair a round draws is a grid edge not yet among the leftovers. */
  lemma RoundEdge(rows: nat, cols: nat, wrap: bool, cells: seq<Pos>, pairs: seq<Edge>, processed: seq<Edge>,
                  leftover: seq<Edge>, clouds: Clouds, walks: map<Pos, seq<Pos>>, idx: nat)
    requires idx < |pairs| && Tally(rows, cols, wrap, cells, pairs, processed, leftover, clouds, walks)
    ensures IsGridEdge(rows, cols, wrap, pairs[idx]) && pairs[idx] !in leftover && pairs[idx] !in processed
  {
    assert pairs[idx] in pairs;
  }

  /** A round whose pair joins a cloud to itself keeps that pair as a leftover. */
  lemma KeepRound(rows: nat, cols: nat, wrap: bool, cells: seq<Pos>, pairs: seq<Edge>, processed: seq<Edge>,
                  leftover: seq<Edge>, clouds: Clouds, walks: map<Pos, seq<Pos>>, idx: nat)
    requires idx < |pairs| && Tally(rows, cols, wrap, cells, pairs, processed, leftover, clouds, walks)
    requires IsGridEdge(rows, cols, wrap, pairs[idx])
    requires clouds[pairs[idx].from] == clouds[Far(rows, cols, wrap, pairs[idx])]
    ensures Tally(rows, cols, wrap, cells, RemoveAt(pairs, idx), processed + [pairs[idx]], leftover + [pairs[idx]], clouds, walks)
  {
    var e, rest := pairs[idx], RemoveAt(pairs, idx);
    RoundEdge(rows, cols, wrap, cells, pairs, processed, leftover, clouds, walks, idx);
    DrawStep(GridEdges(rows, cols, wrap), pairs, processed, idx);
    RemoveAtMembers(pairs, idx);
    assert Distinct(leftover + [e]) by {
      DistinctConcat(leftover, [e]);
    }
    assert Settled(rows, cols, wrap, clouds, processed + [e]) by {
      assert SameCloud(rows, cols, wrap, clouds, e);
    }
    WitnessMono(rows, cols, wrap, leftover + pairs, (leftover + [e]) + rest, clouds, walks);
  }

  /** A round whose pair joins two clouds merges them, and the count of clouds drops by one. */
  lemma MergeRound(rows: nat, cols: nat, wrap: bool, cells: seq<Pos>, pairs: seq<Edge>, processed: seq<Edge>,
                   leftover: seq<Edge>, clouds: Clouds, walks: map<Pos, seq<Pos>>, idx: nat)
    returns (walks': map<Pos, seq<Pos>>)
    requires idx < |pairs| && Tally(rows, cols, wrap, cells, pairs, processed, leftover, clouds, walks)
    requires IsGridEdge(rows, cols, wrap, pairs[idx])
    requires clouds[pairs[idx].from] != clouds[Far(rows, cols, wrap, pairs[idx])]
    ensures var e := pairs[idx];
      Tally(rows, cols, wrap, cells, RemoveAt(pairs, idx), processed + [e], leftover,
            Merge(clouds, clouds[e.from], clouds[Far(rows, cols, wrap, e)]), walks')
  {
    var e, rest := pairs[idx], RemoveAt(pairs, idx);
    RoundEdge(rows, cols, wrap, cells, pairs, processed, leftover, clouds, walks, idx);
    DrawStep(GridEdges(rows, cols, wrap), pairs, processed, idx);
    RemoveAtMembers(pairs, idx);
    WitnessMono(rows, cols, wrap, leftover + pairs, leftover + rest, clouds, walks);
    walks' := MergeWalks(rows, cols, wrap, leftover + rest, clouds, walks, e);
    MergeStep(rows, cols, wrap, clouds, processed, e, cells);
  }

  /** Removing fewer edges keeps every cell's walk. */
  lemma WitnessMono(rows: nat, cols: nat, wrap: bool, removed: seq<Edge>, fewer: seq<Edge>, clouds: Clouds, walks: map<Pos, seq<Pos>>)
    requires Witnessed(rows, cols, wrap, removed, clouds, walks) && forall e :: e in fewer ==> e in removed
    ensures Witnessed(rows, cols, wrap, fewer, clouds, walks)
  {
    forall p | Inside(rows, cols, p) ensures Walk(rows, cols, wrap, fewer, walks[p], p, clouds[p]) {
      WalkMono(rows, cols, wrap, removed, fewer, walks[p], p, clouds[p]);
    }
  }

  /**
   * Drawing edge `e` whose ends lie in different clouds: the clouds
   * merge, the grid keeps a partition into clouds, one cloud fewer, and
   * the ends of every drawn edge still share a cloud.
   */
  lemma MergeStep(rows: nat, cols: nat, wrap: bool, clouds: Clouds, processed: seq<Edge>, e: Edge, cells: seq<Pos>)
    requires IsGridEdge(rows, cols, wrap, e)
    requires Partition(rows, cols, clouds) && Settled(rows, cols, wrap, clouds, processed)
    requires clouds[e.from] != clouds[Far(rows, cols, wrap, e)]
    requires Distinct(cells) && forall p :: p in cells <==> Inside(rows, cols, p)
    ensures var m := Merge(clouds, clouds[e.from], clouds[Far(rows, cols, wrap, e)]);
      Partition(rows, cols, m) && Settled(rows, cols, wrap, m, processed + [e]) &&
      Reps(m, cells) + 1 == Reps(clouds, cells)
  {
    var x, y := e.from, Far(rows, cols, wrap, e);
    var rx, ry := clouds[x], clouds[y];
    MergePartition(rows, cols, clouds, rx, ry);
    MergeReps(clouds, rx, ry, cells);
    SettledMerge(rows, cols, wrap, clouds, processed, e);
  }

  /** Merging the clouds of the two ends of `e` settles `e` and keeps every earlier edge settled. */
  lemma SettledMerge(rows: nat, cols: nat, wrap: bool, clouds: Clouds, processed: seq<Edge>, e: Edge)
    requires IsGridEdge(rows, cols, wrap, e)
    requires Partition(rows, cols, clouds) && Settled(rows, cols, wrap, clouds, processed)
    ensures Settled(rows, cols, wrap, Merge(clouds, clouds[e.from], clouds[Far(rows, cols, wrap, e)]), processed + [e])
  {
    var y := Far(rows, cols, wrap, e);
    var rx, ry := clouds[e.from], clouds[y];
    var m := Merge(clouds, rx, ry);
    forall f | f in processed + [e] ensures SameCloud(rows, cols, wrap, m, f) {
      if f != e {
        assert f in processed;
        assert SameCloud(rows, cols, wrap, clouds, f);
      }
    }
  }

  /**
   * After that merge, the cells of the far cloud reach their new
   * representative by a detour across `e`; every other cell keeps its walk.
   */
  lemma MergeWalks(rows: nat, cols: nat, wrap: bool, removed: seq<Edge>, clouds: Clouds, walks: map<Pos, seq<Pos>>, e: Edge)
    returns (walks': map<Pos, seq<Pos>>)
    requires IsGridEdge(rows, cols, wrap, e) && e !in removed
    requires Partition(rows, cols, clouds) && Witnessed(rows, cols, wrap, removed, clouds, walks)
    ensures Witnessed(rows, cols, wrap, removed, Merge(clouds, clouds[e.from], clouds[Far(rows, cols, wrap, e)]), walks')
  {
    var x, y := e.from, Far(rows, cols, wrap, e);
    var rx, ry := clouds[x], clouds[y];
    var m := Merge(clouds, rx, ry);
    walks' := map p | p in walks :: if p in clouds && clouds[p] == ry then Detour(walks[p], walks[y], walks[x]) else walks[p];
    forall p | Inside(rows, cols, p) ensures p in m && p in walks' && Walk(rows, cols, wrap, removed, walks'[p], p, m[p]) {
      if clouds[p] == ry {
        assert walks'[p] == Detour(walks[p], walks[y], walks[x]) && m[p] == rx;
        DetourWalks(rows, cols, wrap, removed, e, walks[p], walks[y], walks[x], p, rx, ry);
      } else {
        assert walks'[p] == walks[p] && m[p] == clouds[p];
      }
    }
  }

  /**
   * Once every edge of the grid is settled, one cloud is left and every
   * cell can be walked to from the first one.
   */
  lemma TreeFacts(rows: nat, cols: nat, wrap: bool, removed: seq<Edge>, clouds: Clouds, walks: map<Pos, seq<Pos>>,
                  processed: seq<Edge>, cells: seq<Pos>)
    requires Sized(rows, cols) && Partition(rows, cols, clouds) && Settled(rows, cols, wrap, clouds, processed)
    requires forall e :: IsGridEdge(rows, cols, wrap, e) ==> e in processed
    requires Witnessed(rows, cols, wrap, removed, clouds, walks)
    requires Distinct(cells) && forall p :: p in cells <==> Inside(rows, cols, p)
    ensures Reps(clouds, cells) == 1
    ensures Spans(rows, cols, wrap, removed)
  {
    OneCloud(rows, cols, wrap, clouds);
    var root := clouds[Pos(0, 0)];
    OneRep(clouds, root, cells);
    forall p | Inside(rows, cols, p) ensures exists w :: Walk(rows, cols, wrap, removed, w, Pos(0, 0), p) {
      WalkReverse(rows, cols, wrap, removed, walks[p], p, root);
      WalkGlue(rows, cols, wrap, removed, walks[Pos(0, 0)], Reverse(walks[p]), Pos(0, 0), root, p);
    }
  }

  /** Two cells joined across an edge that is not removed are linked in the carved grid. */
  lemma JoinedLinked(g: array2<Node>, wrap: bool, removed: seq<Edge>, u: Pos, v: Pos)
    requires Carved(g, wrap, removed) && Joined(g.Length0, g.Length1, wrap, removed, u, v)
    ensures v in Nbrs(TopologyOf(g), u)
  {
    var rows, cols := g.Length0, g.Length1;
    var d := if JoinedBy(rows, cols, wrap, removed, u, v, Up) then Up
             else if JoinedBy(rows, cols, wrap, removed, u, v, Down) then Down
             else if JoinedBy(rows, cols, wrap, removed, u, v, Left) then Left
             else Right;
    assert Link(g[u.row, u.col].links, d) == Some(v);
    LinkIsNeighbour(TopologyOf(g), u, d);
  }

  /** The end of a path of linked nodes lies within the path's length of its start. */
  lemma {:induction false} PathInBall(t: Topo, w: seq<Pos>)
    requires |w| >= 1 && forall i :: 0 <= i < |w| - 1 ==> w[i + 1] in Nbrs(t, w[i])
    ensures w[|w| - 1] in Ball(t, w[0], |w| - 1)
    decreases |w|
  {
    if |w| > 1 {
      PathInBall(t, w[..|w| - 1]);
      BallGrows(t, w[0], |w| - 2, w[|w| - 2], w[|w| - 1]);
    }
  }

  /** A carved grid whose cells can all be walked to from the first is connected. */
  lemma CarvedConnected(g: array2<Node>, wrap: bool, removed: seq<Edge>)
    requires Carved(g, wrap, removed) && Spans(g.Length0, g.Length1, wrap, removed)
    ensures Connected(g)
  {
    forall p | InGrid(g, p) ensures Reachable(TopologyOf(g), Pos(0, 0), p) {
      assert Inside(g.Length0, g.Length1, p);
      var w :| Walk(g.Length0, g.Length1, wrap, removed, w, Pos(0, 0), p);
      forall i | 0 <= i < |w| - 1 ensures w[i + 1] in Nbrs(TopologyOf(g), w[i]) {
        JoinedLinked(g, wrap, removed, w[i], w[i + 1]);
      }
      PathInBall(TopologyOf(g), w);
    }
  }

  /** A walk that crosses no removed edge crosses none of a shorter list of removed edges either. */
  lemma SpansMono(rows: nat, cols: nat, wrap: bool, removed: seq<Edge>, fewer: seq<Edge>)
    requires Spans(rows, cols, wrap, removed) && forall e :: e in fewer ==> e in removed
    ensures Spans(rows, cols, wrap, fewer)
  {
    forall p | Inside(rows, cols, p) ensures exists w :: Walk(rows, cols, wrap, fewer, w, Pos(0, 0), p) {
      var w :| Walk(rows, cols, wrap, removed, w, Pos(0, 0), p);
      WalkMono(rows, cols, wrap, removed, fewer, w, Pos(0, 0), p);
    }
  }

  /** A carved grid has one edge for each grid edge that is not removed. */
  lemma CarvedEdgeCount(g: array2<Node>, wrap: bool, removed: seq<Edge>)
    requires Carved(g, wrap, removed) && Distinct(removed)
    requires forall e :: e in removed ==> IsGridEdge(g.Length0, g.Length1, wrap, e)
    ensures |LinkedEdges(g)| == |GridEdges(g.Length0, g.Length1, wrap)| - |removed|
  {
    var all := GridEdges(g.Length0, g.Length1, wrap);
    GridEdgesExact(g.Length0, g.Length1, wrap);
    LinkedEdgesExact(g, wrap, removed);
    CountBy(LinkedEdges(g), all, removed);
  }

  /** The edges of a carved grid are the grid edges that are not removed. */
  lemma LinkedEdgesExact(g: array2<Node>, wrap: bool, removed: seq<Edge>)
    requires Carved(g, wrap, removed)
    ensures forall e :: e in LinkedEdges(g) <==> IsGridEdge(g.Length0, g.Length1, wrap, e) && e !in removed
  {
    var rows, cols := g.Length0, g.Length1;
    forall e ensures e in LinkedEdges(g) <==> IsGridEdge(rows, cols, wrap, e) && e !in removed {
      if (e.dir == Right || e.dir == Down) && Inside(rows, cols, e.from) {
        var p := e.from;
        assert p in Cells(rows, cols);
        assert Link(g[p.row, p.col].links, e.dir) == Side(rows, cols, wrap, removed, p, e.dir);
      }
    }
  }

  /** The members of one list without repeats that are not in another have the difference in length as their number. */
  lemma CountBy<T>(s: set<T>, all: seq<T>, removed: seq<T>)
    requires Distinct(all) && Distinct(removed) && forall x :: x in removed ==> x in all
    requires forall x :: x in s <==> x in all && x !in removed
    ensures |s| == |all| - |removed|
  {
    var a, b := set x | x in all, set x | x in removed;
    DistinctCard(all);
    DistinctCard(removed);
    assert s == a - b;
    assert a == s + b && s * b == {};
  }

  /** A list without repeats has as many members as elements. */
  lemma {:induction false} DistinctCard<T>(s: seq<T>)
    requires Distinct(s)
    ensures |set x | x in s| == |s|
  {
    if |s| > 0 {
      assert Distinct(s[1..]);
      DistinctCard(s[1..]);
      assert (set x | x in s) == {s[0]} + (set x | x in s[1..]);
    }
  }

  // ------------------------------------------------------------------ lemmas on the carved grid

  /** Two links records that agree on every side are equal. */
  lemma SameLinks(l: Links, m: Links)
    requires forall d :: Link(l, d) == Link(m, d)
    ensures l == m
  {
    assert Link(l, Up) == Link(m, Up) && Link(l, Down) == Link(m, Down);
    assert Link(l, Left) == Link(m, Left) && Link(l, Right) == Link(m, Right);
  }

  /** The grid generateGraph builds is the carved grid with nothing removed. */
  lemma NothingCarved(g: array2<Node>, wrap: bool)
    requires forall r, c :: 0 <= r < g.Length0 && 0 <= c < g.Length1 ==> g[r, c] == GridNode(g.Length0, g.Length1, wrap, Pos(r, c))
    ensures Carved(g, wrap, [])
  {
    forall r, c | 0 <= r < g.Length0 && 0 <= c < g.Length1
      ensures g[r, c] == CarvedNode(g.Length0, g.Length1, wrap, [], Pos(r, c))
    {
      SameLinks(GridLinks(g.Length0, g.Length1, wrap, Pos(r, c)), CarvedLinks(g.Length0, g.Length1, wrap, [], Pos(r, c)));
    }
  }

  /** The two sides that lie on one edge name the same edge. */
  lemma FacingEdge(rows: nat, cols: nat, wrap: bool, p: Pos, d: Dir)
    requires Inside(rows, cols, p) && Neighbour(rows, cols, wrap, p, d).Some?
    ensures var q := Neighbour(rows, cols, wrap, p, d).value;
      Neighbour(rows, cols, wrap, q, Opposite(d)) == Some(p) &&
      EdgeAt(rows, cols, wrap, q, Opposite(d)) == EdgeAt(rows, cols, wrap, p, d)
  {
    var q := Neighbour(rows, cols, wrap, p, d).value;
    var e := EdgeAt(rows, cols, wrap, p, d);
    NeighbourSymmetric(rows, cols, wrap, p, d);
    EdgeAtUnique(rows, cols, wrap, p, d, e);
    OppositeInvolutive(d);
    EdgeAtUnique(rows, cols, wrap, q, Opposite(d), e);
  }

  /**
   * A carved grid keeps the shape of the generateGraph grid: links are
   * symmetric and stay in the grid, no node is linked to itself, and every
   * node is still generic.
   */
  lemma CarvedShape(g: array2<Node>, wrap: bool, removed: seq<Edge>)
    requires Sized(g.Length0, g.Length1) && Carved(g, wrap, removed)
    ensures Symmetric(g) && LinksInGrid(g)
    ensures forall r, c :: 0 <= r < g.Length0 && 0 <= c < g.Length1 ==>
      !IsLink(g[r, c].links, Pos(r, c)) && g[r, c].kind.Generic?
  {
    var rows, cols := g.Length0, g.Length1;
    forall r, c, d | 0 <= r < rows && 0 <= c < cols && Link(g[r, c].links, d).Some?
      ensures var q := Link(g[r, c].links, d).value;
        InGrid(g, q) && Link(g[q.row, q.col].links, Opposite(d)) == Some(Pos(r, c))
    {
      FacingEdge(rows, cols, wrap, Pos(r, c), d);
    }
    forall r, c | 0 <= r < rows && 0 <= c < cols
      ensures LinksWithin(rows, cols, g[r, c].links) && !IsLink(g[r, c].links, Pos(r, c))
    {
      NoSelfLinks(rows, cols, wrap, Pos(r, c));
    }
  }

  /**
   * Unlinking edge `e` of a carved grid: the first side of its near end
   * that leads to its far end is the edge's own side, and clearing that
   * side and the opposite side of the far end removes `e` from the grid.
   */
  lemma CutCarved(rows: nat, cols: nat, wrap: bool, removed: seq<Edge>, e: Edge, p: Pos)
    requires Sized(rows, cols) && IsGridEdge(rows, cols, wrap, e) && e !in removed && Inside(rows, cols, p)
    ensures SelfSide(CarvedLinks(rows, cols, wrap, removed, e.from), Far(rows, cols, wrap, e)) == Some(e.dir)
    ensures CarvedNode(rows, cols, wrap, removed + [e], p) ==
      CarvedNode(rows, cols, wrap, removed, p).(links := Cut(CarvedLinks(rows, cols, wrap, removed, p), p, e.from, e.dir, Far(rows, cols, wrap, e)))
  {
    var a, b := e.from, Far(rows, cols, wrap, e);
    NoSelfLinks(rows, cols, wrap, a);
    EdgeAtUnique(rows, cols, wrap, a, e.dir, e);
    forall d | d != e.dir ensures Link(CarvedLinks(rows, cols, wrap, removed, a), d) != Some(b) {
      SidesDistinct(rows, cols, wrap, a, e.dir, d);
    }
    forall d ensures Link(CarvedLinks(rows, cols, wrap, removed + [e], p), d) ==
      Link(Cut(CarvedLinks(rows, cols, wrap, removed, p), p, a, e.dir, b), d)
    {
      if Neighbour(rows, cols, wrap, p, d).Some? {
        EdgeAtUnique(rows, cols, wrap, p, d, e);
      }
    }
    SameLinks(CarvedLinks(rows, cols, wrap, removed + [e], p), Cut(CarvedLinks(rows, cols, wrap, removed, p), p, a, e.dir, b));
  }

  /** Once edge `e` is removed, no side of its far end leads to its near end. */
  lemma NoOtherSide(rows: nat, cols: nat, wrap: bool, removed: seq<Edge>, e: Edge)
    requires Sized(rows, cols) && IsGridEdge(rows, cols, wrap, e) && e in removed
    ensures SelfSide(CarvedLinks(rows, cols, wrap, removed, Far(rows, cols, wrap, e)), e.from).None?
  {
    var a, b := e.from, Far(rows, cols, wrap, e);
    FacingEdge(rows, cols, wrap, a, e.dir);
    forall d ensures Side(rows, cols, wrap, removed, b, d) != Some(a) {
      if d != Opposite(e.dir) {
        SidesDistinct(rows, cols, wrap, b, Opposite(e.dir), d);
      }
    }
  }

  /**
   * Linking again the leftover at index i of a carved grid, through its
   * own side and the opposite side of its far end, takes it out of the
   * removed edges.
   */
  lemma JoinCarved(rows: nat, cols: nat, wrap: bool, removed: seq<Edge>, i: nat, p: Pos)
    requires Sized(rows, cols) && i < |removed| && Distinct(removed) && IsGridEdge(rows, cols, wrap, removed[i])
    requires Inside(rows, cols, p)
    ensures var e := removed[i];
      CarvedNode(rows, cols, wrap, RemoveAt(removed, i), p) ==
      CarvedNode(rows, cols, wrap, removed, p).(links := Join(CarvedLinks(rows, cols, wrap, removed, p), p, e.from, e.dir, Far(rows, cols, wrap, e)))
  {
    var e := removed[i];
    var a, b := e.from, Far(rows, cols, wrap, e);
    RemoveAtMembers(removed, i);
    FacingEdge(rows, cols, wrap, a, e.dir);
    NoSelfLinks(rows, cols, wrap, a);
    forall d ensures Link(CarvedLinks(rows, cols, wrap, RemoveAt(removed, i), p), d) ==
      Link(Join(CarvedLinks(rows, cols, wrap, removed, p), p, a, e.dir, b), d)
    {
      if Neighbour(rows, cols, wrap, p, d).Some? {
        EdgeAtUnique(rows, cols, wrap, p, d, e);
      }
    }
    SameLinks(CarvedLinks(rows, cols, wrap, RemoveAt(removed, i), p), Join(CarvedLinks(rows, cols, wrap, removed, p), p, a, e.dir, b));
  }

  /** Without repeats, the list without its i-th element holds exactly the other elements. */
  lemma RemoveAtMembers<T>(s: seq<T>, i: nat)
    requires i < |s| && Distinct(s)
    ensures forall x :: x in RemoveAt(s, i) <==> x in s && x != s[i]
  {
    var t := RemoveAt(s, i);
    forall x | x in s && x != s[i] ensures x in t {
      var k :| 0 <= k < |s| && s[k] == x;
      assert t[if k < i then k else k - 1] == x;
    }
  }
}
