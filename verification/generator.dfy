/**
 * DungeonImpl's random constructor: the argument checks, then
 * generateRandomDungeon in its order. The grid is built and carved into a
 * spanning tree, k leftover pairs are linked again, the nodes are cast to
 * caves and tunnels, and then the Otyughs, the treasure, the arrows, the
 * start and end, the Yugoloth, the thief and the pit are placed. The
 * placements never touch a link, so the finished dungeon is exactly as
 * connected as the carved grid.
 */
module Generator {
  import opened Wrappers
  import opened Nodes
  import opened Topology
  import opened GridOps
  import opened Randomness
  import opened Draws
  import opened Grid
  import opened Spanning
  import opened Casting
  import Population
  import Engine
  import Otyughs

  const RowsArg: string := "Number of rows"
  const ColsArg: string := "Number of columns"
  const InterconnectivityArg: string := "Interconnectivity"
  const ShareArg: string := "Percentage of caves that have treasure"
  const NegativeSuffix: string := " is expected to be positive!"
  const ZeroShareError: string := "Percentage of caves that have treasure is expected to be non-zero."
  const FullShareError: string := "Percentage of caves that have treasure is expected to be less than or equal to 100."
  const NodesOtyughsError: string :=
    "Number of otyughs is expected to be less than or equal to the number of nodes in the dungeon!"
  const CavesOtyughsError: string := "Number of otyughs cannot exceed number of caves!"

  /**
   * performChecksRandom: the first failed check, in the program's order.
   * The share of caves with treasure is a fraction in (0, 1].
   */
  function RandomArgsError(rows: int, cols: int, k: int, share: real, numOtyughs: int): (r: Option<Error>)
    ensures r.None? <==>
      rows >= MinRowsCols && cols >= MinRowsCols && k >= 0 && 0.0 < share <= 1.0 && 0 <= numOtyughs <= rows * cols
    ensures r.Some? ==> r.value.IllegalArgument?
    ensures rows < 0 ==> r == Some(IllegalArgument(RowsArg + NegativeSuffix))
    ensures 0 <= rows < MinRowsCols && cols >= 0 && k >= 0 && share >= 0.0 ==> r == Some(IllegalArgument(Engine.MinRowsError))
  {
    if rows < 0 then Some(IllegalArgument(RowsArg + NegativeSuffix))
    else if cols < 0 then Some(IllegalArgument(ColsArg + NegativeSuffix))
    else if k < 0 then Some(IllegalArgument(InterconnectivityArg + NegativeSuffix))
    else if share < 0.0 then Some(IllegalArgument(ShareArg + NegativeSuffix))
    else if rows < MinRowsCols then Some(IllegalArgument(Engine.MinRowsError))
    else if cols < MinRowsCols then Some(IllegalArgument(Engine.MinColsError))
    else if share == 0.0 then Some(IllegalArgument(ZeroShareError))
    else if share > 1.0 then Some(IllegalArgument(FullShareError))
    else if numOtyughs > rows * cols then Some(IllegalArgument(NodesOtyughsError))
    else if numOtyughs < 0 then Some(IllegalArgument(Engine.NegativeOtyughsError))
    else None
  }

  /**
   * The random constructor. `u1` and `u2` are the two Math.random() values
   * that widen the treasure and arrow shares, `counter` the Otyugh
   * counter. A dungeon it returns is connected, has k links beyond a
   * spanning tree, holds caves and tunnels by their number of links, and
   * its start and end are at least 5 moves apart.
   */
  method Create(rows: int, cols: int, k: int, wrap: bool, share: real, force: bool, numOtyughs: int,
                rng: Rng, u1: real, u2: real, counter: nat)
    returns (r: Result<Engine.Dungeon>)
    requires 0.0 <= u1 < 1.0 && 0.0 <= u2 < 1.0
    modifies rng
    ensures RandomArgsError(rows, cols, k, share, numOtyughs).Some? ==>
      r == Err(RandomArgsError(rows, cols, k, share, numOtyughs).value)
    ensures r.Ok? ==> var d := r.value;
      fresh(d) && fresh(d.graph) && d.Valid() && d.graph.Length0 == rows && d.graph.Length1 == cols &&
      Connected(d.graph) && |LinkedEdges(d.graph)| == rows * cols - 1 + k && ByDegree(d.graph) &&
      d.start != d.end && Engine.FarApart(TopologyOf(d.graph), d.start, d.end)
  {
    var bad := RandomArgsError(rows, cols, k, share, numOtyughs);
    if bad.Some? {
      return Err(bad.value);
    }
    var err, g, caves := Maze(rows, cols, k, wrap, force, rng);
    if err.Some? {
      return Err(err.value);
    }
    ghost var s := Snapshot(g);
    SnapshotByDegree(g);
    CorridorsOf(g);
    r := Populate(g, caves, wrap, share, numOtyughs, rng, u1, u2, counter);
    if r.Ok? {
      CorridorsOf(g);
      MatchesByDegree(g, s);
    }
  }

  /** A cave when it has 1, 3 or 4 links, a tunnel when it has 2. */
  predicate TypedByDegree(n: Node)
  {
    (n.kind.Cave? <==> Degree(n.links) in {1, 3, 4}) && (n.kind.Tunnel? <==> Degree(n.links) == 2)
  }

  /** Every node of the grid is typed by its number of links. */
  ghost predicate ByDegree(g: array2<Node>)
    reads g
  {
    forall r, c :: 0 <= r < g.Length0 && 0 <= c < g.Length1 ==> TypedByDegree(g[r, c])
  }

  /** A cave or a tunnel as the cast leaves it: empty. */
  predicate Bare(n: Node)
  {
    n.kind == Cave([], None, 0, false, false, false) || n.kind == Tunnel(0, false, false)
  }

  /** Every node of the grid is bare. */
  ghost predicate AllBare(g: array2<Node>)
    reads g
  {
    forall r, c :: 0 <= r < g.Length0 && 0 <= c < g.Length1 ==> Bare(g[r, c])
  }

  /** A node the cast does not leave generic comes out typed by its number of links, and bare. */
  lemma CastTyped(n: Node)
    requires n.kind.Generic? && !Cast(n).kind.Generic?
    ensures TypedByDegree(Cast(n)) && Bare(Cast(n)) && Cast(n).links == n.links
  {
  }

  /**
   * The first half of generateRandomDungeon: generateGraph, the spanning
   * tree, the extra links and the cast. Asking for more extra links than
   * allowed, or than there are leftovers, fails as
   * increaseInterconnectivity does.
   */
  method Maze(rows: nat, cols: nat, k: nat, wrap: bool, force: bool, rng: Rng)
    returns (err: Option<Error>, g: array2<Node>, caves: seq<Pos>)
    requires Sized(rows, cols)
    modifies rng
    ensures fresh(g) && g.Length0 == rows && g.Length1 == cols
    ensures err.Some? <==>
      k > 0 && ((!force && k > Min(rows, cols)) || k + rows * cols - 1 > |GridEdges(rows, cols, wrap)|)
    ensures err.None? ==> Connected(g) && |LinkedEdges(g)| == rows * cols - 1 + k && LinksInGrid(g)
    ensures err.None? ==> ByDegree(g) && AllBare(g)
    ensures err.None? ==> RowMajor(caves) && forall p :: p in caves <==> InGrid(g, p) && g[p.row, p.col].kind.Cave?
  {
    caves := [];
    err, g := Carve(rows, cols, k, wrap, force, rng);
    if err.Some? {
      return;
    }
    caves := CastAll(g);
  }

  /**
   * castNodesToCaveTunnelNode on the carved grid: the links stay as they
   * are, so the grid stays connected with the same linked pairs, and every
   * node comes out an empty cave or tunnel typed by its number of links.
   */
  method CastAll(g: array2<Node>) returns (caves: seq<Pos>)
    requires ReadyToCast(g)
    modifies g
    ensures Connected(g) && LinkedEdges(g) == old(LinkedEdges(g)) && LinksInGrid(g)
    ensures ByDegree(g) && AllBare(g)
    ensures RowMajor(caves) && forall p :: p in caves <==> InGrid(g, p) && g[p.row, p.col].kind.Cave?
  {
    ghost var t := TopologyOf(g);
    CorridorsOf(g);
    label carved:
    caves := CastNodes(g);
    forall r, c | 0 <= r < g.Length0 && 0 <= c < g.Length1
      ensures Pos(r, c) in t && g[r, c].links == t[Pos(r, c)] && TypedByDegree(g[r, c]) && Bare(g[r, c])
    {
      CastTyped(old@carved(g[r, c]));
    }
    SameTopology(g, t);
    CorridorsOf(g);
    assert Connected(g) by {
      forall p | InGrid(g, p) ensures Reachable(TopologyOf(g), Pos(0, 0), p) {
        assert Reachable(t, Pos(0, 0), p);
      }
    }
  }

  /**
   * generateGraph, generateMinSpanTree and increaseInterconnectivity: a
   * connected grid of generic nodes with k links beyond a spanning tree,
   * ready for the cast.
   */
  method Carve(rows: nat, cols: nat, k: nat, wrap: bool, force: bool, rng: Rng)
    returns (err: Option<Error>, g: array2<Node>)
    requires Sized(rows, cols)
    modifies rng
    ensures fresh(g) && g.Length0 == rows && g.Length1 == cols
    ensures err.Some? <==>
      k > 0 && ((!force && k > Min(rows, cols)) || k + rows * cols - 1 > |GridEdges(rows, cols, wrap)|)
    ensures err.None? ==> ReadyToCast(g) && |LinkedEdges(g)| == rows * cols - 1 + k
  {
    var leftover;
    g, leftover := Tree(rows, cols, wrap, rng);
    var rest;
    err, rest := Interconnect(g, wrap, k, force, leftover, rng);
    if err.Some? {
      return;
    }
    Ready(g, wrap, leftover, rest);
  }

  /** A connected grid of generic nodes whose links answer each other, none of which the cast leaves generic. */
  ghost predicate ReadyToCast(g: array2<Node>)
    reads g
  {
    && Connected(g) && Symmetric(g) && LinksInGrid(g) && Plain(g)
    && forall r, c :: 0 <= r < g.Length0 && 0 <= c < g.Length1 ==> !Cast(g[r, c]).kind.Generic?
  }

  /** generateGraph and generateMinSpanTree: a spanning tree of the grid and the pairs it left unlinked. */
  method Tree(rows: nat, cols: nat, wrap: bool, rng: Rng) returns (g: array2<Node>, leftover: seq<Edge>)
    requires Sized(rows, cols)
    modifies rng
    ensures fresh(g) && g.Length0 == rows && g.Length1 == cols
    ensures Carved(g, wrap, leftover) && Spans(rows, cols, wrap, leftover)
    ensures Distinct(leftover) && forall e :: e in leftover ==> IsGridEdge(rows, cols, wrap, e)
    ensures |leftover| + rows * cols - 1 == |GridEdges(rows, cols, wrap)|
  {
    g := GenerateGraph(rows, cols, wrap);
    leftover := SpanningTree(g, wrap, rng);
  }

  /** A grid carved down from a spanning one is connected, symmetric and ready for the cast. */
  lemma Ready(g: array2<Node>, wrap: bool, removed: seq<Edge>, fewer: seq<Edge>)
    requires Sized(g.Length0, g.Length1) && Carved(g, wrap, fewer)
    requires Spans(g.Length0, g.Length1, wrap, removed) && forall e :: e in fewer ==> e in removed
    ensures ReadyToCast(g)
  {
    SpansMono(g.Length0, g.Length1, wrap, removed, fewer);
    CarvedConnected(g, wrap, fewer);
    CarvedShape(g, wrap, fewer);
    NoneLeftGeneric(g);
  }

  /** A grid whose every node has the links `t` records has `t` as its topology. */
  lemma SameTopology(g: array2<Node>, t: Topo)
    requires forall p :: p in t <==> InGrid(g, p)
    requires forall r, c :: 0 <= r < g.Length0 && 0 <= c < g.Length1 ==> Pos(r, c) in t && g[r, c].links == t[Pos(r, c)]
    ensures TopologyOf(g) == t
  {
  }

  /**
   * The second half of generateRandomDungeon, on the cast grid: the
   * Otyughs, the treasure and the arrows, then the start, the end and the
   * creatures, then the dungeon itself. No link and no node type changes.
   */
  method Populate(g: array2<Node>, caves: seq<Pos>, wrap: bool, share: real, numOtyughs: int,
                  rng: Rng, u1: real, u2: real, counter: nat)
    returns (r: Result<Engine.Dungeon>)
    requires LinksInGrid(g) && AllBare(g) && 0.0 < share <= 1.0 && 0.0 <= u1 < 1.0 && 0.0 <= u2 < 1.0
    requires RowMajor(caves) && forall p :: p in caves <==> InGrid(g, p) && g[p.row, p.col].kind.Cave?
    modifies g, rng
    ensures numOtyughs > |caves| ==> r == Err(IllegalArgument(CavesOtyughsError))
    ensures numOtyughs <= |caves| && numOtyughs < 2 ==> r == Err(IllegalArgument(BoundError))
    ensures r.Ok? ==> var d := r.value;
      fresh(d) && d.graph == g && d.Valid() && TopologyOf(g) == old(TopologyOf(g)) &&
      d.start != d.end && Engine.FarApart(TopologyOf(g), d.start, d.end)
    ensures r.Ok? ==> Matches(g, old(Snapshot(g)))
  {
    ghost var s := Snapshot(g);
    MatchedTopology(g, s);
    var err, os := Stock(g, caves, share, numOtyughs, rng, u1, counter, s);
    if err.Some? {
      return Err(err.value);
    }
    err := Arm(g, share, rng, u2, s);
    if err.Some? {
      return Err(err.value);
    }
    r := Place(g, wrap, numOtyughs, rng, counter, os, s);
    if r.Ok? {
      MatchedTopology(g, s);
    }
  }

  /**
   * addOtyughsToCave on a copy of the cave list, after the check that
   * there are enough caves, then addTreasureToCaves on the caves.
   */
  method Stock(g: array2<Node>, caves: seq<Pos>, share: real, numOtyughs: int, rng: Rng, u1: real, counter: nat,
               ghost s: map<Pos, Node>)
    returns (err: Option<Error>, os: seq<Otyughs.Otyugh>)
    requires LinksInGrid(g) && AllBare(g) && Matches(g, s) && 0.0 < share <= 1.0 && 0.0 <= u1 < 1.0
    requires RowMajor(caves) && forall p :: p in caves <==> InGrid(g, p) && g[p.row, p.col].kind.Cave?
    modifies g, rng
    ensures numOtyughs > |caves| ==> err == Some(IllegalArgument(CavesOtyughsError))
    ensures numOtyughs <= |caves| && numOtyughs < 2 ==> err == Some(IllegalArgument(BoundError))
    ensures err.None? ==> LinksInGrid(g) && Matches(g, s) && |os| == numOtyughs - 1
  {
    if numOtyughs > |caves| {
      return Some(IllegalArgument(CavesOtyughsError)), [];
    }
    RowMajorDistinct(caves);
    var e1; ghost var chosen;
    e1, os, chosen := AddOtyughs(g, caves, numOtyughs, counter, rng);
    if e1.Some? {
      return e1, os;
    }
    assert Matches(g, s);
    var e2, treasured := AddTreasure(g, caves, ShareOf(share, u1, |caves|), rng);
    if e2.Some? {
      return e2, os;
    }
    assert Matches(g, s);
    err := None;
  }

  /** addArrowsToCavesAndTunnels on every node, row by row; no node is generic any more. */
  method Arm(g: array2<Node>, share: real, rng: Rng, u2: real, ghost s: map<Pos, Node>) returns (err: Option<Error>)
    requires LinksInGrid(g) && Matches(g, s) && 0.0 < share <= 1.0 && 0.0 <= u2 < 1.0
    requires forall p :: p in s ==> !s[p].kind.Generic?
    modifies g, rng
    ensures err.None? ==> LinksInGrid(g) && Matches(g, s)
  {
    var cells := CellList(g.Length0, g.Length1);
    CellListExact(g.Length0, g.Length1);
    forall p | p in cells ensures InGrid(g, p) && !g[p.row, p.col].kind.Generic? {
      assert SameShape(g[p.row, p.col], s[p]);
    }
    ghost var armed;
    err, armed := AddArrowsTo(g, cells, ShareOf(share, u2, g.Length0 * g.Length1), rng);
    if err.None? {
      assert Matches(g, s);
    }
  }

  /**
   * generateRandomStartEndNode, addOtyughToEndCave, addYugolothToDungeon,
   * addThiefToDungeon and addPitToDungeon, then the dungeon with the
   * Otyughs placed so far.
   */
  method Place(g: array2<Node>, wrap: bool, numOtyughs: int, rng: Rng, counter: nat, os: seq<Otyughs.Otyugh>,
               ghost s: map<Pos, Node>)
    returns (r: Result<Engine.Dungeon>)
    requires LinksInGrid(g) && numOtyughs >= 0 && Matches(g, s)
    modifies g, rng
    ensures r.Ok? ==> var d := r.value;
      fresh(d) && d.graph == g && d.Valid() && d.start != d.end && Engine.FarApart(LinksOf(s), d.start, d.end)
    ensures r.Ok? ==> Matches(g, s)
  {
    var se := Population.ChooseStartEnd(g, rng);
    if se.Err? {
      return Err(se.error);
    }
    var (start, end) := se.value;
    MatchedTopology(g, s);
    var extra := Population.OtyughToEnd(g, start, end, counter + |os|);
    if extra.Err? {
      // The end is a cave, so addOtyughToEndCave cannot fail here.
      assert false;
    }
    assert Matches(g, s);
    var creatures := Haunt(g, start, s);
    if creatures.Err? {
      return Err(creatures.error);
    }
    var (yugoloth, thief, pit) := creatures.value;
    var d := new Engine.Dungeon(g, rng, wrap, numOtyughs, start, end, os + extra.value, true, yugoloth, thief, pit);
    return Ok(d);
  }

  /** addYugolothToDungeon, addThiefToDungeon and addPitToDungeon, each kept clear of the start. */
  method Haunt(g: array2<Node>, start: Pos, ghost s: map<Pos, Node>)
    returns (r: Result<(Option<Pos>, Option<Pos>, Option<Pos>)>)
    requires LinksInGrid(g) && InGrid(g, start) && Matches(g, s)
    modifies g
    ensures LinksInGrid(g)
    ensures r.Ok? ==> Matches(g, s)
    ensures r.Ok? ==> var (yugoloth, thief, pit) := r.value;
      && (yugoloth.Some? ==> InGrid(g, yugoloth.value))
      && (thief.Some? ==> InGrid(g, thief.value))
      && (pit.Some? ==> InGrid(g, pit.value))
  {
    var yugoloth := Population.PlaceYugolothAt(g, start);
    assert Matches(g, s);
    var thief := Population.PlaceThiefAt(g, yugoloth, start);
    if thief.Err? {
      return Err(thief.error);
    }
    assert Matches(g, s);
    var pit := Population.PlacePitAt(g, yugoloth, start, thief.value);
    if pit.Err? {
      return Err(pit.error);
    }
    assert Matches(g, s);
    return Ok((yugoloth, thief.value, pit.value));
  }

  /** The nodes of the grid, by position. */
  ghost function Snapshot(g: array2<Node>): (s: map<Pos, Node>)
    reads g
    ensures forall p :: p in s <==> InGrid(g, p)
    ensures forall p :: InGrid(g, p) ==> s[p] == g[p.row, p.col]
  {
    map p | p in Cells(g.Length0, g.Length1) :: g[p.row, p.col]
  }

  /** Every node of the grid has the name, links and type it has in `s`. */
  ghost predicate Matches(g: array2<Node>, s: map<Pos, Node>)
    reads g
  {
    && (forall p :: p in s <==> InGrid(g, p))
    && forall r, c :: 0 <= r < g.Length0 && 0 <= c < g.Length1 ==> SameShape(g[r, c], s[Pos(r, c)])
  }

  /** Every node in `s` is a cave when it has 1, 3 or 4 links and a tunnel when it has 2. */
  ghost predicate DegreeKinds(s: map<Pos, Node>)
  {
    forall p :: p in s ==> TypedByDegree(s[p])
  }

  lemma SnapshotByDegree(g: array2<Node>)
    requires ByDegree(g)
    ensures DegreeKinds(Snapshot(g))
  {
  }

  /** Keeping links and node types keeps the types by number of links. */
  lemma MatchesByDegree(g: array2<Node>, s: map<Pos, Node>)
    requires Matches(g, s) && DegreeKinds(s)
    ensures ByDegree(g)
  {
    forall r, c | 0 <= r < g.Length0 && 0 <= c < g.Length1 ensures TypedByDegree(g[r, c]) {
      var n, m := g[r, c], s[Pos(r, c)];
      assert SameShape(n, m) && TypedByDegree(m);
      assert TypeTag(n) == TypeTag(m);
    }
  }

  /** The links a snapshot records. */
  ghost function LinksOf(s: map<Pos, Node>): Topo
  {
    map p | p in s :: s[p].links
  }

  /** A grid matching `s` has the links `s` records. */
  lemma MatchedTopology(g: array2<Node>, s: map<Pos, Node>)
    requires Matches(g, s)
    ensures TopologyOf(g) == LinksOf(s)
  {
  }

  /** Listed in row-major order, the positions have no repeats. */
  lemma RowMajorDistinct(s: seq<Pos>)
    requires RowMajor(s)
    ensures Distinct(s)
  {
  }

  /** The pairs of linked nodes, each named by its upper or left end. */
  ghost function Corridors(t: Topo): set<Edge>
  {
    (set p | p in t && t[p].right.Some? :: Edge(p, Right)) + (set p | p in t && t[p].bottom.Some? :: Edge(p, Down))
  }

  /** The linked pairs of a grid depend on its links alone. */
  lemma CorridorsOf(g: array2<Node>)
    ensures LinkedEdges(g) == Corridors(TopologyOf(g))
  {
  }
}
