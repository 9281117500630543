/**
 * The dungeon engine (DungeonImpl) once the maze exists: the checks the
 * constructor that takes a ready-made graph performs, and the game played
 * on it. A node is addressed by its grid position; the player is known by
 * object identity only.
 */
module Engine {
  import opened Wrappers
  import opened Nodes
  import opened Otyughs
  import opened Topology
  import opened Randomness
  import opened GridOps
  import opened Arrows
  import Search
  import Strategy

  const MinDistance: nat := 5
  const MinRowsError: string := "Minimum number of rows allowed is 4!"
  const MinColsError: string := "Minimum number of cols allowed is 4!"
  const GraphOtyughsError: string :=
    "Number of otyughs is expected to be less than or equal to the number of nodes in the graph!"
  const NegativeOtyughsError: string := "Number of otyughs is expected to be non-negative!"
  const NotFoundPrefix: string := "Node with name "
  const NotFoundSuffix: string := ", not found in the graph!"
  const TooCloseError: string := "Distance between start and end node is less than 5!"
  const NoTreasureError: string := "No caves have treasures!"
  const CaveEntriesError: string := "Cave can have either 1, 3, or 4 entries!"
  const TunnelEntriesError: string := "Tunnel can have only 2 entries!"
  const SamePlayerError: string := "Cannot place same player in dungeon more than once!"
  const SecondPlayerError: string := "Cannot place more than one player in dungeon!"
  const NoPlayerError: string := "No player placed in dungeon!"
  const OtherPlayerError: string := "This player is not placed in the dungeon!"
  const PlayerNullError: string := "Player in dungeon is expected to be non-null!"

  /** The message for a move through a side that has no link. */
  function CannotMove(d: Dir): string
  {
    match d
    case Left => "Cannot move west!"
    case Right => "Cannot move east!"
    case Up => "Cannot move north!"
    case Down => "Cannot move south!"
  }

  /** The first node named `name` at or after (i, j), in row-major order. */
  function FirstNamedFrom(g: array2<Node>, name: string, i: nat, j: nat): (p: Option<Pos>)
    reads g
    ensures p.Some? ==> InGrid(g, p.value) && g[p.value.row, p.value.col].name == name
    decreases g.Length0 - i, g.Length1 - j
  {
    if i >= g.Length0 then None
    else if j >= g.Length1 then FirstNamedFrom(g, name, i + 1, 0)
    else if g[i, j].name == name then Some(Pos(i, j))
    else FirstNamedFrom(g, name, i, j + 1)
  }

  function FirstNamed(g: array2<Node>, name: string): Option<Pos>
    reads g
  {
    FirstNamedFrom(g, name, 0, 0)
  }

  /** (i, j) comes before p in row-major order. */
  predicate Before(i: nat, j: nat, p: Pos)
  {
    i < p.row || (i == p.row && j < p.col)
  }

  /** The entry-count check for one node: caves have 1, 3 or 4 links, tunnels 2. */
  function EntriesError(n: Node): (e: Option<Error>)
  {
    var k := Degree(n.links);
    if n.kind.Cave? && k != 1 && k != 3 && k != 4 then Some(IllegalArgument(CaveEntriesError))
    else if n.kind.Tunnel? && k != 2 then Some(IllegalArgument(TunnelEntriesError))
    else None
  }

  /** The entry-count error of the first failing node at or after (i, j), in row-major order. */
  function FirstEntriesErrorFrom(g: array2<Node>, i: nat, j: nat): (e: Option<Error>)
    reads g
    decreases g.Length0 - i, g.Length1 - j
  {
    if i >= g.Length0 then None
    else if j >= g.Length1 then FirstEntriesErrorFrom(g, i + 1, 0)
    else if EntriesError(g[i, j]).Some? then EntriesError(g[i, j])
    else FirstEntriesErrorFrom(g, i, j + 1)
  }

  /** Every cave has 1, 3 or 4 links and every tunnel 2. */
  ghost predicate EntriesOk(g: array2<Node>)
    reads g
  {
    forall i, j :: 0 <= i < g.Length0 && 0 <= j < g.Length1 ==> EntriesError(g[i, j]).None?
  }

  /** Some cave holds treasure. */
  ghost predicate HasTreasureCave(g: array2<Node>)
    reads g
  {
    exists i, j :: 0 <= i < g.Length0 && 0 <= j < g.Length1 && g[i, j].kind.Cave? && |g[i, j].kind.treasures| > 0
  }

  /** The two nodes lie at distance 5 or more. */
  ghost predicate FarApart(t: Topo, s: Pos, e: Pos)
  {
    exists k: nat :: k >= MinDistance && IsDist(t, s, e, k)
  }

  /**
   * killPlayer's verdict on the node the player enters, where `draw` is
   * what nextInt(100) answers: an Otyugh at full health always kills, a
   * wounded one when the draw plus one is at most 50.
   */
  function Lethal(n: Node, draw: nat): bool
  {
    HasOtyugh(n) &&
      (n.kind.otyugh.value.health == FullHealth ||
       (n.kind.otyugh.value.health == WoundedHealth && draw + 1 <= 50))
  }

  /** killPlayer draws a number only for a wounded Otyugh. */
  predicate NeedsDraw(n: Node)
  {
    HasOtyugh(n) && n.kind.otyugh.value.health == WoundedHealth
  }

  /** The heading an arrow starts with; an invalid letter only matters once the arrow moves. */
  function StartHeading(direction: string): Dir
  {
    if ParseDir(direction).Some? then ParseDir(direction).value else Left
  }

  // ------------------------------------------------------------------ scans over the grid

  /** findNodeByNodeName: the first node, in row-major order, with that name. */
  method FindByName(g: array2<Node>, name: string) returns (p: Option<Pos>)
    ensures p == FirstNamed(g, name)
  {
    for i := 0 to g.Length0
      invariant FirstNamedFrom(g, name, i, 0) == FirstNamed(g, name)
    {
      for j := 0 to g.Length1
        invariant FirstNamedFrom(g, name, i, j) == FirstNamed(g, name)
      {
        if g[i, j].name == name {
          return Some(Pos(i, j));
        }
      }
    }
    return None;
  }

  /** The count of caves holding treasure, zero exactly when there is none. */
  method CountTreasureCaves(g: array2<Node>) returns (count: nat)
    ensures count == 0 <==> !HasTreasureCave(g)
  {
    count := 0;
    for i := 0 to g.Length0
      invariant count == 0 <==> !exists r, c :: 0 <= r < i && 0 <= c < g.Length1 && g[r, c].kind.Cave? && |g[r, c].kind.treasures| > 0
    {
      for j := 0 to g.Length1
        invariant count == 0 <==> !exists r, c :: ((0 <= r < i && 0 <= c < g.Length1) || (r == i && 0 <= c < j)) && g[r, c].kind.Cave? && |g[r, c].kind.treasures| > 0
      {
        if g[i, j].kind.Cave? && |g[i, j].kind.treasures| > 0 {
          count := count + 1;
        }
      }
    }
  }

  /** The entry-count check over the whole graph, failing at the first bad node in row-major order. */
  method CheckEntries(g: array2<Node>) returns (e: Option<Error>)
    ensures e == FirstEntriesErrorFrom(g, 0, 0)
  {
    for i := 0 to g.Length0
      invariant FirstEntriesErrorFrom(g, i, 0) == FirstEntriesErrorFrom(g, 0, 0)
    {
      for j := 0 to g.Length1
        invariant FirstEntriesErrorFrom(g, i, j) == FirstEntriesErrorFrom(g, 0, 0)
      {
        var bad := EntriesError(g[i, j]);
        if bad.Some? {
          return bad;
        }
      }
    }
    return None;
  }

  // ------------------------------------------------------------------ the dungeon

  class Dungeon {
    const graph: array2<Node>
    const rng: Rng
    const wrapping: bool
    const numOtyughs: nat
    var start: Pos
    var end: Pos
    var player: object?
    var playerPosition: Option<Pos>
    var otyughs: seq<Otyugh>
    var yugoloth: bool
    var yugolothPosition: Option<Pos>
    var thiefPosition: Option<Pos>
    var pitPosition: Option<Pos>

    /** Every position the dungeon keeps lies in the grid, and a player is placed exactly when one is registered. */
    ghost predicate Valid()
      reads this, graph
    {
      && LinksInGrid(graph)
      && InGrid(graph, start) && InGrid(graph, end)
      && (player == null <==> playerPosition.None?)
      && (playerPosition.Some? ==> InGrid(graph, playerPosition.value))
      && (yugolothPosition.Some? ==> InGrid(graph, yugolothPosition.value))
      && (thiefPosition.Some? ==> InGrid(graph, thiefPosition.value))
      && (pitPosition.Some? ==> InGrid(graph, pitPosition.value))
    }

    /** The fields that the game itself never changes. */
    ghost function Setup(): (Pos, Pos, bool, Option<Pos>, Option<Pos>)
      reads this
    {
      (start, end, yugoloth, thiefPosition, pitPosition)
    }

    constructor (graph: array2<Node>, rng: Rng, wrapping: bool, numOtyughs: nat, start: Pos, end: Pos,
                 otyughs: seq<Otyugh>, yugoloth: bool, yugolothPosition: Option<Pos>,
                 thiefPosition: Option<Pos>, pitPosition: Option<Pos>)
      requires LinksInGrid(graph) && InGrid(graph, start) && InGrid(graph, end)
      requires yugolothPosition.Some? ==> InGrid(graph, yugolothPosition.value)
      requires thiefPosition.Some? ==> InGrid(graph, thiefPosition.value)
      requires pitPosition.Some? ==> InGrid(graph, pitPosition.value)
      ensures Valid()
      ensures this.graph == graph && this.rng == rng && this.wrapping == wrapping && this.numOtyughs == numOtyughs
      ensures this.start == start && this.end == end && this.otyughs == otyughs
      ensures this.yugoloth == yugoloth && this.yugolothPosition == yugolothPosition
      ensures this.thiefPosition == thiefPosition && this.pitPosition == pitPosition
      ensures player == null && playerPosition == None
    {
      this.graph := graph;
      this.rng := rng;
      this.wrapping := wrapping;
      this.numOtyughs := numOtyughs;
      this.start := start;
      this.end := end;
      this.otyughs := otyughs;
      this.yugoloth := yugoloth;
      this.yugolothPosition := yugolothPosition;
      this.thiefPosition := thiefPosition;
      this.pitPosition := pitPosition;
      player := null;
      playerPosition := None;
    }

    /**
     * The constructor that takes a ready-made graph. Its checks, in order:
     * at least 4 rows and 4 columns, an Otyugh count between 0 and the
     * number of nodes, both names present, the end at distance 5 or more,
     * some cave with treasure, and the entry counts of caves and tunnels.
     * The Otyugh list starts empty whatever the graph holds.
     */
    static method FromGraph(graph: array2<Node>, startName: string, endName: string, wrapping: bool,
                            numOtyughs: int, yugolothPosition: Option<Pos>, yugoloth: bool,
                            thiefPosition: Option<Pos>, pitPosition: Option<Pos>, rng: Rng)
      returns (r: Result<Dungeon>)
      requires LinksInGrid(graph)
      requires yugolothPosition.Some? ==> InGrid(graph, yugolothPosition.value)
      requires thiefPosition.Some? ==> InGrid(graph, thiefPosition.value)
      requires pitPosition.Some? ==> InGrid(graph, pitPosition.value)
      ensures graph.Length0 < MinRowsCols ==> r == Err(IllegalArgument(MinRowsError))
      ensures graph.Length0 >= MinRowsCols && graph.Length1 < MinRowsCols ==> r == Err(IllegalArgument(MinColsError))
      ensures graph.Length0 >= MinRowsCols && graph.Length1 >= MinRowsCols ==>
        (numOtyughs > graph.Length0 * graph.Length1 ==> r == Err(IllegalArgument(GraphOtyughsError))) &&
        (numOtyughs < 0 ==> r == Err(IllegalArgument(NegativeOtyughsError)))
      ensures graph.Length0 >= MinRowsCols && graph.Length1 >= MinRowsCols && 0 <= numOtyughs <= graph.Length0 * graph.Length1 ==>
        (FirstNamed(graph, startName).None? ==> r == Err(IllegalArgument(NotFoundPrefix + startName + NotFoundSuffix))) &&
        (FirstNamed(graph, startName).Some? && FirstNamed(graph, endName).None? ==>
           r == Err(IllegalArgument(NotFoundPrefix + endName + NotFoundSuffix)))
      ensures r.Ok? ==>
        var d := r.value;
        fresh(d) && d.Valid() && d.graph == graph && d.rng == rng && d.player == null &&
        d.numOtyughs == numOtyughs && d.otyughs == [] &&
        d.yugoloth == yugoloth && d.yugolothPosition == yugolothPosition &&
        d.thiefPosition == thiefPosition && d.pitPosition == pitPosition &&
        Some(d.start) == FirstNamed(graph, startName) && Some(d.end) == FirstNamed(graph, endName)
      ensures r.Ok? ==>
        graph.Length0 >= MinRowsCols && graph.Length1 >= MinRowsCols && 0 <= numOtyughs <= graph.Length0 * graph.Length1 &&
        HasTreasureCave(graph) && EntriesOk(graph) &&
        (r.value.start != r.value.end ==> FarApart(TopologyOf(graph), r.value.start, r.value.end))
      ensures graph.Length0 >= MinRowsCols && graph.Length1 >= MinRowsCols && 0 <= numOtyughs <= graph.Length0 * graph.Length1 &&
              FirstNamed(graph, startName).Some? && FirstNamed(graph, endName).Some? &&
              FirstNamed(graph, startName) != FirstNamed(graph, endName) ==>
        var s, e := FirstNamed(graph, startName).value, FirstNamed(graph, endName).value;
        (!FarApart(TopologyOf(graph), s, e) ==> r == Err(IllegalArgument(TooCloseError))) &&
        (FarApart(TopologyOf(graph), s, e) && !HasTreasureCave(graph) ==> r == Err(IllegalArgument(NoTreasureError))) &&
        (FarApart(TopologyOf(graph), s, e) && HasTreasureCave(graph) ==>
           (r.Ok? <==> EntriesOk(graph)) && (r.Err? ==> Some(r.error) == FirstEntriesErrorFrom(graph, 0, 0)))
      ensures graph.Length0 >= MinRowsCols && graph.Length1 >= MinRowsCols && 0 <= numOtyughs <= graph.Length0 * graph.Length1 &&
              FirstNamed(graph, startName).Some? && FirstNamed(graph, startName) == FirstNamed(graph, endName) &&
              Symmetric(graph) ==>
        r == Err(IllegalArgument(TooCloseError))
    {
      if graph.Length0 < MinRowsCols {
        return Err(IllegalArgument(MinRowsError));
      }
      if graph.Length1 < MinRowsCols {
        return Err(IllegalArgument(MinColsError));
      }
      if numOtyughs > graph.Length0 * graph.Length1 {
        return Err(IllegalArgument(GraphOtyughsError));
      }
      if numOtyughs < 0 {
        return Err(IllegalArgument(NegativeOtyughsError));
      }
      var s := FindByName(graph, startName);
      if s.None? {
        return Err(IllegalArgument(NotFoundPrefix + startName + NotFoundSuffix));
      }
      var e := FindByName(graph, endName);
      if e.None? {
        return Err(IllegalArgument(NotFoundPrefix + endName + NotFoundSuffix));
      }
      var distance := Search.ShortestPathDistance(graph, s.value, e.value);
      DistanceCheck(TopologyOf(graph), s.value, e.value, distance);
      if s.value == e.value && Symmetric(graph) {
        SymmetricUndirected(graph);
      }
      if distance < MinDistance {
        return Err(IllegalArgument(TooCloseError));
      }
      var treasureCaves := CountTreasureCaves(graph);
      if treasureCaves == 0 {
        return Err(IllegalArgument(NoTreasureError));
      }
      var bad := CheckEntries(graph);
      FirstEntriesError(graph);
      if bad.Some? {
        return Err(bad.value);
      }
      var d := new Dungeon(graph, rng, wrapping, numOtyughs, s.value, e.value, [], yugoloth, yugolothPosition,
                           thiefPosition, pitPosition);
      return Ok(d);
    }

    // ---------------------------------------------------------------- the game

    /**
     * placePlayerInDungeon: one player only, and not twice; the player
     * starts at the start node and is alive.
     */
    method PlacePlayer(p: object) returns (r: Result<bool>)
      requires Valid()
      modifies this
      ensures Valid()
      ensures old(player) == p ==> r == Err(IllegalArgument(SamePlayerError))
      ensures old(player) != null && old(player) != p ==> r == Err(IllegalArgument(SecondPlayerError))
      ensures r.Err? ==> player == old(player) && playerPosition == old(playerPosition)
      ensures old(player) == null ==> r == Ok(false) && player == p && playerPosition == Some(start)
      ensures Setup() == old(Setup()) && otyughs == old(otyughs) && yugolothPosition == old(yugolothPosition)
    {
      if player != null && player == p {
        return Err(IllegalArgument(SamePlayerError));
      } else if player != null {
        return Err(IllegalArgument(SecondPlayerError));
      }
      player := p;
      playerPosition := Some(start);
      return Ok(false);
    }

    /** killPlayer for the node at `p`. */
    method KillPlayer(p: Pos) returns (dies: bool)
      requires InGrid(graph, p)
      modifies rng
      ensures dies == Lethal(graph[p.row, p.col], old(rng.Peek(100)))
      ensures rng.used == old(rng.used) + (if NeedsDraw(graph[p.row, p.col]) then 1 else 0)
    {
      var n := graph[p.row, p.col];
      if n.kind.Cave? && n.kind.otyugh.Some? {
        if n.kind.otyugh.value.health == 100 {
          return true;
        } else if n.kind.otyugh.value.health == 50 {
          var draw := rng.NextInt(101 - 1);
          return draw + 1 <= 50;
        }
      }
      return false;
    }

    /**
     * movePlayer: only the registered player may move, in a direction "L",
     * "R", "U" or "D" that has a link. The player then stands on the
     * neighbour, and the result says whether an Otyugh there kills it.
     */
    method MovePlayer(direction: string, mover: object) returns (r: Result<bool>)
      requires Valid()
      modifies this, rng
      ensures Valid()
      ensures Setup() == old(Setup()) && player == old(player) && otyughs == old(otyughs)
      ensures yugolothPosition == old(yugolothPosition)
      ensures old(player) == null ==> r == Err(IllegalArgument(NoPlayerError))
      ensures old(player) != null && old(player) != mover ==> r == Err(IllegalArgument(OtherPlayerError))
      ensures old(player) == mover && ParseDir(direction).None? ==> r == Err(IllegalArgument(InvalidDirection))
      ensures r.Err? ==> playerPosition == old(playerPosition) && rng.used == old(rng.used)
      ensures old(player) == mover && ParseDir(direction).Some? ==>
        var d := ParseDir(direction).value;
        var next := Link(graph[old(playerPosition).value.row, old(playerPosition).value.col].links, d);
        (next.None? ==> r == Err(IllegalArgument(CannotMove(d)))) &&
        (next.Some? ==> playerPosition == next && r == Ok(Lethal(graph[next.value.row, next.value.col], old(rng.Peek(100)))))
    {
      if player == null {
        return Err(IllegalArgument(NoPlayerError));
      } else if player != mover {
        return Err(IllegalArgument(OtherPlayerError));
      }
      var d := ParseDir(direction);
      if d.None? {
        return Err(IllegalArgument(InvalidDirection));
      }
      var here := playerPosition.value;
      assert LinksWithin(graph.Length0, graph.Length1, graph[here.row, here.col].links);
      var next := Link(graph[here.row, here.col].links, d.value);
      if next.None? {
        return Err(IllegalArgument(CannotMove(d.value)));
      }
      playerPosition := next;
      var dies := KillPlayer(next.value);
      return Ok(dies);
    }

    /** pickUpTreasure: the registered player takes one item of the named treasure from its node. */
    method PickUpTreasure(name: string, picker: object) returns (err: Option<Error>)
      requires Valid()
      modifies graph
      ensures Valid()
      ensures old(player) == null ==> err == Some(IllegalArgument(NoPlayerError))
      ensures player != null && player != picker ==> err == Some(IllegalArgument(OtherPlayerError))
      ensures err.Some? ==> unchanged(graph)
      ensures player == picker ==>
        var p := playerPosition.value;
        var taken := RemoveTreasure(old(graph[p.row, p.col]), name);
        (taken.Err? ==> err == Some(taken.error)) &&
        (taken.Ok? ==>
           err.None? && graph[p.row, p.col] == taken.value &&
           forall i, j :: 0 <= i < graph.Length0 && 0 <= j < graph.Length1 && Pos(i, j) != p ==>
             graph[i, j] == old(graph[i, j]))
    {
      if player == null {
        return Some(IllegalArgument(NoPlayerError));
      } else if player != picker {
        return Some(IllegalArgument(OtherPlayerError));
      }
      var p := playerPosition.value;
      var taken := RemoveTreasure(graph[p.row, p.col], name);
      if taken.Err? {
        return Some(taken.error);
      }
      Store(graph, p, taken.value);
      return None;
    }

    /** pickUpArrow: the registered player takes one arrow from its node. */
    method PickUpArrow(picker: object) returns (err: Option<Error>)
      requires Valid()
      modifies graph
      ensures Valid()
      ensures old(player) == null ==> err == Some(IllegalArgument(NoPlayerError))
      ensures player != null && player != picker ==> err == Some(IllegalArgument(OtherPlayerError))
      ensures err.Some? ==> unchanged(graph)
      ensures player == picker ==>
        var p := playerPosition.value;
        var taken := RemoveArrow(old(graph[p.row, p.col]));
        (taken.Err? ==> err == Some(taken.error)) &&
        (taken.Ok? ==>
           err.None? && graph[p.row, p.col] == taken.value &&
           forall i, j :: 0 <= i < graph.Length0 && 0 <= j < graph.Length1 && Pos(i, j) != p ==>
             graph[i, j] == old(graph[i, j]))
    {
      if player == null {
        return Some(IllegalArgument(NoPlayerError));
      } else if player != picker {
        return Some(IllegalArgument(OtherPlayerError));
      }
      var p := playerPosition.value;
      var taken := RemoveArrow(graph[p.row, p.col]);
      if taken.Err? {
        return Some(taken.error);
      }
      Store(graph, p, taken.value);
      return None;
    }

    /**
     * shootArrow: the registered player shoots from its node. The flight
     * follows Flight; an invalid direction is noticed when the arrow first
     * moves. The result is the landing row and column, the codes of
     * Codes, and a closing -1; the landing node changes as Impact says,
     * and a killed Otyugh also leaves the Otyugh list.
     */
    method ShootArrow(direction: string, distance: int, shooter: object, fuel: nat) returns (r: Result<seq<int>>)
      requires Valid()
      modifies this, graph
      ensures Valid()
      ensures Setup() == old(Setup()) && player == old(player) && playerPosition == old(playerPosition)
      ensures yugolothPosition == old(yugolothPosition)
      ensures old(player) == null ==> r == Err(IllegalArgument(NoPlayerError))
      ensures old(player) != null && old(player) != shooter ==> r == Err(IllegalArgument(OtherPlayerError))
      ensures old(player) == shooter && distance != 0 && ParseDir(direction).None? ==>
        r == Err(IllegalArgument(InvalidDirection))
      ensures r.Err? ==> unchanged(graph) && otyughs == old(otyughs)
      ensures old(player) == shooter && (distance == 0 || ParseDir(direction).Some?) ==>
        var flight := old(Flight(graph, playerPosition.value, StartHeading(direction), 0, distance, fuel));
        (flight.Err? ==> r == Err(flight.error)) &&
        (flight.Ok? ==>
          var q := flight.value.pos;
          var complete := flight.value.travelled == distance;
          var n := old(graph[q.row, q.col]);
          (Impact(n, complete).Err? ==> r == Err(Impact(n, complete).error)) &&
          (Impact(n, complete).Ok? ==>
            r == Ok([q.row as int, q.col as int] + Codes(n, complete) + [-1]) &&
            graph[q.row, q.col] == Impact(n, complete).value &&
            otyughs == (if Codes(n, complete) == [1, 0] then RemoveLastNamed(old(otyughs), n.kind.otyugh.value.name)
                        else old(otyughs)) &&
            forall i, j :: 0 <= i < graph.Length0 && 0 <= j < graph.Length1 && Pos(i, j) != q ==>
              graph[i, j] == old(graph[i, j])))
    {
      if player == null {
        return Err(IllegalArgument(NoPlayerError));
      } else if player != shooter {
        return Err(IllegalArgument(OtherPlayerError));
      }
      if distance != 0 && ParseDir(direction).None? {
        return Err(IllegalArgument(InvalidDirection));
      }
      var landing := Fly(playerPosition.value, StartHeading(direction), distance, fuel);
      if landing.Err? {
        return Err(landing.error);
      }
      r := Land(landing.value.pos, landing.value.travelled == distance);
    }

    /**
     * The end of shootArrow, once the arrow rests at `q`: the node changes
     * as Impact says, a killed Otyugh leaves the Otyugh list, and the
     * answer is the position, the codes and a closing -1.
     */
    method Land(q: Pos, complete: bool) returns (r: Result<seq<int>>)
      requires Valid() && InGrid(graph, q)
      modifies this`otyughs, graph
      ensures Valid()
      ensures var n := old(graph[q.row, q.col]);
        (Impact(n, complete).Err? ==> r == Err(Impact(n, complete).error) && unchanged(graph) && otyughs == old(otyughs)) &&
        (Impact(n, complete).Ok? ==>
          r == Ok([q.row as int, q.col as int] + Codes(n, complete) + [-1]) &&
          graph[q.row, q.col] == Impact(n, complete).value &&
          otyughs == (if Codes(n, complete) == [1, 0] then RemoveLastNamed(old(otyughs), n.kind.otyugh.value.name)
                      else old(otyughs)) &&
          forall i, j :: 0 <= i < graph.Length0 && 0 <= j < graph.Length1 && Pos(i, j) != q ==>
            graph[i, j] == old(graph[i, j]))
    {
      var n := graph[q.row, q.col];
      var after := Impact(n, complete);
      if after.Err? {
        return Err(after.error);
      }
      if Codes(n, complete) == [1, 0] {
        otyughs := RemoveLastNamed(otyughs, n.kind.otyugh.value.name);
      }
      Store(graph, q, after.value);
      return Ok([q.row as int, q.col as int] + Codes(n, complete) + [-1]);
    }

    /**
     * The do-while loop of shootArrow. A cave counts when the arrow enters
     * it, a tunnel turns the arrow, and the arrow stops when the count
     * reaches `distance` or there is no link ahead.
     */
    method Fly(from: Pos, heading: Dir, distance: int, fuel: nat) returns (r: Result<Landing>)
      requires InGrid(graph, from) && LinksInGrid(graph)
      ensures r == Flight(graph, from, heading, 0, distance, fuel)
    {
      var pos, h, travelled, left := from, heading, 0, fuel;
      while travelled != distance
        invariant InGrid(graph, pos)
        invariant Flight(graph, pos, h, travelled, distance, left) == Flight(graph, from, heading, 0, distance, fuel)
        decreases left
      {
        if left == 0 {
          return Err(OutOfFuel);
        }
        var next := Link(graph[pos.row, pos.col].links, h);
        if next.None? {
          break;
        }
        assert LinksWithin(graph.Length0, graph.Length1, graph[pos.row, pos.col].links);
        pos := next.value;
        var n := graph[pos.row, pos.col];
        if n.kind.Cave? {
          travelled := travelled + 1;
        }
        if n.kind.Tunnel? {
          h := TunnelTurn(n.links, h);
        }
        left := left - 1;
      }
      return Ok(Landing(pos, h, travelled));
    }

    /** hasReachedEndNode: whether the player's node has the end node's name. */
    method HasReachedEnd() returns (r: Result<bool>)
      requires Valid()
      ensures player == null ==> r == Err(IllegalArgument(PlayerNullError))
      ensures player != null ==>
        r == Ok(graph[playerPosition.value.row, playerPosition.value.col].name == graph[end.row, end.col].name)
    {
      if player == null {
        return Err(IllegalArgument(PlayerNullError));
      }
      var p := playerPosition.value;
      return Ok(graph[p.row, p.col].name == graph[end.row, end.col].name);
    }

    /** handToHandBattle: the player loses the fight with the Yugoloth when a draw in 1..100 is at most 50. */
    method HandToHandBattle() returns (dies: bool)
      modifies rng
      ensures dies <==> old(rng.Peek(100)) < 50
      ensures rng.used == old(rng.used) + 1
    {
      var draw := rng.NextInt(101 - 1);
      dies := draw + 1 <= 50;
    }

    /** killYugoloth: the Yugoloth and its position are forgotten; the node's flag stays as it is. */
    method KillYugoloth()
      requires Valid()
      modifies this
      ensures Valid()
      ensures !yugoloth && yugolothPosition == None
      ensures start == old(start) && end == old(end) && thiefPosition == old(thiefPosition)
      ensures pitPosition == old(pitPosition) && player == old(player) && playerPosition == old(playerPosition)
      ensures otyughs == old(otyughs)
    {
      yugoloth := false;
      yugolothPosition := None;
    }

    /**
     * moveYugoloth: the strategy moves the Yugoloth from its position, and
     * the position becomes the node it returns. Without a Yugoloth or a
     * position there is nothing to dereference.
     */
    method MoveYugoloth(u: real) returns (err: Option<Error>)
      requires Valid() && 0.0 <= u < 1.0
      modifies this, graph
      ensures Valid()
      ensures Setup() == old(Setup()) && player == old(player) && playerPosition == old(playerPosition)
      ensures otyughs == old(otyughs)
      ensures !yugoloth || old(yugolothPosition).None? ==> err == Some(NullReference) && unchanged(graph)
      ensures err.Some? ==> yugolothPosition == old(yugolothPosition)
      ensures yugoloth && old(yugolothPosition).Some? ==>
        var from := old(yugolothPosition).value;
        var dest := Strategy.Destination(old(graph[from.row, from.col].links), u);
        (err.None? ==> yugolothPosition == Some(if dest.Some? then dest.value else from)) &&
        (dest.None? ==> err.None? && unchanged(graph)) &&
        (dest.Some? ==>
          InGrid(graph, dest.value) &&
          Strategy.Relocated(graph, from, dest.value, if err.None? then Ok(dest.value) else Err(err.value)))
    {
      if !yugoloth || yugolothPosition.None? {
        return Some(NullReference);
      }
      var r := Strategy.Move(graph, yugolothPosition.value, u);
      if r.Err? {
        return Some(r.error);
      }
      yugolothPosition := Some(r.value);
      return None;
    }
  }

  // ------------------------------------------------------------------ lemmas

  /** What ShortestPathDistance answers decides the distance check for two different nodes. */
  lemma DistanceCheck(t: Topo, s: Pos, e: Pos, distance: int)
    requires distance == -1 || distance >= 1
    requires s != e && distance >= 1 ==> IsDist(t, s, e, distance)
    requires s != e && distance == -1 ==> !Reachable(t, s, e)
    ensures s != e ==> (distance >= MinDistance <==> FarApart(t, s, e))
  {
    if s != e && distance < MinDistance && FarApart(t, s, e) {
      var k: nat :| k >= MinDistance && IsDist(t, s, e, k);
      if distance >= 1 {
        DistUnique(t, s, e, distance, k);
      }
    }
  }

  /** The first entry-count error found, if any, is exactly the failure of some node. */
  lemma FirstEntriesError(g: array2<Node>)
    ensures FirstEntriesErrorFrom(g, 0, 0).None? <==> EntriesOk(g)
  {
    FirstEntriesErrorScan(g, 0, 0);
  }

  lemma {:induction false} FirstEntriesErrorScan(g: array2<Node>, i: nat, j: nat)
    requires j <= g.Length1
    ensures FirstEntriesErrorFrom(g, i, j).None? <==>
      forall r, c :: 0 <= r < g.Length0 && 0 <= c < g.Length1 && (r > i || (r == i && c >= j)) ==>
        EntriesError(g[r, c]).None?
    decreases g.Length0 - i, g.Length1 - j
  {
    if i >= g.Length0 {
    } else if j >= g.Length1 {
      FirstEntriesErrorScan(g, i + 1, 0);
    } else {
      FirstEntriesErrorScan(g, i, j + 1);
    }
  }

  /**
   * findNodeByNodeName finds the first node with the name in row-major
   * order: it has the name and no node before it has, and there is none
   * exactly when no node has the name.
   */
  lemma FirstNamedIsFirst(g: array2<Node>, name: string)
    ensures FirstNamed(g, name).None? <==>
      forall i, j :: 0 <= i < g.Length0 && 0 <= j < g.Length1 ==> g[i, j].name != name
    ensures FirstNamed(g, name).Some? ==>
      forall i, j :: 0 <= i < g.Length0 && 0 <= j < g.Length1 && Before(i, j, FirstNamed(g, name).value) ==>
        g[i, j].name != name
  {
    FirstNamedScan(g, name, 0, 0);
  }

  lemma {:induction false} FirstNamedScan(g: array2<Node>, name: string, i: nat, j: nat)
    requires j <= g.Length1
    ensures var p := FirstNamedFrom(g, name, i, j);
      (p.None? <==>
        forall r, c :: 0 <= r < g.Length0 && 0 <= c < g.Length1 && (r > i || (r == i && c >= j)) ==> g[r, c].name != name) &&
      (p.Some? ==>
        (p.value.row > i || (p.value.row == i && p.value.col >= j)) &&
        forall r, c :: 0 <= r < g.Length0 && 0 <= c < g.Length1 && (r > i || (r == i && c >= j)) && Before(r, c, p.value) ==>
          g[r, c].name != name)
    decreases g.Length0 - i, g.Length1 - j
  {
    if i >= g.Length0 {
    } else if j >= g.Length1 {
      FirstNamedScan(g, name, i + 1, 0);
    } else if g[i, j].name != name {
      FirstNamedScan(g, name, i, j + 1);
    }
  }

  /** A cave or tunnel that passes the entry-count check can be described. */
  lemma EntriesOkDescribable(n: Node)
    requires !n.kind.Generic? && EntriesError(n).None?
    ensures n.kind.Cave? ==> Degree(n.links) == 1 || Degree(n.links) == 3 || Degree(n.links) == 4
    ensures n.kind.Tunnel? ==> Degree(n.links) == 2
  {
  }

  /**
   * killPlayer: an Otyugh at full health always kills, a wounded one kills
   * on exactly the draws 0..49 of 0..99, and without an Otyugh the player
   * is safe.
   */
  lemma LethalCases(n: Node, draw: nat)
    requires draw < 100
    ensures !HasOtyugh(n) ==> !Lethal(n, draw)
    ensures HasOtyugh(n) && n.kind.otyugh.value.health == FullHealth ==> Lethal(n, draw)
    ensures NeedsDraw(n) ==> (Lethal(n, draw) <==> draw < 50)
    ensures HasOtyugh(n) && n.kind.otyugh.value.health != FullHealth && n.kind.otyugh.value.health != WoundedHealth ==>
      !Lethal(n, draw)
  {
  }
}
