/**
 * The flight of an arrow (shootArrow). The arrow starts in the shooter's
 * node and follows its heading from link to link. Only the caves it
 * enters count towards the distance; on entering a tunnel it turns to the
 * tunnel's first open side, in the order left, right, up, down, that does
 * not lead straight back. A missing link stops it.
 */
module Arrows {
  import opened Wrappers
  import opened Nodes
  import opened Otyughs
  import opened Topology

  const InvalidDirection: string := "Invalid direction!"

  /** The engine's direction letters "L", "R", "U" and "D". */
  function ParseDir(s: string): (d: Option<Dir>)
  {
    if s == "L" then Some(Left)
    else if s == "R" then Some(Right)
    else if s == "U" then Some(Up)
    else if s == "D" then Some(Down)
    else None
  }

  function DirLetter(d: Dir): string
  {
    match d
    case Left => "L"
    case Right => "R"
    case Up => "U"
    case Down => "D"
  }

  /** The new heading of an arrow that enters a tunnel with links `l` while heading `h`. */
  function TunnelTurn(l: Links, h: Dir): Dir
  {
    if l.left.Some? && h != Right then Left
    else if l.right.Some? && h != Left then Right
    else if l.top.Some? && h != Down then Up
    else if l.bottom.Some? && h != Up then Down
    else h
  }

  /** Where an arrow comes to rest, the heading it then has, and the caves it has counted. */
  datatype Landing = Landing(pos: Pos, heading: Dir, travelled: int)

  /**
   * The rest of a flight from `pos` with heading `h`, having counted
   * `travelled` caves so far. It ends when the count reaches `distance` or
   * the heading has no link; each move spends one unit of `fuel`, and a
   * flight that would go on longer than the fuel allows is OutOfFuel.
   */
  function Flight(g: array2<Node>, pos: Pos, h: Dir, travelled: int, distance: int, fuel: nat): (r: Result<Landing>)
    reads g
    requires InGrid(g, pos) && LinksInGrid(g)
    ensures r.Ok? ==> InGrid(g, r.value.pos)
    decreases fuel
  {
    if travelled == distance then Ok(Landing(pos, h, travelled))
    else if fuel == 0 then Err(OutOfFuel)
    else
      var next := Link(g[pos.row, pos.col].links, h);
      if next.None? then Ok(Landing(pos, h, travelled))
      else
        assert LinksWithin(g.Length0, g.Length1, g[pos.row, pos.col].links);
        var q := next.value;
        var n := g[q.row, q.col];
        Flight(g, q, if n.kind.Tunnel? then TunnelTurn(n.links, h) else h,
               if n.kind.Cave? then travelled + 1 else travelled, distance, fuel - 1)
  }

  /**
   * The codes shootArrow reports between the landing position and the
   * closing -1: an arrow that completed its distance in an Otyugh's cave
   * wounds it (0) or kills it (1, then 0); anything else adds nothing.
   */
  function Codes(n: Node, complete: bool): seq<int>
  {
    if complete && HasOtyugh(n) then
      if GotHitByArrow(n.kind.otyugh.value) <= 0 then [1, 0] else [0]
    else []
  }

  /**
   * The landing node afterwards. A completed flight wounds or removes the
   * cave's Otyugh, or leaves the arrow in a tunnel; in a cave without an
   * Otyugh the arrow is gone. A flight cut short leaves the arrow where it
   * stopped, which a generic node refuses.
   */
  function Impact(n: Node, complete: bool): (r: Result<Node>)
    ensures r.Ok? ==> SameShape(r.value, n)
  {
    if complete then
      if HasOtyugh(n) then
        var o := n.kind.otyugh.value;
        var h := GotHitByArrow(o);
        var wounded := n.(kind := n.kind.(otyugh := Some(o.(health := h))));
        if h <= 0 then Ok(wounded.(kind := wounded.kind.(otyugh := None))) else Ok(wounded)
      else if n.kind.Tunnel? then AddSingleArrow(n)
      else Ok(n)
    else AddSingleArrow(n)
  }

  /** The position of the last Otyugh named `name` in `os`, or -1 when none has that name. */
  function LastNamedIndex(os: seq<Otyugh>, name: string): (i: int)
    ensures -1 <= i < |os|
    ensures i == -1 <==> forall j :: 0 <= j < |os| ==> os[j].name != name
    ensures i >= 0 ==> os[i].name == name && forall j :: i < j < |os| ==> os[j].name != name
  {
    if |os| == 0 then -1
    else if os[|os| - 1].name == name then |os| - 1
    else LastNamedIndex(os[..|os| - 1], name)
  }

  /** Dropping position i of a, then appending x, is dropping position i of a + [x]. */
  lemma DropBeforeLast<T>(a: seq<T>, x: T, i: nat)
    requires i < |a|
    ensures (a[..i] + a[i + 1..]) + [x] == (a + [x])[..i] + (a + [x])[i + 1..]
  {
    var s := a + [x];
    assert s[..i] == a[..i];
    assert s[i + 1..] == a[i + 1..] + [x];
  }

  /**
   * otyughs.remove(o) where o is the last Otyugh in the list with that name:
   * exactly that entry goes, and the others keep their order.
   */
  function RemoveLastNamed(os: seq<Otyugh>, name: string): (r: seq<Otyugh>)
    ensures LastNamedIndex(os, name) == -1 ==> r == os
    ensures var i := LastNamedIndex(os, name); i >= 0 ==> r == os[..i] + os[i + 1..]
  {
    if |os| == 0 then os
    else
      var k := |os| - 1;
      var front := os[..k];
      assert os == front + [os[k]];
      if os[k].name == name then
        assert os[k + 1..] == [];
        front
      else
        var i := LastNamedIndex(front, name);
        var rest := RemoveLastNamed(front, name);
        if i >= 0 then DropBeforeLast(front, os[k], i); rest + [os[k]]
        else rest + [os[k]]
  }

  /** Removing a named Otyugh takes exactly one entry out of the multiset; the list is one shorter. */
  lemma RemoveLastNamedCount(os: seq<Otyugh>, name: string)
    requires LastNamedIndex(os, name) >= 0
    ensures |RemoveLastNamed(os, name)| == |os| - 1
    ensures multiset(RemoveLastNamed(os, name)) == multiset(os) - multiset{os[LastNamedIndex(os, name)]}
  {
    DropCount(os, LastNamedIndex(os, name));
  }

  // ------------------------------------------------------------------ lemmas

  /** The letters and the directions correspond one to one. */
  lemma DirLetterRoundTrip(d: Dir, s: string)
    ensures ParseDir(DirLetter(d)) == Some(d)
    ensures ParseDir(s) == Some(d) ==> s == DirLetter(d)
  {
  }

  /**
   * In a tunnel with two links entered through one of them, the arrow
   * turns to the other: it never goes back the way it came.
   */
  lemma TunnelTurnGoesOn(l: Links, h: Dir)
    requires Degree(l) == 2 && Link(l, Opposite(h)).Some?
    ensures TunnelTurn(l, h) != Opposite(h)
    ensures Link(l, TunnelTurn(l, h)).Some?
  {
  }

  /** A flight rests inside the grid, either with its count complete or against a wall. */
  lemma {:induction false} FlightEnds(g: array2<Node>, pos: Pos, h: Dir, travelled: int, distance: int, fuel: nat)
    requires InGrid(g, pos) && LinksInGrid(g)
    ensures var r := Flight(g, pos, h, travelled, distance, fuel);
      r.Ok? ==>
        InGrid(g, r.value.pos) &&
        (r.value.travelled == distance || Link(g[r.value.pos.row, r.value.pos.col].links, r.value.heading).None?)
    decreases fuel
  {
    if travelled != distance && fuel > 0 {
      var next := Link(g[pos.row, pos.col].links, h);
      if next.Some? {
        assert LinksWithin(g.Length0, g.Length1, g[pos.row, pos.col].links);
        var q := next.value;
        var n := g[q.row, q.col];
        FlightEnds(g, q, if n.kind.Tunnel? then TunnelTurn(n.links, h) else h,
                   if n.kind.Cave? then travelled + 1 else travelled, distance, fuel - 1);
      }
    }
  }

  /** Counting one cave at a time from below, the arrow never overshoots its distance. */
  lemma {:induction false} FlightCounts(g: array2<Node>, pos: Pos, h: Dir, travelled: int, distance: int, fuel: nat)
    requires InGrid(g, pos) && LinksInGrid(g)
    requires travelled <= distance
    ensures var r := Flight(g, pos, h, travelled, distance, fuel);
      r.Ok? ==> travelled <= r.value.travelled <= distance
    decreases fuel
  {
    if travelled != distance && fuel > 0 {
      var next := Link(g[pos.row, pos.col].links, h);
      if next.Some? {
        assert LinksWithin(g.Length0, g.Length1, g[pos.row, pos.col].links);
        var q := next.value;
        var n := g[q.row, q.col];
        FlightCounts(g, q, if n.kind.Tunnel? then TunnelTurn(n.links, h) else h,
                     if n.kind.Cave? then travelled + 1 else travelled, distance, fuel - 1);
      }
    }
  }

  /**
   * What a completed shot does to an Otyugh: one at full health is left at
   * half health and reported as hit (0); a wounded one is killed, removed
   * from its cave, and reported as killed (1).
   */
  lemma ShotOutcome(n: Node)
    requires HasOtyugh(n) && ValidHealth(n.kind.otyugh.value.health)
    ensures n.kind.otyugh.value.health == FullHealth ==>
      Codes(n, true) == [0] && Impact(n, true).Ok? && HasOtyugh(Impact(n, true).value) &&
      Impact(n, true).value.kind.otyugh.value.health == WoundedHealth
    ensures n.kind.otyugh.value.health != FullHealth ==>
      Codes(n, true) == [1, 0] && Impact(n, true).Ok? && !HasOtyugh(Impact(n, true).value)
    ensures Impact(n, true).Ok? && Impact(n, true).value.kind.arrows == n.kind.arrows
  {
  }

  /** A shot that falls short or misses reports no code, and only a cut-short one leaves an arrow. */
  lemma MissOutcome(n: Node, complete: bool)
    requires !complete || !HasOtyugh(n)
    ensures Codes(n, complete) == []
    ensures Impact(n, complete).Ok? && !n.kind.Generic? ==>
      Impact(n, complete).value.kind.arrows == n.kind.arrows + (if !complete || n.kind.Tunnel? then 1 else 0)
    ensures Impact(n, complete).Err? <==> !complete && n.kind.Generic?
  {
  }
}
