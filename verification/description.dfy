/**
 * getRoomDescription: the text shown to the player for a cave or a
 * tunnel. It names the kind of room, lists the open sides, the treasure
 * and the arrows lying there, and reports the smell of Otyughs nearby,
 * which two runs of the smell search decide.
 */
module Description {
  import opened Wrappers
  import opened Nodes
  import opened Topology
  import opened Search
  import Text

  const StrongSmell: string := "\nYou smell a strong pungent smell"
  const WeakSmell: string := "\nYou smell a pungent smell"
  const GenericError: string := "Cannot get room description from G node!"
  const DisconnectedError: string :=
    "Cannot get room description of a disconnected node, there are no connections in any side!"
  const CaveDegreeError: string := "Cave can have either 1, 3 or 4 neighbours!"
  const TunnelDegreeError: string := "Tunnel can have exactly 2 neighbours!"
  const CaveHeading: string := "You are in a cave\nDoors lead to the "
  const TunnelHeading: string := "You are in a tunnel\nthat continues to the "
  const YouFind: string := "\nYou find "

  /** The compass letters of the linked sides, in the order north, east, south, west. */
  function OpenSides(l: Links): (s: seq<string>)
    ensures |s| == Degree(l)
  {
    (if l.top.Some? then ["N"] else [])
      + (if l.right.Some? then ["E"] else [])
      + (if l.bottom.Some? then ["S"] else [])
      + (if l.left.Some? then ["W"] else [])
  }

  /** The parts with `sep` between each two neighbouring ones. */
  function Join(parts: seq<string>, sep: string): string
  {
    if |parts| == 0 then ""
    else if |parts| == 1 then parts[0]
    else parts[0] + sep + Join(parts[1..], sep)
  }

  /** The sides other than west, in the order the description lists them. */
  function NorthEastSouth(l: Links): seq<string>
  {
    (if l.top.Some? then ["N"] else []) + (if l.right.Some? then ["E"] else []) + (if l.bottom.Some? then ["S"] else [])
  }

  /** Each part followed by `sep`. */
  function Terminated(parts: seq<string>, sep: string): string
  {
    if |parts| == 0 then "" else parts[0] + sep + Terminated(parts[1..], sep)
  }

  /**
   * What the description appends for the sides: "N, ", "E, " and "S, " for
   * the linked ones among north, east and south, then a bare "W" for west.
   */
  function RawSides(l: Links): string
  {
    Terminated(NorthEastSouth(l), ", ") + (if l.left.Some? then "W" else "")
  }

  /** The text without its final ", ", when it ends with one. */
  function StripSeparator(s: string): string
  {
    if |s| >= 2 && s[|s| - 1] == ' ' && s[|s| - 2] == ',' then s[..|s| - 2] else s
  }

  /** The opening line and the lead-in to the list of sides. */
  function Heading(n: Node): string
  {
    if n.kind.Cave? then CaveHeading else TunnelHeading
  }

  /** The noun for `count` items of a treasure. */
  function Noun(t: Treasure, count: nat): string
  {
    match t
    case Ruby => if count == 1 then "ruby" else "rubies"
    case Sapphire => if count == 1 then "sapphire" else "sapphires"
    case Diamond => if count == 1 then "diamond" else "diamonds"
  }

  /** The line for one kind of treasure, empty when the cave holds none of it. */
  function TreasureLine(ts: seq<Treasure>, t: Treasure): string
  {
    var k := multiset(ts)[t];
    if k == 0 then "" else YouFind + Text.NatToString(k) + " " + Noun(t, k) + " here"
  }

  /**
   * The treasure lines in the order the description lists the kinds of
   * treasure, sapphires, diamonds, rubies: the iteration order of a Java
   * HashSet holding their names.
   */
  function TreasureLines(ts: seq<Treasure>): string
  {
    TreasureLine(ts, Sapphire) + TreasureLine(ts, Diamond) + TreasureLine(ts, Ruby)
  }

  function ArrowLine(arrows: nat): string
  {
    if arrows == 1 then YouFind + "1 arrow here"
    else if arrows > 1 then YouFind + Text.NatToString(arrows) + " arrows here"
    else ""
  }

  /**
   * The smell, from the number of Otyughs at distance one (`near`) and,
   * when there is none that close, at distance two (`far`).
   */
  function SmellLine(near: nat, far: nat): string
  {
    if near >= 1 then StrongSmell
    else if far == 1 then WeakSmell
    else if far > 1 then StrongSmell
    else ""
  }

  /** Everything the description says before the smell. */
  function Body(n: Node): string
    requires !n.kind.Generic?
  {
    Heading(n) + Join(OpenSides(n.links), ", ")
      + (if n.kind.Cave? then TreasureLines(n.kind.treasures) else "")
      + ArrowLine(n.kind.arrows)
  }

  /**
   * The whole description of a describable node with `near` Otyughs at
   * distance one and `far` at distance two, as its parts are meant: the
   * open sides joined by ", ", the treasure, the arrows, the smell.
   */
  function Describe(n: Node, near: nat, far: nat): string
    requires !n.kind.Generic?
  {
    Body(n) + SmellLine(near, far)
  }

  /** A cave with 1, 3 or 4 links, or a tunnel with 2. */
  predicate Describable(n: Node)
  {
    match n.kind
    case Generic => false
    case Cave(_, _, _, _, _, _) => Degree(n.links) == 1 || Degree(n.links) == 3 || Degree(n.links) == 4
    case Tunnel(_, _, _) => Degree(n.links) == 2
  }

  /** The first of the checks getRoomDescription makes that the node fails, if any. */
  function DescriptionError(n: Node): (e: Option<Error>)
    ensures e.None? <==> Describable(n)
  {
    var k := Degree(n.links);
    if n.kind.Generic? then Some(IllegalArgument(GenericError))
    else if k == 0 then
      Some(IllegalArgument(DisconnectedError))
    else if n.kind.Cave? && k != 1 && k != 3 && k != 4 then
      Some(IllegalArgument(CaveDegreeError))
    else if n.kind.Tunnel? && k != 2 then
      Some(IllegalArgument(TunnelDegreeError))
    else None
  }

  /**
   * getRoomDescription for the node at `p`. The checks come first, in the
   * order generic node, no links, cave degree, tunnel degree; then the text
   * is assembled piece by piece, the separator after the last side is
   * deleted, and the smell search runs for distance one and, only when it
   * finds nothing, for distance two.
   */
  method RoomDescription(g: array2<Node>, p: Pos) returns (r: Result<string>)
    requires InGrid(g, p) && LinksInGrid(g)
    ensures r.Err? <==> DescriptionError(g[p.row, p.col]).Some?
    ensures r.Err? ==> r.error == DescriptionError(g[p.row, p.col]).value
    ensures r.Ok? ==> r.value == Describe(g[p.row, p.col],
      |AtDistance(TopologyOf(g), p, 1, OtyughCells(g))|, |AtDistance(TopologyOf(g), p, 2, OtyughCells(g))|)
  {
    var n := g[p.row, p.col];
    var e := DescriptionError(n);
    if e.Some? {
      return Err(e.value);
    }
    var sb := Heading(n) + RawSides(n.links);
    SidesJoined(Heading(n), n.links);
    sb := StripSeparator(sb);
    if n.kind.Cave? {
      sb := sb + TreasureLines(n.kind.treasures);
    }
    sb := sb + ArrowLine(n.kind.arrows);
    assert sb == Body(n);
    var smell := Smell(g, p);
    sb := sb + smell;
    return Ok(sb);
  }

  /**
   * The smell part of the description: the smell search for distance one
   * and, only when it finds no Otyugh, for distance two.
   */
  method Smell(g: array2<Node>, p: Pos) returns (smell: string)
    requires InGrid(g, p) && LinksInGrid(g)
    ensures smell == SmellLine(|AtDistance(TopologyOf(g), p, 1, OtyughCells(g))|,
                               |AtDistance(TopologyOf(g), p, 2, OtyughCells(g))|)
  {
    ghost var t, cells := TopologyOf(g), OtyughCells(g);
    var near := OtyughsAtDistance(g, p, 1);
    SelfNeverCounted(t, p, 1, cells);
    if near >= 1 {
      smell := StrongSmell;
    } else {
      var far := OtyughsAtDistance(g, p, 2);
      SelfNeverCounted(t, p, 2, cells);
      if far == 1 {
        smell := WeakSmell;
      } else if far > 1 {
        smell := StrongSmell;
      } else {
        smell := "";
      }
    }
  }

  // ------------------------------------------------------------------ lemmas

  lemma {:induction false} TerminatedJoin(parts: seq<string>, sep: string)
    requires |parts| >= 1
    ensures Terminated(parts, sep) == Join(parts, sep) + sep
  {
    if |parts| > 1 {
      TerminatedJoin(parts[1..], sep);
    }
  }

  lemma {:induction false} JoinLast(parts: seq<string>, w: string, sep: string)
    ensures Join(parts + [w], sep) == Terminated(parts, sep) + w
  {
    if |parts| > 0 {
      assert (parts + [w])[1..] == parts[1..] + [w];
      JoinLast(parts[1..], w, sep);
    }
  }

  /**
   * Deleting the final separator of the appended sides gives the open
   * sides joined by ", ": no trailing separator, and nothing else lost.
   */
  lemma SidesJoined(prefix: string, l: Links)
    requires l != NoLinks
    ensures StripSeparator(prefix + RawSides(l)) == prefix + Join(OpenSides(l), ", ")
  {
    var nes := NorthEastSouth(l);
    if l.left.Some? {
      assert OpenSides(l) == nes + ["W"];
      JoinLast(nes, "W", ", ");
      assert (prefix + RawSides(l))[|prefix + RawSides(l)| - 1] == 'W';
    } else {
      assert OpenSides(l) == nes;
      TerminatedJoin(nes, ", ");
      assert prefix + RawSides(l) == (prefix + Join(nes, ", ")) + ", ";
    }
  }

  /** The node asked about lies at distance 0, so it never counts at distance 1 or more. */
  lemma SelfNeverCounted(t: Topo, p: Pos, m: nat, cells: set<Pos>)
    requires m >= 1
    ensures AtDistance(t, p, m, cells - {p}) == AtDistance(t, p, m, cells)
  {
    forall v | v in AtDistance(t, p, m, cells) ensures v != p {
      assert p in Ball(t, p, 0);
      BallMono(t, p, 0, m - 1);
    }
  }

  /**
   * The smell levels: strong with an Otyugh next door or two or more at
   * distance two, faint with exactly one at distance two, none otherwise.
   */
  lemma SmellLevels(near: nat, far: nat)
    ensures SmellLine(near, far) == StrongSmell <==> near >= 1 || far >= 2
    ensures SmellLine(near, far) == WeakSmell <==> near == 0 && far == 1
    ensures SmellLine(near, far) == "" <==> near == 0 && far == 0
  {
    assert |StrongSmell| != |WeakSmell|;
  }

  /** The arrow line: singular for one arrow, the count and a plural otherwise, absent for none. */
  lemma ArrowLineCounts(arrows: nat)
    ensures arrows == 0 <==> ArrowLine(arrows) == ""
    ensures arrows >= 1 ==>
      ArrowLine(arrows) == YouFind + Text.NatToString(arrows) + (if arrows == 1 then " arrow" else " arrows") + " here"
  {
  }

  /**
   * A treasure line appears exactly for the kinds the cave holds, carries
   * the number of items of that kind, and uses the plural unless there is
   * one item.
   */
  lemma TreasureLineCounts(ts: seq<Treasure>, t: Treasure)
    ensures TreasureLine(ts, t) == "" <==> t !in ts
    ensures t in ts ==>
      TreasureLine(ts, t) == YouFind + Text.NatToString(multiset(ts)[t]) + " " + Noun(t, multiset(ts)[t]) + " here"
  {
  }
}
