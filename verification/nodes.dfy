/**
 * The node model: a grid cell with four optional neighbour links, a name,
 * and a kind. A generic node is a placeholder; once the dungeon's links
 * are final it is cast to a cave (1, 3 or 4 links) or a tunnel (2 links).
 * Caves hold treasure, at most one Otyugh, arrows, the Yugoloth, the thief
 * and the pit; tunnels hold arrows, the Yugoloth and the thief; a generic
 * node holds nothing, and each operation the kind does not support fails
 * with a capability error.
 *
 * A neighbour is identified by its grid position. A node is a value: every
 * operation that changes a node returns the changed node, and the engine
 * stores it back into its grid.
 */
module Nodes {
  import opened Wrappers
  import opened Otyughs
  import Text
  import opened Randomness

  const MaxArrows: nat := 4
  const MaxTreasures: nat := 4

  // The messages of the exceptions the node operations throw.
  const TunnelNoOtyugh: string := "Tunnel cannot have Otyugh!"
  const GenericNoArrows: string := "Generic node cannot have any arrows!"
  const GenericHasNoOtyugh: string := "Generic node does not have an Otyugh!"
  const EmptyTreasureName: string := "Treasure name cannot be empty!"
  const IllegalTreasureName: string := "Illegal treasure name "
  const TunnelNoTreasurePlacing: string := "Cannot place treasure in a tunnel node!"
  const GenericNoTreasurePlacing: string := "Cannot place treasure in a generic node!"
  const TunnelNoTreasure: string := "Tunnel does not have any treasure!"
  const TunnelNoTreasureToRemove: string := "Tunnel does not have any treasure to remove!"
  const TunnelNoPit: string := "Tunnel cannot have pits!"
  const TunnelCastError: string := "Only a GenericNode can be cast to TunnelNode!"
  const CaveCastError: string := "Only a GenericNode can be cast to CaveNode!"
  const NoArrowToRemove: string := "No arrows to remove!"
  const NoYugolothToRemove: string := "No Yugoloth to remove from location!"
  const NoOtyughToUpdate: string := "No Otyugh to update health of!"
  const NoOtyughToRemove: string := "No Otyugh to remove from cave!"
  const GenericNoTreasure: string := "Generic node does not have any treasure!"
  const GenericNoTreasureToRemove: string := "Generic node does not have any treasure to remove!"
  const GenericHasNoYugoloth: string := "Generic node does not have any Yugoloth!"
  const GenericNoThief: string := "Generic node cannot have thief!"
  const GenericNoPit: string := "Generic node cannot have pits!"
  const GenericNoYugoloth: string := "Generic node cannot have any Yugoloth!"
  const GenericNoOtyugh: string := "Generic node cannot have an Otyugh!"
  const EmptyTreasureBox: string := "Cannot pick treasure from an empty treasure box!"
  const OtyughAlreadyPlaced: string := "Another Otyugh already placed in this cave!"
  const NotInTreasureBox: string := " not found in treasure box!"
  const SelfLinkSuffix: string := " node as this node!"

  datatype Pos = Pos(row: nat, col: nat)

  /** The four sides of a node; the engine spells them "U", "D", "L" and "R". */
  datatype Dir = Up | Down | Left | Right

  function Opposite(d: Dir): (o: Dir)
    ensures o != d
  {
    match d
    case Up => Down
    case Down => Up
    case Left => Right
    case Right => Left
  }

  lemma OppositeInvolutive(d: Dir)
    ensures Opposite(Opposite(d)) == d
  {
  }

  datatype Links = Links(top: Option<Pos>, bottom: Option<Pos>, right: Option<Pos>, left: Option<Pos>)

  const NoLinks: Links := Links(None, None, None, None)

  function Link(l: Links, d: Dir): Option<Pos>
  {
    match d
    case Up => l.top
    case Down => l.bottom
    case Left => l.left
    case Right => l.right
  }

  /** The links with the one on side `d` replaced. */
  function WithLink(l: Links, d: Dir, v: Option<Pos>): (r: Links)
    ensures Link(r, d) == v
    ensures forall e :: e != d ==> Link(r, e) == Link(l, e)
  {
    match d
    case Up => l.(top := v)
    case Down => l.(bottom := v)
    case Left => l.(left := v)
    case Right => l.(right := v)
  }

  function Count(b: bool): nat
  {
    if b then 1 else 0
  }

  /** getNeighbourCount: how many of the four sides are linked. */
  function Degree(l: Links): (k: nat)
    ensures k <= 4
    ensures k == 0 <==> l == NoLinks
    ensures k == 4 <==> l.top.Some? && l.bottom.Some? && l.right.Some? && l.left.Some?
  {
    Count(l.top.Some?) + Count(l.bottom.Some?) + Count(l.right.Some?) + Count(l.left.Some?)
  }

  datatype Treasure = Sapphire | Diamond | Ruby

  /** Treasure.values(), in declaration order. */
  const TreasureValues: seq<Treasure> := [Sapphire, Diamond, Ruby]

  function TreasureName(t: Treasure): string
  {
    match t
    case Sapphire => "SAPPHIRE"
    case Diamond => "DIAMOND"
    case Ruby => "RUBY"
  }

  /** Treasure.valueOf: the treasure with exactly that name, if there is one. */
  function ParseTreasure(s: string): (r: Option<Treasure>)
    ensures r.Some? ==> TreasureName(r.value) == s
    ensures r.None? ==> forall t :: TreasureName(t) != s
  {
    if s == "SAPPHIRE" then Some(Sapphire)
    else if s == "DIAMOND" then Some(Diamond)
    else if s == "RUBY" then Some(Ruby)
    else None
  }

  lemma {:induction false} ParseTreasureName(t: Treasure)
    ensures ParseTreasure(TreasureName(t)) == Some(t)
  {
    match t
    case Sapphire =>
    case Diamond =>
      assert TreasureName(t) != "SAPPHIRE";
    case Ruby =>
      assert TreasureName(t) != "SAPPHIRE" && TreasureName(t) != "DIAMOND";
  }

  datatype Kind =
    | Generic
    | Cave(treasures: seq<Treasure>, otyugh: Option<Otyugh>, arrows: nat,
           yugoloth: bool, thief: bool, pit: bool)
    | Tunnel(arrows: nat, yugoloth: bool, thief: bool)

  datatype Node = Node(name: string, links: Links, kind: Kind)

  /** getType. */
  function TypeTag(n: Node): (t: string)
    ensures t == "G" <==> n.kind.Generic?
    ensures t == "C" <==> n.kind.Cave?
    ensures t == "T" <==> n.kind.Tunnel?
  {
    match n.kind
    case Generic => "G"
    case Cave(_, _, _, _, _, _) => "C"
    case Tunnel(_, _, _) => "T"
  }

  /** Two versions of a node agree on everything but their contents. */
  predicate SameShape(a: Node, b: Node)
  {
    a.name == b.name && a.links == b.links && TypeTag(a) == TypeTag(b)
  }

  /** A cave holding an Otyugh. */
  predicate HasOtyugh(n: Node)
  {
    n.kind.Cave? && n.kind.otyugh.Some?
  }

  // ---------------------------------------------------------------- construction

  /**
   * GenericNode() and GenericNode(name): no links. A node created without
   * a name is named after the shared node counter.
   */
  function NewGeneric(name: Option<string>, counter: nat): (n: Node)
    ensures n.kind.Generic? && TypeTag(n) == "G"
    ensures n.links == NoLinks && Degree(n.links) == 0
    ensures name.Some? ==> n.name == name.value
    ensures name.None? ==> n.name == Text.NatToString(counter)
  {
    Node(if name.Some? then name.value else Text.NatToString(counter), NoLinks, Generic)
  }

  /**
   * The five-argument GenericNode constructor. Its third and fourth
   * parameters are named left and right, but it hands them on in the
   * order the base class expects (top, bottom, right, left), so the
   * argument called `left` becomes the right link and vice versa.
   */
  function GenericWithLinks(top: Option<Pos>, bottom: Option<Pos>, left: Option<Pos>,
                            right: Option<Pos>, name: string): (n: Node)
    ensures n.kind.Generic? && n.name == name
    ensures n.links.top == top && n.links.bottom == bottom
    ensures n.links.right == left && n.links.left == right
  {
    Node(name, Links(top, bottom, left, right), Generic)
  }

  /**
   * cloneNode: a copy with the same name, links and contents. The generic
   * clone goes through the swapping constructor with right and left
   * exchanged, which cancels the swap.
   */
  function CloneNode(n: Node): (c: Node)
    ensures c == n
  {
    match n.kind
    case Generic =>
      GenericWithLinks(n.links.top, n.links.bottom, n.links.right, n.links.left, n.name)
    case Cave(ts, o, a, y, th, p) =>
      Node(n.name, n.links, Cave(ts[..], o, a, y, th, p))
    case Tunnel(a, y, th) =>
      Node(n.name, n.links, Tunnel(a, y, th))
  }

  function SideName(d: Dir): string
  {
    match d
    case Up => "top"
    case Down => "bottom"
    case Left => "left"
    case Right => "right"
  }

  /**
   * setTopNode / setBottomNode / setLeftNode / setRightNode on the node at
   * position `self`: a node cannot be its own neighbour.
   */
  function SetLink(n: Node, self: Pos, d: Dir, target: Option<Pos>): (r: Result<Node>)
    ensures r.Ok? <==> target != Some(self)
    ensures r.Err? ==> r.error == IllegalArgument("Cannot set " + SideName(d) + SelfLinkSuffix)
    ensures r.Ok? ==> r.value.name == n.name && r.value.kind == n.kind
    ensures r.Ok? ==> Link(r.value.links, d) == target
    ensures r.Ok? ==> forall e :: e != d ==> Link(r.value.links, e) == Link(n.links, e)
  {
    if target == Some(self) then Err(IllegalArgument("Cannot set " + SideName(d) + SelfLinkSuffix))
    else Ok(n.(links := WithLink(n.links, d, target)))
  }

  /** castToCaveNode: only a generic node can be cast; name and links are kept. */
  function CastToCave(n: Node): (r: Result<Node>)
    ensures r.Ok? <==> n.kind.Generic?
    ensures r.Ok? ==> r.value.name == n.name && r.value.links == n.links
    ensures r.Ok? ==> r.value.kind == Cave([], None, 0, false, false, false)
    ensures r.Err? ==> r.error == IllegalArgument(CaveCastError)
  {
    if n.kind.Generic? then Ok(Node(n.name, n.links, Cave([], None, 0, false, false, false)))
    else Err(IllegalArgument(CaveCastError))
  }

  /** castToTunnelNode: only a generic node can be cast; name and links are kept. */
  function CastToTunnel(n: Node): (r: Result<Node>)
    ensures r.Ok? <==> n.kind.Generic?
    ensures r.Ok? ==> r.value.name == n.name && r.value.links == n.links
    ensures r.Ok? ==> r.value.kind == Tunnel(0, false, false)
    ensures r.Err? ==> r.error == IllegalArgument(TunnelCastError)
  {
    if n.kind.Generic? then Ok(Node(n.name, n.links, Tunnel(0, false, false)))
    else Err(IllegalArgument(TunnelCastError))
  }

  // ---------------------------------------------------------------- treasure

  /**
   * placeTreasure(name, count): appends `count` copies of the named
   * treasure. Rejected, in this order: an empty name, a count that is not
   * positive, a name that is not a treasure.
   */
  method PlaceTreasure(n: Node, name: string, count: int) returns (r: Result<Node>)
    ensures r.Ok? <==> n.kind.Cave? && name != "" && count > 0 && ParseTreasure(name).Some?
    ensures n.kind.Tunnel? ==> r == Err(Unsupported(TunnelNoTreasurePlacing))
    ensures n.kind.Generic? ==> r == Err(Unsupported(GenericNoTreasurePlacing))
    ensures n.kind.Cave? && name == "" ==>
      r == Err(IllegalArgument(EmptyTreasureName))
    ensures n.kind.Cave? && name != "" && count <= 0 ==>
      r == Err(IllegalArgument("Cannot place " + Text.IntToString(count) + " " + name + "!"))
    ensures n.kind.Cave? && name != "" && count > 0 && ParseTreasure(name).None? ==>
      r == Err(IllegalArgument(IllegalTreasureName + name + "!"))
    ensures r.Ok? ==> SameShape(r.value, n)
    ensures r.Ok? ==> r.value == n.(kind := n.kind.(treasures := r.value.kind.treasures))
    ensures r.Ok? ==>
      (r.value.kind.treasures == n.kind.treasures + seq(count, _ => ParseTreasure(name).value))
  {
    if n.kind.Tunnel? {
      return Err(Unsupported(TunnelNoTreasurePlacing));
    }
    if n.kind.Generic? {
      return Err(Unsupported(GenericNoTreasurePlacing));
    }
    if name == "" {
      return Err(IllegalArgument(EmptyTreasureName));
    }
    if count <= 0 {
      return Err(IllegalArgument("Cannot place " + Text.IntToString(count) + " " + name + "!"));
    }
    var parsed := ParseTreasure(name);
    if parsed.None? {
      return Err(IllegalArgument(IllegalTreasureName + name + "!"));
    }
    var t := parsed.value;
    var treasures := n.kind.treasures;
    var i := 0;
    while i < count
      invariant 0 <= i <= count
      invariant treasures == n.kind.treasures + seq(i, _ => t)
    {
      treasures := treasures + [t];
      i := i + 1;
    }
    return Ok(n.(kind := n.kind.(treasures := treasures)));
  }

  /**
   * placeTreasure(random): replaces the cave's treasure with between one
   * and four random treasures, and sends the thief away. The first draw
   * picks the number of items, each further draw one item.
   */
  method PlaceRandomTreasure(n: Node, rng: Rng) returns (r: Result<Node>)
    modifies rng
    ensures n.kind.Tunnel? ==> r == Err(Unsupported(TunnelNoTreasurePlacing))
    ensures n.kind.Generic? ==> r == Err(Unsupported(GenericNoTreasurePlacing))
    ensures !n.kind.Cave? ==> rng.used == old(rng.used)
    ensures n.kind.Cave? <==> r.Ok?
    ensures r.Ok? ==> SameShape(r.value, n) && !r.value.kind.thief
    ensures r.Ok? ==> r.value == n.(kind := n.kind.(treasures := r.value.kind.treasures, thief := false))
    ensures r.Ok? ==> 1 <= |r.value.kind.treasures| <= MaxTreasures
    ensures r.Ok? ==> |r.value.kind.treasures| == rng.draws(old(rng.used)) % MaxTreasures + 1
    ensures r.Ok? ==> forall i :: 0 <= i < |r.value.kind.treasures| ==>
      r.value.kind.treasures[i] == TreasureValues[rng.draws(old(rng.used) + 1 + i) % 3]
    ensures r.Ok? ==> rng.used == old(rng.used) + 1 + |r.value.kind.treasures|
  {
    if n.kind.Tunnel? {
      return Err(Unsupported(TunnelNoTreasurePlacing));
    }
    if n.kind.Generic? {
      return Err(Unsupported(GenericNoTreasurePlacing));
    }
    ghost var start := rng.used;
    var numTreasures := rng.NextInt((MaxTreasures - 1) + 1);
    numTreasures := numTreasures + 1;
    var treasures: seq<Treasure> := [];
    // The loop body of the do-while runs once before the test.
    var idx := rng.NextInt(|TreasureValues|);
    treasures := treasures + [TreasureValues[idx]];
    var generated := 1;
    while generated != numTreasures
      invariant 1 <= generated <= numTreasures
      invariant |treasures| == generated
      invariant rng.used == start + 1 + generated
      invariant forall i :: 0 <= i < generated ==> treasures[i] == TreasureValues[rng.draws(start + 1 + i) % 3]
      decreases numTreasures - generated
    {
      idx := rng.NextInt(|TreasureValues|);
      treasures := treasures + [TreasureValues[idx]];
      generated := generated + 1;
    }
    return Ok(n.(kind := n.kind.(treasures := treasures, thief := false)));
  }

  /** The position of the first occurrence of `t` in `s`, or |s| when there is none. */
  function FirstIndex(s: seq<Treasure>, t: Treasure): (i: nat)
    ensures i <= |s|
    ensures i < |s| ==> s[i] == t
    ensures forall k :: 0 <= k < i ==> s[k] != t
  {
    if |s| == 0 then 0
    else if s[0] == t then 0
    else 1 + FirstIndex(s[1..], t)
  }

  /** Dropping position j + 1 of x :: a is x followed by a with position j dropped. */
  lemma DropAfterHead<T>(x: T, a: seq<T>, j: nat)
    requires j < |a|
    ensures [x] + (a[..j] + a[j + 1..]) == ([x] + a)[..j + 1] + ([x] + a)[j + 2..]
  {
    var s := [x] + a;
    assert s[..j + 1] == [x] + a[..j];
    assert s[j + 2..] == a[j + 1..];
  }

  /** Dropping one position takes one copy of its element out of the multiset. */
  lemma DropCount<T>(s: seq<T>, i: nat)
    requires i < |s|
    ensures multiset(s[..i] + s[i + 1..]) == multiset(s) - multiset{s[i]}
  {
    assert s == s[..i] + [s[i]] + s[i + 1..];
  }

  /** List.remove(Object): the list without its first occurrence of `t`; the elements before and after it keep their order. */
  function RemoveFirst(s: seq<Treasure>, t: Treasure): (r: seq<Treasure>)
    ensures var i := FirstIndex(s, t); i < |s| ==> r == s[..i] + s[i + 1..]
    ensures FirstIndex(s, t) == |s| ==> r == s
  {
    if |s| == 0 then s
    else if s[0] == t then
      assert s[..0] == [];
      s[1..]
    else
      var tail := s[1..];
      assert s == [s[0]] + tail;
      var j := FirstIndex(tail, t);
      var rest := RemoveFirst(tail, t);
      if j < |tail| then DropAfterHead(s[0], tail, j); [s[0]] + rest
      else [s[0]] + rest
  }

  /** Removing a present treasure takes exactly one copy of it out of the multiset; the list is one shorter. */
  lemma RemoveFirstCount(s: seq<Treasure>, t: Treasure)
    requires t in s
    ensures |RemoveFirst(s, t)| == |s| - 1
    ensures multiset(RemoveFirst(s, t)) == multiset(s) - multiset{t}
  {
    DropCount(s, FirstIndex(s, t));
  }

  /**
   * removeTreasure: takes one item of the named treasure out of the cave.
   * Rejected, in this order: an empty name, an empty treasure box, a name
   * that is not a treasure, a treasure the cave does not hold.
   */
  function RemoveTreasure(n: Node, name: string): (r: Result<Node>)
    ensures r.Ok? <==> n.kind.Cave? && ParseTreasure(name).Some? && ParseTreasure(name).value in n.kind.treasures
    ensures n.kind.Tunnel? ==> r == Err(Unsupported(TunnelNoTreasureToRemove))
    ensures n.kind.Generic? ==> r == Err(Unsupported(GenericNoTreasureToRemove))
    ensures n.kind.Cave? && name == "" ==> r == Err(IllegalArgument(EmptyTreasureName))
    ensures n.kind.Cave? && name != "" && |n.kind.treasures| == 0 ==>
      r == Err(IllegalArgument(EmptyTreasureBox))
    ensures n.kind.Cave? && name != "" && |n.kind.treasures| != 0 && ParseTreasure(name).None? ==>
      r == Err(IllegalArgument(IllegalTreasureName + name + "!"))
    ensures n.kind.Cave? && |n.kind.treasures| != 0 && ParseTreasure(name).Some?
            && ParseTreasure(name).value !in n.kind.treasures ==>
      r == Err(IllegalArgument("Treasure " + name + NotInTreasureBox))
    ensures r.Ok? ==> SameShape(r.value, n)
    ensures r.Ok? ==> r.value == n.(kind := n.kind.(treasures := r.value.kind.treasures))
    ensures r.Ok? ==> var ts, t := n.kind.treasures, ParseTreasure(name).value;
      r.value.kind.treasures == ts[..FirstIndex(ts, t)] + ts[FirstIndex(ts, t) + 1..]
  {
    match n.kind
    case Tunnel(_, _, _) => Err(Unsupported(TunnelNoTreasureToRemove))
    case Generic => Err(Unsupported(GenericNoTreasureToRemove))
    case Cave(ts, _, _, _, _, _) =>
      if name == "" then Err(IllegalArgument(EmptyTreasureName))
      else if |ts| == 0 then Err(IllegalArgument(EmptyTreasureBox))
      else if ParseTreasure(name).None? then Err(IllegalArgument(IllegalTreasureName + name + "!"))
      else if ParseTreasure(name).value !in ts then
        Err(IllegalArgument("Treasure " + name + NotInTreasureBox))
      else
        var t := ParseTreasure(name).value;
        assert FirstIndex(ts, t) < |ts|;
        Ok(n.(kind := n.kind.(treasures := RemoveFirst(ts, t))))
  }

  /** A successful removeTreasure takes exactly one item of the named treasure out of the cave. */
  lemma RemoveTreasureCount(n: Node, name: string)
    requires RemoveTreasure(n, name).Ok?
    ensures var ts, t := n.kind.treasures, ParseTreasure(name).value;
      multiset(RemoveTreasure(n, name).value.kind.treasures) == multiset(ts) - multiset{t} &&
      |RemoveTreasure(n, name).value.kind.treasures| == |ts| - 1
  {
    RemoveFirstCount(n.kind.treasures, ParseTreasure(name).value);
  }

  /** getTreasures: the names of the cave's treasure, in order, as a new list. */
  function GetTreasures(n: Node): (r: Result<seq<string>>)
    ensures r.Ok? <==> n.kind.Cave?
    ensures n.kind.Tunnel? ==> r == Err(Unsupported(TunnelNoTreasure))
    ensures n.kind.Generic? ==> r == Err(Unsupported(GenericNoTreasure))
    ensures r.Ok? ==> |r.value| == |n.kind.treasures|
    ensures r.Ok? ==> forall i :: 0 <= i < |r.value| ==> r.value[i] == TreasureName(n.kind.treasures[i])
  {
    match n.kind
    case Tunnel(_, _, _) => Err(Unsupported(TunnelNoTreasure))
    case Generic => Err(Unsupported(GenericNoTreasure))
    case Cave(ts, _, _, _, _, _) => Ok(seq(|ts|, i requires 0 <= i < |ts| => TreasureName(ts[i])))
  }

  // ---------------------------------------------------------------- Otyugh

  /** placeOtyugh: a cave holds at most one Otyugh. */
  function PlaceOtyugh(n: Node, o: Otyugh): (r: Result<Node>)
    ensures r.Ok? <==> n.kind.Cave? && n.kind.otyugh.None?
    ensures n.kind.Tunnel? ==> r == Err(Unsupported(TunnelNoOtyugh))
    ensures n.kind.Generic? ==> r == Err(Unsupported(GenericNoOtyugh))
    ensures n.kind.Cave? && n.kind.otyugh.Some? ==>
      r == Err(IllegalArgument(OtyughAlreadyPlaced))
    ensures r.Ok? ==> SameShape(r.value, n) && r.value == n.(kind := n.kind.(otyugh := Some(o)))
  {
    match n.kind
    case Tunnel(_, _, _) => Err(Unsupported(TunnelNoOtyugh))
    case Generic => Err(Unsupported(GenericNoOtyugh))
    case Cave(_, ot, _, _, _, _) =>
      if ot.Some? then Err(IllegalArgument(OtyughAlreadyPlaced))
      else Ok(n.(kind := n.kind.(otyugh := Some(o))))
  }

  /** removeOtyugh: there must be one to remove; afterwards there is none. */
  function RemoveOtyugh(n: Node): (r: Result<Node>)
    ensures r.Ok? <==> HasOtyugh(n)
    ensures n.kind.Tunnel? ==> r == Err(Unsupported(TunnelNoOtyugh))
    ensures n.kind.Generic? ==> r == Err(Unsupported(GenericHasNoOtyugh))
    ensures n.kind.Cave? && n.kind.otyugh.None? ==> r == Err(IllegalArgument(NoOtyughToRemove))
    ensures r.Ok? ==> SameShape(r.value, n) && !HasOtyugh(r.value)
    ensures r.Ok? ==> r.value == n.(kind := n.kind.(otyugh := None))
  {
    match n.kind
    case Tunnel(_, _, _) => Err(Unsupported(TunnelNoOtyugh))
    case Generic => Err(Unsupported(GenericHasNoOtyugh))
    case Cave(_, ot, _, _, _, _) =>
      if ot.None? then Err(IllegalArgument(NoOtyughToRemove))
      else Ok(n.(kind := n.kind.(otyugh := None)))
  }

  /** getOtyugh: a copy of the cave's Otyugh, or none. */
  function GetOtyugh(n: Node): (r: Result<Option<Otyugh>>)
    ensures r.Ok? <==> n.kind.Cave?
    ensures n.kind.Tunnel? ==> r == Err(Unsupported(TunnelNoOtyugh))
    ensures n.kind.Generic? ==> r == Err(Unsupported(GenericHasNoOtyugh))
    ensures r.Ok? ==> (r.value.Some? <==> HasOtyugh(n))
    ensures r.Ok? && r.value.Some? ==> r.value.value == n.kind.otyugh.value
  {
    match n.kind
    case Tunnel(_, _, _) => Err(Unsupported(TunnelNoOtyugh))
    case Generic => Err(Unsupported(GenericHasNoOtyugh))
    case Cave(_, ot, _, _, _, _) =>
      if ot.None? then Ok(None) else Ok(Some(Copy(ot.value)))
  }

  /**
   * setOtyughHealth: rejected, in this order, without an Otyugh and for a
   * health outside 0..100; otherwise only the Otyugh's health changes.
   */
  function SetOtyughHealth(n: Node, health: int): (r: Result<Node>)
    ensures r.Ok? <==> HasOtyugh(n) && ValidHealth(health)
    ensures n.kind.Tunnel? ==> r == Err(Unsupported(TunnelNoOtyugh))
    ensures n.kind.Generic? ==> r == Err(Unsupported(GenericHasNoOtyugh))
    ensures n.kind.Cave? && n.kind.otyugh.None? ==> r == Err(IllegalArgument(NoOtyughToUpdate))
    ensures HasOtyugh(n) && !ValidHealth(health) ==> r == Err(IllegalArgument(HealthError))
    ensures r.Ok? ==> SameShape(r.value, n) && HasOtyugh(r.value)
    ensures r.Ok? ==> r.value == n.(kind := n.kind.(otyugh := Some(n.kind.otyugh.value.(health := health))))
  {
    match n.kind
    case Tunnel(_, _, _) => Err(Unsupported(TunnelNoOtyugh))
    case Generic => Err(Unsupported(GenericHasNoOtyugh))
    case Cave(_, ot, _, _, _, _) =>
      if ot.None? then Err(IllegalArgument(NoOtyughToUpdate))
      else match SetHealth(ot.value, health)
        case Err(e) => Err(e)
        case Ok(o) => Ok(n.(kind := n.kind.(otyugh := Some(o))))
  }

  // ---------------------------------------------------------------- arrows

  /**
   * addArrows: sets (does not add to) the node's arrow count to a random
   * value in 1..4.
   */
  method AddArrows(n: Node, rng: Rng) returns (r: Result<Node>)
    modifies rng
    ensures n.kind.Generic? <==> r.Err?
    ensures n.kind.Generic? ==> r == Err(Unsupported(GenericNoArrows))
    ensures n.kind.Generic? ==> rng.used == old(rng.used)
    ensures r.Ok? ==> SameShape(r.value, n)
    ensures r.Ok? ==> r.value == n.(kind := n.kind.(arrows := r.value.kind.arrows))
    ensures r.Ok? ==> 1 <= r.value.kind.arrows <= MaxArrows
    ensures r.Ok? ==> r.value.kind.arrows == rng.draws(old(rng.used)) % MaxArrows + 1
    ensures r.Ok? ==> rng.used == old(rng.used) + 1
  {
    if n.kind.Generic? {
      return Err(Unsupported(GenericNoArrows));
    }
    var k := rng.NextInt((MaxArrows - 1) + 1);
    return Ok(n.(kind := n.kind.(arrows := k + 1)));
  }

  /** addSingleArrow: one more arrow. */
  function AddSingleArrow(n: Node): (r: Result<Node>)
    ensures r.Ok? <==> !n.kind.Generic?
    ensures n.kind.Generic? ==> r == Err(Unsupported(GenericNoArrows))
    ensures r.Ok? ==> SameShape(r.value, n) && r.value.kind.arrows == n.kind.arrows + 1
    ensures r.Ok? ==> r.value == n.(kind := n.kind.(arrows := n.kind.arrows + 1))
  {
    if n.kind.Generic? then Err(Unsupported(GenericNoArrows))
    else Ok(n.(kind := n.kind.(arrows := n.kind.arrows + 1)))
  }

  /** removeArrow: one arrow fewer; there must be one. */
  function RemoveArrow(n: Node): (r: Result<Node>)
    ensures r.Ok? <==> !n.kind.Generic? && n.kind.arrows > 0
    ensures n.kind.Generic? ==> r == Err(Unsupported(GenericNoArrows))
    ensures !n.kind.Generic? && n.kind.arrows == 0 ==> r == Err(IllegalArgument(NoArrowToRemove))
    ensures r.Ok? ==> SameShape(r.value, n) && r.value.kind.arrows + 1 == n.kind.arrows
    ensures r.Ok? ==> r.value == n.(kind := n.kind.(arrows := r.value.kind.arrows))
  {
    if n.kind.Generic? then Err(Unsupported(GenericNoArrows))
    else if n.kind.arrows == 0 then Err(IllegalArgument(NoArrowToRemove))
    else Ok(n.(kind := n.kind.(arrows := n.kind.arrows - 1)))
  }

  /** getNumArrows. */
  function GetNumArrows(n: Node): (r: Result<nat>)
    ensures r.Ok? <==> !n.kind.Generic?
    ensures n.kind.Generic? ==> r == Err(Unsupported(GenericNoArrows))
    ensures r.Ok? ==> r.value == n.kind.arrows
  {
    if n.kind.Generic? then Err(Unsupported(GenericNoArrows))
    else Ok(n.kind.arrows)
  }

  /** Arrows put down and picked up again leave the node as it was. */
  lemma AddThenRemoveArrow(n: Node)
    requires !n.kind.Generic?
    ensures AddSingleArrow(n).Ok? && RemoveArrow(AddSingleArrow(n).value) == Ok(n)
  {
  }

  // ---------------------------------------------------------------- Yugoloth, thief, pit

  /** getYugoloth() != null: only caves and tunnels can hold the Yugoloth. */
  predicate HasYugoloth(n: Node)
  {
    !n.kind.Generic? && n.kind.yugoloth
  }

  /** placeYugoloth: fills the slot (whether or not it was full). */
  function PlaceYugoloth(n: Node): (r: Result<Node>)
    ensures r.Ok? <==> !n.kind.Generic?
    ensures n.kind.Generic? ==> r == Err(Unsupported(GenericNoYugoloth))
    ensures r.Ok? ==> SameShape(r.value, n) && HasYugoloth(r.value)
    ensures r.Ok? ==> r.value == n.(kind := n.kind.(yugoloth := true))
  {
    if n.kind.Generic? then Err(Unsupported(GenericNoYugoloth))
    else Ok(n.(kind := n.kind.(yugoloth := true)))
  }

  /** removeYugoloth: the slot must be full; afterwards it is empty. */
  function RemoveYugoloth(n: Node): (r: Result<Node>)
    ensures r.Ok? <==> HasYugoloth(n)
    ensures n.kind.Generic? ==> r == Err(Unsupported(GenericHasNoYugoloth))
    ensures !n.kind.Generic? && !n.kind.yugoloth ==>
      r == Err(IllegalArgument(NoYugolothToRemove))
    ensures r.Ok? ==> SameShape(r.value, n) && !HasYugoloth(r.value)
    ensures r.Ok? ==> r.value == n.(kind := n.kind.(yugoloth := false))
  {
    if n.kind.Generic? then Err(Unsupported(GenericHasNoYugoloth))
    else if !n.kind.yugoloth then Err(IllegalArgument(NoYugolothToRemove))
    else Ok(n.(kind := n.kind.(yugoloth := false)))
  }

  /** placeThief: caves and tunnels can hide the thief. */
  function PlaceThief(n: Node): (r: Result<Node>)
    ensures r.Ok? <==> !n.kind.Generic?
    ensures n.kind.Generic? ==> r == Err(Unsupported(GenericNoThief))
    ensures r.Ok? ==> SameShape(r.value, n) && r.value.kind.thief
    ensures r.Ok? ==> r.value == n.(kind := n.kind.(thief := true))
  {
    if n.kind.Generic? then Err(Unsupported(GenericNoThief))
    else Ok(n.(kind := n.kind.(thief := true)))
  }

  /** addPit: only a cave can have a pit. */
  function AddPit(n: Node): (r: Result<Node>)
    ensures r.Ok? <==> n.kind.Cave?
    ensures n.kind.Tunnel? ==> r == Err(Unsupported(TunnelNoPit))
    ensures n.kind.Generic? ==> r == Err(Unsupported(GenericNoPit))
    ensures r.Ok? ==> SameShape(r.value, n) && r.value.kind.pit
    ensures r.Ok? ==> r.value == n.(kind := n.kind.(pit := true))
  {
    match n.kind
    case Tunnel(_, _, _) => Err(Unsupported(TunnelNoPit))
    case Generic => Err(Unsupported(GenericNoPit))
    case Cave(_, _, _, _, _, _) => Ok(n.(kind := n.kind.(pit := true)))
  }

  // ---------------------------------------------------------------- capability summaries

  /** A tunnel supports no treasure and no Otyugh operation. */
  lemma TunnelCapabilities(n: Node, name: string, o: Otyugh, h: int)
    requires n.kind.Tunnel?
    ensures RemoveTreasure(n, name).Err? && RemoveTreasure(n, name).error.Unsupported?
    ensures GetTreasures(n).Err? && GetTreasures(n).error.Unsupported?
    ensures PlaceOtyugh(n, o).Err? && RemoveOtyugh(n).Err? && GetOtyugh(n).Err?
    ensures SetOtyughHealth(n, h).Err? && AddPit(n).Err?
    ensures PlaceThief(n).Ok? && AddSingleArrow(n).Ok? && PlaceYugoloth(n).Ok?
  {
  }

  /** A generic node supports no content operation at all. */
  lemma GenericCapabilities(n: Node, name: string, o: Otyugh, h: int)
    requires n.kind.Generic?
    ensures RemoveTreasure(n, name).Err? && GetTreasures(n).Err?
    ensures PlaceOtyugh(n, o).Err? && RemoveOtyugh(n).Err? && GetOtyugh(n).Err?
    ensures SetOtyughHealth(n, h).Err?
    ensures AddSingleArrow(n).Err? && RemoveArrow(n).Err? && GetNumArrows(n).Err?
    ensures PlaceYugoloth(n).Err? && RemoveYugoloth(n).Err?
    ensures PlaceThief(n).Err? && AddPit(n).Err?
    ensures !HasYugoloth(n) && !HasOtyugh(n)
  {
  }
}
