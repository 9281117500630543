/**
 * PlayerImpl: the player's own record (name, treasure bag, arrows and the
 * dead flag) and the checks it makes before it hands a move, a pick-up or
 * a shot to the dungeon. The dungeon knows the player by object identity.
 */
module Players {
  import opened Wrappers
  import opened Nodes
  import opened Topology
  import opened Text
  import opened Arrows
  import Engine

  const StartArrows: nat := 3
  const EmptyNameError: string := "Name of player cannot be empty!"
  const DeadError: string := "Player is dead!"
  const EmptyDirectionError: string := "Direction cannot be empty!"
  const DistanceError: string := "Distance must be positive!"
  const NoArrowsError: string := "No arrows to shoot, pickup arrows to shoot!"

  /** How many items of a treasure the bag holds; a name not in the bag holds none. */
  function BagCount(bag: map<string, nat>, name: string): nat
  {
    if name in bag then bag[name] else 0
  }

  /** Every name in the bag counts at least one item. */
  predicate Filled(bag: map<string, nat>)
  {
    forall k :: k in bag ==> bag[k] >= 1
  }

  /** The bag after one more item of `name`: that count goes up by one and no other changes. */
  function Added(bag: map<string, nat>, name: string): (b: map<string, nat>)
    ensures BagCount(b, name) == BagCount(bag, name) + 1
    ensures forall k :: k != name ==> BagCount(b, k) == BagCount(bag, k)
    ensures b.Keys == bag.Keys + {name}
    ensures Filled(bag) ==> Filled(b)
  {
    bag[name := BagCount(bag, name) + 1]
  }

  /** The bag does not depend on the order in which two items were picked up. */
  lemma AddedCommutes(bag: map<string, nat>, a: string, b: string)
    ensures Added(Added(bag, a), b) == Added(Added(bag, b), a)
  {
    var x, y := Added(Added(bag, a), b), Added(Added(bag, b), a);
    forall k | k in x.Keys ensures x[k] == y[k] {
      assert x[k] == BagCount(x, k) && y[k] == BagCount(y, k);
    }
  }

  /**
   * Upper-casing twice is upper-casing once, so a treasure picked up as
   * "ruby" and one picked up as "RUBY" count under the same name.
   */
  lemma {:induction false} UpperIdempotent(s: string)
    ensures ToUpper(ToUpper(s)) == ToUpper(s)
  {
    var u := ToUpper(s);
    forall i | 0 <= i < |s| ensures ToUpper(u)[i] == u[i] {
      assert u[i] == UpperChar(s[i]);
    }
  }

  class Player {
    var name: string
    var treasure: map<string, nat>
    var arrows: nat
    var dead: bool

    /** Every treasure name in the bag counts at least one item. */
    ghost predicate Valid()
      reads this
    {
      Filled(treasure)
    }

    /** A new player: the given name, three arrows, an empty bag, alive. */
    constructor (name: string)
      requires name != ""
      ensures Valid()
      ensures this.name == name && treasure == map[] && arrows == StartArrows && !dead
    {
      this.name := name;
      treasure := map[];
      arrows := StartArrows;
      dead := false;
    }

    /** The PlayerImpl constructor with its name check: an empty name is refused. */
    static method New(name: string) returns (r: Result<Player>)
      ensures name == "" <==> r.Err?
      ensures r.Err? ==> r.error == IllegalArgument(EmptyNameError)
      ensures r.Ok? ==> var p := r.value;
        fresh(p) && p.Valid() && p.name == name && p.treasure == map[] && p.arrows == StartArrows && !p.dead
    {
      if name == "" {
        return Err(IllegalArgument(EmptyNameError));
      }
      var p := new Player(name);
      return Ok(p);
    }

    /**
     * enterPlayerToDungeon: the dungeon takes the player at its start,
     * alive; a second registration of any player is refused and leaves
     * the dead flag as it was.
     */
    method Enter(d: Engine.Dungeon) returns (err: Option<Error>)
      requires d.Valid()
      modifies this`dead, d
      ensures d.Valid()
      ensures old(d.player) == null ==>
        err.None? && !dead && d.player == this && d.playerPosition == Some(d.start)
      ensures old(d.player) == this ==> err == Some(IllegalArgument(Engine.SamePlayerError)) && dead == old(dead)
      ensures old(d.player) != null && old(d.player) != this ==>
        err == Some(IllegalArgument(Engine.SecondPlayerError)) && dead == old(dead)
      ensures err.Some? ==> d.player == old(d.player) && d.playerPosition == old(d.playerPosition)
      ensures d.Setup() == old(d.Setup()) && d.otyughs == old(d.otyughs)
      ensures d.yugolothPosition == old(d.yugolothPosition) && unchanged(d.graph)
    {
      var r := d.PlacePlayer(this);
      if r.Err? {
        return Some(r.error);
      }
      dead := r.value;
      err := None;
    }

    /**
     * moveLeft, moveRight, moveUp and moveDown: a dead player cannot move
     * and the dungeon is not asked. Otherwise the dungeon moves the player
     * to the linked neighbour, and the dead flag becomes its verdict on
     * that node; a move the dungeon refuses leaves the flag alone.
     */
    method Move(d: Engine.Dungeon, side: Dir) returns (err: Option<Error>)
      requires d.Valid()
      modifies this`dead, d, d.rng
      ensures d.Valid()
      ensures old(dead) ==> err == Some(IllegalArgument(DeadError)) && dead && unchanged(d, d.rng)
      ensures err.Some? ==> dead == old(dead) && d.playerPosition == old(d.playerPosition)
      ensures d.Setup() == old(d.Setup()) && d.player == old(d.player) && d.otyughs == old(d.otyughs)
      ensures d.yugolothPosition == old(d.yugolothPosition) && unchanged(d.graph)
      ensures !old(dead) && old(d.player) == null ==> err == Some(IllegalArgument(Engine.NoPlayerError))
      ensures !old(dead) && old(d.player) != null && old(d.player) != this ==>
        err == Some(IllegalArgument(Engine.OtherPlayerError))
      ensures !old(dead) && old(d.player) == this ==>
        var here := old(d.playerPosition).value;
        var next := Link(d.graph[here.row, here.col].links, side);
        (next.None? ==> err == Some(IllegalArgument(Engine.CannotMove(side)))) &&
        (next.Some? ==>
          err.None? && d.playerPosition == next &&
          dead == Engine.Lethal(d.graph[next.value.row, next.value.col], old(d.rng.Peek(100))))
    {
      if dead {
        return Some(IllegalArgument(DeadError));
      }
      var r := d.MovePlayer(DirLetter(side), this);
      if r.Err? {
        return Some(r.error);
      }
      dead := r.value;
      err := None;
    }

    /**
     * pickUpTreasure: the name is upper-cased and handed to the dungeon;
     * only once the dungeon has given the item up does the bag count it,
     * one more under the upper-cased name.
     */
    method PickUpTreasure(d: Engine.Dungeon, treasureName: string) returns (err: Option<Error>)
      requires Valid() && d.Valid()
      modifies this`treasure, d.graph
      ensures Valid() && d.Valid()
      ensures old(dead) ==> err == Some(IllegalArgument(DeadError)) && unchanged(d.graph)
      ensures err.Some? ==> treasure == old(treasure) && unchanged(d.graph)
      ensures err.None? ==> treasure == Added(old(treasure), ToUpper(treasureName))
      ensures !old(dead) && d.player == null ==> err == Some(IllegalArgument(Engine.NoPlayerError))
      ensures !old(dead) && d.player != null && d.player != this ==>
        err == Some(IllegalArgument(Engine.OtherPlayerError))
      ensures !old(dead) && d.player == this ==>
        var p := d.playerPosition.value;
        var taken := RemoveTreasure(old(d.graph[p.row, p.col]), ToUpper(treasureName));
        (taken.Err? ==> err == Some(taken.error)) &&
        (taken.Ok? ==>
           err.None? && d.graph[p.row, p.col] == taken.value &&
           forall i, j :: 0 <= i < d.graph.Length0 && 0 <= j < d.graph.Length1 && Pos(i, j) != p ==>
             d.graph[i, j] == old(d.graph[i, j]))
    {
      if dead {
        return Some(IllegalArgument(DeadError));
      }
      var upper := ToUpper(treasureName);
      err := d.PickUpTreasure(upper, this);
      if err.Some? {
        return;
      }
      treasure := Added(treasure, upper);
    }

    /** pickUpArrow: one more arrow, only once the dungeon has given one up. */
    method PickUpArrow(d: Engine.Dungeon) returns (err: Option<Error>)
      requires d.Valid()
      modifies this`arrows, d.graph
      ensures d.Valid()
      ensures old(dead) ==> err == Some(IllegalArgument(DeadError)) && unchanged(d.graph)
      ensures err.Some? ==> arrows == old(arrows) && unchanged(d.graph)
      ensures err.None? ==> arrows == old(arrows) + 1
      ensures !old(dead) && d.player == null ==> err == Some(IllegalArgument(Engine.NoPlayerError))
      ensures !old(dead) && d.player != null && d.player != this ==>
        err == Some(IllegalArgument(Engine.OtherPlayerError))
      ensures !old(dead) && d.player == this ==>
        var p := d.playerPosition.value;
        var taken := RemoveArrow(old(d.graph[p.row, p.col]));
        (taken.Err? ==> err == Some(taken.error)) &&
        (taken.Ok? ==>
           err.None? && d.graph[p.row, p.col] == taken.value &&
           forall i, j :: 0 <= i < d.graph.Length0 && 0 <= j < d.graph.Length1 && Pos(i, j) != p ==>
             d.graph[i, j] == old(d.graph[i, j]))
    {
      if dead {
        return Some(IllegalArgument(DeadError));
      }
      err := d.PickUpArrow(this);
      if err.Some? {
        return;
      }
      arrows := arrows + 1;
    }

    /** A shot the player's own checks let through to the dungeon. */
    predicate CanShoot(direction: string, distance: int)
      reads this
    {
      direction != "" && distance > 0 && !dead && arrows > 0
    }

    /**
     * shootArrow: an empty direction, a distance below one, a dead player
     * and an empty quiver are refused in that order, before any arrow is
     * spent. Otherwise one arrow is spent and the dungeon shoots it; the
     * arrow comes back only when the dungeon refuses the shot with an
     * IllegalArgumentException, so a shot that misses stays spent.
     */
    method ShootArrow(d: Engine.Dungeon, direction: string, distance: int, fuel: nat) returns (r: Result<seq<int>>)
      requires d.Valid()
      modifies this`arrows, d, d.graph
      ensures d.Valid()
      ensures direction == "" ==> r == Err(IllegalArgument(EmptyDirectionError))
      ensures direction != "" && distance <= 0 ==> r == Err(IllegalArgument(DistanceError))
      ensures direction != "" && distance > 0 && old(dead) ==> r == Err(IllegalArgument(DeadError))
      ensures direction != "" && distance > 0 && !old(dead) && old(arrows) == 0 ==>
        r == Err(IllegalArgument(NoArrowsError))
      ensures !old(CanShoot(direction, distance)) ==> arrows == old(arrows) && unchanged(d, d.graph)
      ensures old(CanShoot(direction, distance)) ==>
        arrows == (if r.Err? && r.error.IllegalArgument? then old(arrows) else old(arrows) - 1)
      ensures old(CanShoot(direction, distance)) && old(d.player) == null ==>
        r == Err(IllegalArgument(Engine.NoPlayerError))
      ensures old(CanShoot(direction, distance)) && old(d.player) != null && old(d.player) != this ==>
        r == Err(IllegalArgument(Engine.OtherPlayerError))
      ensures d.Setup() == old(d.Setup()) && d.player == old(d.player) && d.playerPosition == old(d.playerPosition)
      ensures d.yugolothPosition == old(d.yugolothPosition)
      ensures r.Err? ==> unchanged(d.graph) && d.otyughs == old(d.otyughs)
      ensures old(CanShoot(direction, distance)) && old(d.player) == this && ParseDir(direction).None? ==>
        r == Err(IllegalArgument(InvalidDirection))
      ensures old(CanShoot(direction, distance)) && old(d.player) == this && ParseDir(direction).Some? ==>
        var flight := old(Flight(d.graph, d.playerPosition.value, Engine.StartHeading(direction), 0, distance, fuel));
        (flight.Err? ==> r == Err(flight.error)) &&
        (flight.Ok? ==>
          var q := flight.value.pos;
          var complete := flight.value.travelled == distance;
          var n := old(d.graph[q.row, q.col]);
          (Impact(n, complete).Err? ==> r == Err(Impact(n, complete).error)) &&
          (Impact(n, complete).Ok? ==>
            r == Ok([q.row as int, q.col as int] + Codes(n, complete) + [-1]) &&
            d.graph[q.row, q.col] == Impact(n, complete).value &&
            d.otyughs == (if Codes(n, complete) == [1, 0] then RemoveLastNamed(old(d.otyughs), n.kind.otyugh.value.name)
                          else old(d.otyughs)) &&
            forall i, j :: 0 <= i < d.graph.Length0 && 0 <= j < d.graph.Length1 && Pos(i, j) != q ==>
              d.graph[i, j] == old(d.graph[i, j])))
    {
      if direction == "" {
        return Err(IllegalArgument(EmptyDirectionError));
      }
      if distance <= 0 {
        return Err(IllegalArgument(DistanceError));
      }
      if dead {
        return Err(IllegalArgument(DeadError));
      }
      if arrows == 0 {
        return Err(IllegalArgument(NoArrowsError));
      }
      arrows := arrows - 1;
      r := d.ShootArrow(direction, distance, this, fuel);
      if r.Err? && r.error.IllegalArgument? {
        arrows := arrows + 1;
      }
    }

    /** killPlayer: the player is dead from now on. */
    method Kill()
      modifies this`dead
      ensures dead
    {
      dead := true;
    }

    /** treasureStolen: the bag is emptied. */
    method TreasureStolen()
      modifies this`treasure
      ensures Valid() && forall k :: BagCount(treasure, k) == 0
    {
      treasure := map[];
    }

    /** updateName: the player goes by the new name. */
    method UpdateName(playerName: string)
      modifies this`name
      ensures name == playerName
    {
      name := playerName;
    }
  }
}
