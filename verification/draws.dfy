/**
 * The random placements of DungeonImpl's random constructor: Otyughs,
 * treasure and arrows go to nodes drawn one at a time, without
 * replacement, with java.util.Random's nextInt over the positions still
 * left. The draw of Math.random() that fixes how many nodes receive
 * treasure or arrows is the real parameter `u`.
 */
module Draws {
  import opened Wrappers
  import opened Nodes
  import opened Otyughs
  import opened Topology
  import opened Randomness
  import opened GridOps

  /** What java.util.Random says when asked for a number below 0. */
  const BoundError: string := "bound must be positive"

  /** No element occurs twice. */
  predicate Distinct<T(==)>(s: seq<T>)
  {
    forall i, j :: 0 <= i < j < |s| ==> s[i] != s[j]
  }

  /** The list without its element at index i (List.remove(int)). */
  function RemoveAt<T>(s: seq<T>, i: nat): (t: seq<T>)
    requires i < |s|
    ensures |t| == |s| - 1
  {
    s[..i] + s[i + 1..]
  }

  /**
   * Drawing without replacement from `pool`: `chosen` holds the elements
   * drawn so far, `rest` those still to draw, and together they are the
   * pool, each element once.
   */
  ghost predicate Drawn<T>(pool: seq<T>, rest: seq<T>, chosen: seq<T>)
  {
    && Distinct(rest) && Distinct(chosen) && |rest| + |chosen| == |pool|
    && (forall p :: p in rest ==> p in pool && p !in chosen)
    && (forall p :: p in chosen ==> p in pool)
  }

  /** Only the nodes at the chosen positions differ from what they were. */
  twostate predicate Untouched(g: array2<Node>, chosen: seq<Pos>)
    reads g
  {
    forall r, c :: 0 <= r < g.Length0 && 0 <= c < g.Length1 && Pos(r, c) !in chosen ==> g[r, c] == old(g[r, c])
  }

  /** The chosen nodes all hold treasure. */
  ghost predicate TreasureAt(g: array2<Node>, chosen: seq<Pos>)
    reads g
  {
    forall i :: 0 <= i < |chosen| ==> InGrid(g, chosen[i]) && HoldsTreasure(g[chosen[i].row, chosen[i].col])
  }

  /** The chosen nodes all hold arrows. */
  ghost predicate ArrowsAt(g: array2<Node>, chosen: seq<Pos>)
    reads g
  {
    forall i :: 0 <= i < |chosen| ==> InGrid(g, chosen[i]) && HoldsArrows(g[chosen[i].row, chosen[i].col])
  }

  /** The i-th chosen cave has received the i-th Otyugh of `os`, and is otherwise as it was. */
  twostate predicate OtyughsPlaced(g: array2<Node>, chosen: seq<Pos>, os: seq<Otyugh>)
    reads g
  {
    |os| == |chosen| &&
    forall i :: 0 <= i < |chosen| ==>
      InGrid(g, chosen[i]) && PlaceOtyugh(old(g[chosen[i].row, chosen[i].col]), os[i]) == Ok(g[chosen[i].row, chosen[i].col])
  }

  /** No node changes its name, its links or its kind. */
  twostate predicate ShapesKept(g: array2<Node>)
    reads g
  {
    forall r, c :: 0 <= r < g.Length0 && 0 <= c < g.Length1 ==> SameShape(g[r, c], old(g[r, c]))
  }

  /** The nodes at these positions are caves. */
  ghost predicate CavesAt(g: array2<Node>, s: seq<Pos>)
    reads g
  {
    forall p :: p in s ==> InGrid(g, p) && g[p.row, p.col].kind.Cave?
  }

  /** A cave with between one and four treasures. */
  predicate HoldsTreasure(n: Node)
  {
    n.kind.Cave? && 1 <= |n.kind.treasures| <= MaxTreasures
  }

  /** A cave or tunnel with between one and four arrows. */
  predicate HoldsArrows(n: Node)
  {
    !n.kind.Generic? && 1 <= n.kind.arrows <= MaxArrows
  }

  /**
   * The number of nodes that receive treasure or arrows: the ceiling of
   * (p + u * (1 - p)) * n, for a fraction p in (0, 1] and a draw u in [0, 1).
   */
  function ShareOf(p: real, u: real, n: nat): (k: int)
    requires 0.0 < p <= 1.0 && 0.0 <= u < 1.0
  {
    var x := (p + u * (1.0 - p)) * n as real;
    -((-x).Floor)
  }

  /** Otyughs created one after another by the no-argument constructor, the first named `counter`. */
  function Spawned(counter: nat, k: nat): (os: seq<Otyugh>)
    ensures |os| == k
    ensures forall i :: 0 <= i < k ==> os[i] == Spawn(counter + i)
  {
    if k == 0 then [] else Spawned(counter, k - 1) + [Spawn(counter + k - 1)]
  }

  // ------------------------------------------------------------------ random placement

  /**
   * addTreasureToCaves: `count` caves drawn one at a time without
   * replacement each receive a random treasure. The loop is a do-while
   * that stops when the count is reached, so a count of zero or one above
   * the number of caves runs out of caves and asks for a number below 0.
   */
  method AddTreasure(g: array2<Node>, caves: seq<Pos>, count: int, rng: Rng)
    returns (err: Option<Error>, ghost chosen: seq<Pos>)
    requires LinksInGrid(g) && Distinct(caves) && CavesAt(g, caves)
    modifies g, rng
    ensures LinksInGrid(g) && ShapesKept(g)
    ensures err.None? <==> 1 <= count <= |caves|
    ensures err.Some? ==> err.value == IllegalArgument(BoundError)
    ensures err.None? ==> |chosen| == count
    ensures Distinct(chosen) && forall p :: p in chosen ==> p in caves
    ensures TreasureAt(g, chosen) && Untouched(g, chosen)
  {
    var rest := caves;
    chosen := [];
    var done := 0;
    while true
      invariant ShapesKept(g)
      invariant Drawn(caves, rest, chosen) && done == |chosen|
      invariant count < 1 || done < count
      invariant TreasureAt(g, chosen) && Untouched(g, chosen)
      decreases |rest|
    {
      if |rest| == 0 {
        err := Some(IllegalArgument(BoundError));
        break;
      }
      var idx := rng.NextInt(|rest|);
      var p := rest[idx];
      var placed := PlaceRandomTreasure(g[p.row, p.col], rng);
      g[p.row, p.col] := placed.value;
      DrawStep(caves, rest, chosen, idx);
      chosen := chosen + [p];
      rest := RemoveAt(rest, idx);
      done := done + 1;
      if done == count {
        err := None;
        break;
      }
    }
    KeptLinks(g);
  }

  /**
   * addArrowsToCavesAndTunnels: the same draw without replacement over
   * the given locations, each drawn one receiving between one and four
   * arrows.
   */
  method AddArrowsTo(g: array2<Node>, locations: seq<Pos>, count: int, rng: Rng)
    returns (err: Option<Error>, ghost chosen: seq<Pos>)
    requires LinksInGrid(g) && Distinct(locations)
    requires forall p :: p in locations ==> InGrid(g, p) && !g[p.row, p.col].kind.Generic?
    modifies g, rng
    ensures LinksInGrid(g) && ShapesKept(g)
    ensures err.None? <==> 1 <= count <= |locations|
    ensures err.Some? ==> err.value == IllegalArgument(BoundError)
    ensures err.None? ==> |chosen| == count
    ensures Distinct(chosen) && forall p :: p in chosen ==> p in locations
    ensures ArrowsAt(g, chosen) && Untouched(g, chosen)
  {
    var rest := locations;
    chosen := [];
    var done := 0;
    while true
      invariant ShapesKept(g)
      invariant Drawn(locations, rest, chosen) && done == |chosen|
      invariant count < 1 || done < count
      invariant ArrowsAt(g, chosen) && Untouched(g, chosen)
      decreases |rest|
    {
      if |rest| == 0 {
        err := Some(IllegalArgument(BoundError));
        break;
      }
      var idx := rng.NextInt(|rest|);
      var p := rest[idx];
      var placed := AddArrows(g[p.row, p.col], rng);
      g[p.row, p.col] := placed.value;
      DrawStep(locations, rest, chosen, idx);
      chosen := chosen + [p];
      rest := RemoveAt(rest, idx);
      done := done + 1;
      if done == count {
        err := None;
        break;
      }
    }
    KeptLinks(g);
  }

  /**
   * addOtyughsToCave: caves drawn without replacement each receive a new
   * Otyugh, which also joins the Otyugh list. The count starts at one,
   * keeping one Otyugh for the end cave, so numOtyughs - 1 are placed
   * here; with fewer than two Otyughs asked for, the count is never met
   * and the caves run out.
   */
  method AddOtyughs(g: array2<Node>, caves: seq<Pos>, numOtyughs: int, counter: nat, rng: Rng)
    returns (err: Option<Error>, os: seq<Otyugh>, ghost chosen: seq<Pos>)
    requires LinksInGrid(g) && Distinct(caves) && CavesAt(g, caves)
    requires forall p :: p in caves ==> g[p.row, p.col].kind.otyugh.None?
    modifies g, rng
    ensures LinksInGrid(g) && ShapesKept(g)
    ensures err.None? <==> 2 <= numOtyughs <= |caves| + 1
    ensures err.Some? ==> err.value == IllegalArgument(BoundError)
    ensures err.None? ==> |chosen| == numOtyughs - 1
    ensures os == Spawned(counter, |chosen|)
    ensures Distinct(chosen) && forall p :: p in chosen ==> p in caves
    ensures OtyughsPlaced(g, chosen, os) && Untouched(g, chosen)
  {
    var rest := caves;
    chosen := [];
    os := [];
    var added := 1;
    while true
      invariant ShapesKept(g)
      invariant Drawn(caves, rest, chosen) && added == |chosen| + 1
      invariant numOtyughs < 2 || added < numOtyughs
      invariant os == Spawned(counter, |chosen|)
      invariant OtyughsPlaced(g, chosen, os) && Untouched(g, chosen)
      decreases |rest|
    {
      if |rest| == 0 {
        err := Some(IllegalArgument(BoundError));
        break;
      }
      var idx := rng.NextInt(|rest|);
      var p := rest[idx];
      DrawStep(caves, rest, chosen, idx);
      assert g[p.row, p.col] == old(g[p.row, p.col]);
      var o := Spawn(counter + |os|);
      os := os + [o];
      var placed := PlaceOtyugh(g[p.row, p.col], o);
      g[p.row, p.col] := placed.value;
      chosen := chosen + [p];
      rest := RemoveAt(rest, idx);
      added := added + 1;
      if added == numOtyughs {
        err := None;
        break;
      }
    }
    KeptLinks(g);
  }

  // ------------------------------------------------------------------ lemmas

  /** Nodes that keep their links keep them inside the grid. */
  twostate lemma KeptLinks(g: array2<Node>)
    requires old(LinksInGrid(g)) && ShapesKept(g)
    ensures LinksInGrid(g)
  {
  }

  /** Drawing the element at index i moves it from the rest to the chosen positions. */
  lemma DrawStep<T>(pool: seq<T>, rest: seq<T>, chosen: seq<T>, i: nat)
    requires Drawn(pool, rest, chosen) && i < |rest|
    ensures rest[i] in pool && rest[i] !in chosen
    ensures Drawn(pool, RemoveAt(rest, i), chosen + [rest[i]])
  {
    var t := RemoveAt(rest, i);
    assert rest[i] in rest;
    forall k | 0 <= k < |t|
      ensures t[k] == if k < i then rest[k] else rest[k + 1]
    {
    }
  }

  /**
   * The share of nodes that receive treasure or arrows: at least the
   * fraction p of them, never more than all, and at least one whenever
   * there is a node at all.
   */
  lemma ShareBounds(p: real, u: real, n: nat)
    requires 0.0 < p <= 1.0 && 0.0 <= u < 1.0
    ensures n == 0 ==> ShareOf(p, u, n) == 0
    ensures n >= 1 ==> 1 <= ShareOf(p, u, n) <= n
    ensures p * n as real <= ShareOf(p, u, n) as real
  {
    var f := p + u * (1.0 - p);
    NonNegativeProduct(u, 1.0 - p);
    NonNegativeProduct(1.0 - u, 1.0 - p);
    assert 1.0 - f == (1.0 - u) * (1.0 - p);
    var x := f * n as real;
    NonNegativeProduct(1.0 - f, n as real);
    NonNegativeProduct(f - p, n as real);
    assert x <= n as real;
    assert p * n as real <= x;
    if n >= 1 {
      NonNegativeProduct(p, n as real - 1.0);
      assert p * n as real == p * (n as real - 1.0) + p;
      assert x > 0.0;
      assert ((-x).Floor as real) <= -x < 0.0;
    }
    assert ShareOf(p, u, n) == -((-x).Floor);
  }

  lemma NonNegativeProduct(a: real, b: real)
    requires a >= 0.0 && b >= 0.0
    ensures a * b >= 0.0
  {
  }
}
