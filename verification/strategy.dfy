/**
 * RandomMove, the Yugoloth's move strategy: from its node it picks one of
 * the open sides uniformly at random and moves there, taking its flag
 * along; from a node with no links it stays put. The draw of Math.random()
 * is the parameter `u`, a real in [0, 1).
 */
module Strategy {
  import opened Wrappers
  import opened Nodes
  import opened Topology
  import opened GridOps

  /** The open sides, in the order the strategy lists them: up, down, left, right. */
  function Directions(l: Links): (ds: seq<Dir>)
    ensures |ds| == Degree(l)
    ensures forall d :: d in ds <==> Link(l, d).Some?
  {
    (if l.top.Some? then [Up] else [])
      + (if l.bottom.Some? then [Down] else [])
      + (if l.left.Some? then [Left] else [])
      + (if l.right.Some? then [Right] else [])
  }

  /** (int) (u * n) for a draw u in [0, 1): an index below n. */
  function PickIndex(n: nat, u: real): (i: nat)
    requires n > 0 && 0.0 <= u < 1.0
    ensures i < n
  {
    assert (1.0 - u) * n as real > 0.0;
    (u * n as real).Floor
  }

  /** Where the Yugoloth goes from a node with links `l` on the draw `u`; None when it stays. */
  function Destination(l: Links, u: real): (d: Option<Pos>)
    requires 0.0 <= u < 1.0
    ensures d.None? <==> l == NoLinks
    ensures d.Some? ==> IsLink(l, d.value)
  {
    var ds := Directions(l);
    if |ds| == 0 then None else Link(l, ds[PickIndex(|ds|, u)])
  }

  /**
   * move(yugoloth, location) for the Yugoloth at `loc`. With no open side
   * nothing happens and `loc` is returned. Otherwise the flag is removed
   * from `loc` (failing when it is not there) and placed on the chosen
   * neighbour (failing on a generic node, after the removal), whose
   * position is returned.
   */
  method Move(g: array2<Node>, loc: Pos, u: real) returns (r: Result<Pos>)
    requires InGrid(g, loc) && LinksInGrid(g) && 0.0 <= u < 1.0
    modifies g
    ensures Destination(old(g[loc.row, loc.col].links), u).None? ==> r == Ok(loc) && unchanged(g)
    ensures Destination(old(g[loc.row, loc.col].links), u).Some? ==>
      var q := Destination(old(g[loc.row, loc.col].links), u).value;
      InGrid(g, q) && Relocated(g, loc, q, r)
    ensures r.Ok? ==> InGrid(g, r.value) && (r.value == loc || IsLink(old(g[loc.row, loc.col].links), r.value))
    ensures LinksInGrid(g)
  {
    var n := g[loc.row, loc.col];
    assert LinksWithin(g.Length0, g.Length1, n.links);
    var ds := Directions(n.links);
    if |ds| == 0 {
      return Ok(loc);
    }
    var q := Link(n.links, ds[PickIndex(|ds|, u)]).value;
    r := Relocate(g, loc, q);
  }

  /**
   * What moving the flag from `loc` to `q` leaves behind, with `r` the
   * answer: a failed removal changes nothing; a failed placement leaves
   * the flag removed from `loc`; a success moves it to `q`. No other node
   * changes.
   */
  twostate predicate Relocated(g: array2<Node>, loc: Pos, q: Pos, new r: Result<Pos>)
    reads g
    requires InGrid(g, loc) && InGrid(g, q)
  {
    var removed := RemoveYugoloth(old(g[loc.row, loc.col]));
    (removed.Err? ==> r == Err(removed.error) && unchanged(g)) &&
    (removed.Ok? ==>
      var there := if q == loc then removed.value else old(g[q.row, q.col]);
      var placed := PlaceYugoloth(there);
      (placed.Err? ==> r == Err(placed.error) && g[loc.row, loc.col] == removed.value) &&
      (placed.Ok? ==> r == Ok(q) && g[q.row, q.col] == placed.value && (q != loc ==> g[loc.row, loc.col] == removed.value)) &&
      forall i, j :: 0 <= i < g.Length0 && 0 <= j < g.Length1 && Pos(i, j) != loc && Pos(i, j) != q ==>
        g[i, j] == old(g[i, j]))
  }

  /** The flag leaves `loc` and lands on `q`, the two halves of a move. */
  method Relocate(g: array2<Node>, loc: Pos, q: Pos) returns (r: Result<Pos>)
    requires InGrid(g, loc) && InGrid(g, q) && LinksInGrid(g)
    modifies g
    ensures Relocated(g, loc, q, r)
    ensures r.Ok? ==> r.value == q
    ensures LinksInGrid(g)
  {
    var removed := RemoveYugoloth(g[loc.row, loc.col]);
    if removed.Err? {
      return Err(removed.error);
    }
    Store(g, loc, removed.value);
    var placed := PlaceYugoloth(g[q.row, q.col]);
    if placed.Err? {
      return Err(placed.error);
    }
    Store(g, q, placed.value);
    r := Ok(q);
  }

  // ------------------------------------------------------------------ lemmas

  /** The draw picks index i exactly on the i-th of n equal slices of [0, 1). */
  lemma PickUniform(n: nat, u: real, i: nat)
    requires n > 0 && 0.0 <= u < 1.0 && i < n
    ensures PickIndex(n, u) == i <==> i as real <= u * n as real < (i + 1) as real
  {
  }

  /** Every open side is taken for some draw: the side at index i for the draw i / n. */
  lemma EverySideChosen(l: Links, d: Dir)
    requires Link(l, d).Some?
    ensures exists u: real :: 0.0 <= u < 1.0 && Destination(l, u) == Link(l, d)
  {
    var ds := Directions(l);
    var n := |ds|;
    var i :| 0 <= i < n && ds[i] == d;
    var u := i as real / n as real;
    assert u * n as real == i as real;
    PickUniform(n, u, i);
    assert Destination(l, u) == Link(l, d);
  }
}
