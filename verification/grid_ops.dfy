/**
 * Operations a node performs on its neighbours in the grid. In the
 * program a node holds references to its neighbours, and a node that has
 * been cast to a cave or a tunnel is a new object, so it tells its
 * neighbours to point back at it. Here a link is a grid position, so on a
 * grid whose links are already symmetric the update changes nothing.
 */
module GridOps {
  import opened Wrappers
  import opened Nodes
  import opened Topology

  /** The smallest number of rows, and of columns, a dungeon may have. */
  const MinRowsCols: nat := 4

  /** Every link of every node is answered by the opposite link of its target. */
  ghost predicate Symmetric(g: array2<Node>)
    reads g
  {
    forall r, c, d :: 0 <= r < g.Length0 && 0 <= c < g.Length1 && Link(g[r, c].links, d).Some? ==>
      var q := Link(g[r, c].links, d).value;
      InGrid(g, q) && Link(g[q.row, q.col].links, Opposite(d)) == Some(Pos(r, c))
  }
  /** A grid whose links are symmetric has an undirected snapshot. */
  lemma SymmetricUndirected(g: array2<Node>)
    requires Symmetric(g)
    ensures Undirected(TopologyOf(g))
  {
    var t := TopologyOf(g);
    forall p, v | p in t && v in Nbrs(t, p)
      ensures p in Nbrs(t, v)
    {
      var d :| d in {Left, Right, Down, Up} && Link(g[p.row, p.col].links, d) == Some(v);
      assert Link(g[v.row, v.col].links, Opposite(d)) == Some(p);
    }
  }


  /**
   * Writes a node back into the grid after a change to its contents; its
   * links are those it had, so every link still stays inside the grid.
   */
  method Store(g: array2<Node>, p: Pos, n: Node)
    requires InGrid(g, p) && LinksInGrid(g) && n.links == g[p.row, p.col].links
    modifies g
    ensures LinksInGrid(g)
    ensures TopologyOf(g) == old(TopologyOf(g))
    ensures g[p.row, p.col] == n
    ensures forall i, j :: 0 <= i < g.Length0 && 0 <= j < g.Length1 && Pos(i, j) != p ==> g[i, j] == old(g[i, j])
  {
    g[p.row, p.col] := n;
    assert forall i, j :: 0 <= i < g.Length0 && 0 <= j < g.Length1 ==> g[i, j].links == old(g[i, j].links);
  }

  /** The first side, in visiting order, whose link leads back to the node itself. */
  function SelfSide(l: Links, p: Pos): (d: Option<Dir>)
    ensures d.None? <==> !IsLink(l, p)
    ensures d.Some? ==> Link(l, d.value) == Some(p)
  {
    if l.left == Some(p) then Some(Left)
    else if l.right == Some(p) then Some(Right)
    else if l.top == Some(p) then Some(Up)
    else if l.bottom == Some(p) then Some(Down)
    else None
  }

  /**
   * One step of updateCastInNeighbours: when side `d` of the node at `p`
   * (whose links are `l`) is linked, the neighbour's opposite side is set
   * to `p`; setting it fails when the neighbour is `p` itself.
   */
  method PointBack(g: array2<Node>, p: Pos, l: Links, d: Dir) returns (err: Option<Error>)
    requires LinksWithin(g.Length0, g.Length1, l)
    modifies g
    ensures err.Some? <==> Link(l, d) == Some(p)
    ensures err.Some? ==> err.value == IllegalArgument("Cannot set " + SideName(Opposite(d)) + SelfLinkSuffix)
    ensures err.None? ==> forall r, c :: 0 <= r < g.Length0 && 0 <= c < g.Length1 ==>
      g[r, c].name == old(g[r, c].name) && g[r, c].kind == old(g[r, c].kind)
    ensures err.None? ==> forall r, c, e :: 0 <= r < g.Length0 && 0 <= c < g.Length1 ==>
      Link(g[r, c].links, e) ==
        (if e == Opposite(d) && Link(l, d) == Some(Pos(r, c)) then Some(p) else old(Link(g[r, c].links, e)))
  {
    var target := Link(l, d);
    if target.None? {
      return None;
    }
    var q := target.value;
    var updated := SetLink(g[q.row, q.col], q, Opposite(d), Some(p));
    if updated.Err? {
      return Some(updated.error);
    }
    g[q.row, q.col] := updated.value;
    err := None;
  }

  /**
   * updateCastInNeighbours on the node at `p`: each linked neighbour, taken
   * left, right, top, bottom, has its opposite side set to `p`. It fails at
   * the first side that links the node to itself; otherwise exactly the
   * sides that face `p` change, and they now point to `p`.
   */
  method UpdateCastInNeighbours(g: array2<Node>, p: Pos) returns (err: Option<Error>)
    requires InGrid(g, p) && LinksInGrid(g)
    modifies g
    ensures err.None? <==> !IsLink(old(g[p.row, p.col].links), p)
    ensures err.Some? ==> var d := SelfSide(old(g[p.row, p.col].links), p).value;
      err.value == IllegalArgument("Cannot set " + SideName(Opposite(d)) + SelfLinkSuffix)
    ensures err.None? ==> forall r, c :: 0 <= r < g.Length0 && 0 <= c < g.Length1 ==>
      g[r, c].name == old(g[r, c].name) && g[r, c].kind == old(g[r, c].kind)
    ensures err.None? ==> forall r, c, e :: 0 <= r < g.Length0 && 0 <= c < g.Length1 ==>
      Link(g[r, c].links, e) ==
        (if Link(old(g[p.row, p.col].links), Opposite(e)) == Some(Pos(r, c)) then Some(p)
         else old(Link(g[r, c].links, e)))
  {
    var l := g[p.row, p.col].links;
    assert LinksWithin(g.Length0, g.Length1, l);
    err := PointBack(g, p, l, Left);
    if err.Some? {
      return;
    }
    err := PointBack(g, p, l, Right);
    if err.Some? {
      return;
    }
    err := PointBack(g, p, l, Up);
    if err.Some? {
      return;
    }
    err := PointBack(g, p, l, Down);
  }

  /**
   * On a grid with symmetric links every side that faces the node at `p`
   * already points to `p`, so updateCastInNeighbours changes nothing there.
   */
  lemma FacingSidesPointBack(g: array2<Node>, p: Pos, r: nat, c: nat, e: Dir)
    requires InGrid(g, p) && Symmetric(g)
    requires Link(g[p.row, p.col].links, Opposite(e)) == Some(Pos(r, c))
    ensures InGrid(g, Pos(r, c)) && Link(g[r, c].links, e) == Some(p)
  {
    OppositeInvolutive(e);
  }
}
