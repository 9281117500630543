/**
 * castNodesToCaveTunnelNode: once the links are final, every generic node
 * becomes a cave or a tunnel by how many of its sides are linked, and the
 * caves are collected in the order the grid is walked, row by row.
 */
module Casting {
  import opened Wrappers
  import opened Nodes
  import opened Topology
  import opened GridOps
  import Spanning
  import Grid

  /** What the cast makes of one node: a dead end, a fork or a crossing is a cave, a corridor a tunnel. */
  function Cast(n: Node): (m: Node)
    ensures m.name == n.name && m.links == n.links
    ensures Degree(n.links) in {1, 3, 4} ==> m.kind == Cave([], None, 0, false, false, false)
    ensures Degree(n.links) == 2 ==> m.kind == Tunnel(0, false, false)
    ensures Degree(n.links) == 0 ==> m == n
  {
    var k := Degree(n.links);
    if k == 1 || k == 3 || k == 4 then Node(n.name, n.links, Cave([], None, 0, false, false, false))
    else if k == 2 then Node(n.name, n.links, Tunnel(0, false, false))
    else n
  }

  /** `p` comes before `q` when the grid is walked row by row. */
  predicate Precedes(p: Pos, q: Pos)
  {
    p.row < q.row || (p.row == q.row && p.col < q.col)
  }

  /** The positions are listed in the order the grid is walked, without repeats. */
  predicate RowMajor(s: seq<Pos>)
  {
    forall i, j :: 0 <= i < j < |s| ==> Precedes(s[i], s[j])
  }

  /** Every node of the grid is still generic and none is linked to itself. */
  ghost predicate Plain(g: array2<Node>)
    reads g
  {
    forall r, c :: 0 <= r < g.Length0 && 0 <= c < g.Length1 ==> g[r, c].kind.Generic? && !IsLink(g[r, c].links, Pos(r, c))
  }

  /**
   * castNodesToCaveTunnelNode on a grid whose links answer each other:
   * every node becomes what Cast makes of it, no link changes, and the
   * caves come back in row-major order.
   */
  method CastNodes(g: array2<Node>) returns (caves: seq<Pos>)
    requires Symmetric(g) && LinksInGrid(g) && Plain(g)
    modifies g
    ensures forall r, c :: 0 <= r < g.Length0 && 0 <= c < g.Length1 ==> g[r, c] == Cast(old(g[r, c]))
    ensures RowMajor(caves)
    ensures forall p :: p in caves <==> InGrid(g, p) && g[p.row, p.col].kind.Cave?
    ensures Symmetric(g) && LinksInGrid(g)
  {
    caves := [];
    for i := 0 to g.Length0
      invariant forall r, c :: 0 <= r < g.Length0 && 0 <= c < g.Length1 ==>
        g[r, c] == if r < i then Cast(old(g[r, c])) else old(g[r, c])
      invariant RowMajor(caves) && forall p :: p in caves <==> p.row < i && InGrid(g, p) && g[p.row, p.col].kind.Cave?
    {
      for j := 0 to g.Length1
        invariant forall r, c :: 0 <= r < g.Length0 && 0 <= c < g.Length1 ==>
          g[r, c] == if r < i || (r == i && c < j) then Cast(old(g[r, c])) else old(g[r, c])
        invariant RowMajor(caves)
        invariant forall p :: p in caves <==> Precedes(p, Pos(i, j)) && InGrid(g, p) && g[p.row, p.col].kind.Cave?
      {
        KeepsShape(g);
        caves := CastCell(g, Pos(i, j), caves);
      }
    }
    KeepsShape(g);
  }

  /**
   * One pass of the inner loop: the node at `p` counts its linked sides,
   * is cast by that count, and tells its neighbours to point back at it,
   * which on a symmetric grid leaves every link as it was.
   */
  method CastCell(g: array2<Node>, p: Pos, caves: seq<Pos>) returns (caves': seq<Pos>)
    requires InGrid(g, p) && Symmetric(g) && LinksInGrid(g)
    requires g[p.row, p.col].kind.Generic? && !IsLink(g[p.row, p.col].links, p)
    requires RowMajor(caves) && forall q :: q in caves ==> Precedes(q, p)
    modifies g
    ensures g[p.row, p.col] == Cast(old(g[p.row, p.col]))
    ensures forall r, c :: 0 <= r < g.Length0 && 0 <= c < g.Length1 && Pos(r, c) != p ==> g[r, c] == old(g[r, c])
    ensures RowMajor(caves')
    ensures caves' == if g[p.row, p.col].kind.Cave? then caves + [p] else caves
  {
    var n := g[p.row, p.col];
    var entries := 0;
    if n.links.left.Some? {
      entries := entries + 1;
    }
    if n.links.right.Some? {
      entries := entries + 1;
    }
    if n.links.top.Some? {
      entries := entries + 1;
    }
    if n.links.bottom.Some? {
      entries := entries + 1;
    }
    assert entries == Degree(n.links);
    caves' := caves;
    if entries == 1 || entries == 3 || entries == 4 {
      g[p.row, p.col] := CastToCave(n).value;
      caves' := caves + [p];
    } else if entries == 2 {
      g[p.row, p.col] := CastToTunnel(n).value;
    }
    assert Symmetric(g) && LinksInGrid(g) by {
      KeepsShape(g);
    }
    Repoint(g, p);
  }

  /** updateCastInNeighbours on a symmetric grid without self-links changes nothing. */
  method Repoint(g: array2<Node>, p: Pos)
    requires InGrid(g, p) && Symmetric(g) && LinksInGrid(g) && !IsLink(g[p.row, p.col].links, p)
    modifies g
    ensures forall r, c :: 0 <= r < g.Length0 && 0 <= c < g.Length1 ==> g[r, c] == old(g[r, c])
  {
    ghost var l := g[p.row, p.col].links;
    forall r, c, e | 0 <= r < g.Length0 && 0 <= c < g.Length1 && Link(l, Opposite(e)) == Some(Pos(r, c))
      ensures Link(g[r, c].links, e) == Some(p)
    {
      FacingSidesPointBack(g, p, r, c, e);
    }
    var err := UpdateCastInNeighbours(g, p);
    forall r, c | 0 <= r < g.Length0 && 0 <= c < g.Length1 ensures g[r, c] == old(g[r, c]) {
      forall e ensures Link(g[r, c].links, e) == Link(old(g[r, c].links), e) {
        if Link(l, Opposite(e)) == Some(Pos(r, c)) {
          assert Link(old(g[r, c].links), e) == Some(p);
        }
      }
      Spanning.SameLinks(g[r, c].links, old(g[r, c].links));
    }
  }

  /** A step that leaves every link as it was keeps the grid symmetric and inside its bounds. */
  twostate lemma KeepsShape(g: array2<Node>)
    requires old(Symmetric(g)) && old(LinksInGrid(g))
    requires forall r, c :: 0 <= r < g.Length0 && 0 <= c < g.Length1 ==> g[r, c].links == old(g[r, c].links)
    ensures Symmetric(g) && LinksInGrid(g)
  {
  }

  /**
   * In a connected grid of more than one node every node has a linked
   * side, so after the cast no node is left generic.
   */
  lemma NoneLeftGeneric(g: array2<Node>)
    requires Grid.Sized(g.Length0, g.Length1) && Spanning.Connected(g) && Symmetric(g)
    ensures forall r, c :: 0 <= r < g.Length0 && 0 <= c < g.Length1 ==> !Cast(g[r, c]).kind.Generic?
  {
    forall r, c | 0 <= r < g.Length0 && 0 <= c < g.Length1 ensures Degree(g[r, c].links) >= 1 {
      Linked(g, Pos(r, c));
    }
  }

  /** A node of a connected grid of more than one node has at least one link. */
  lemma Linked(g: array2<Node>, p: Pos)
    requires Grid.Sized(g.Length0, g.Length1) && Spanning.Connected(g) && Symmetric(g) && InGrid(g, p)
    ensures Degree(g[p.row, p.col].links) >= 1
  {
    var t, s := TopologyOf(g), Pos(0, 0);
    if p == s {
      if Degree(g[0, 0].links) == 0 {
        var far := Pos(0, 1);
        assert Reachable(t, s, far);
        var k: nat :| far in Ball(t, s, k);
        assert Nbrs(t, s) == {};
        Alone(t, s, k);
      }
    } else {
      assert Reachable(t, s, p);
      var k: nat :| p in Ball(t, s, k);
      var q := Entered(t, s, p, k);
      assert IsLink(g[q.row, q.col].links, p);
      var d :| Link(g[q.row, q.col].links, d) == Some(p);
      assert Link(g[p.row, p.col].links, Opposite(d)) == Some(q);
    }
  }

  /** A start without neighbours reaches nothing but itself. */
  lemma {:induction false} Alone(t: Topo, s: Pos, k: nat)
    requires Nbrs(t, s) == {}
    ensures Ball(t, s, k) == {s}
  {
    if k > 0 {
      Alone(t, s, k - 1);
      assert Step(t, {s}) == {};
    }
  }

  /** Every node other than the start that lies within reach was entered from a node linked to it. */
  lemma {:induction false} Entered(t: Topo, s: Pos, p: Pos, k: nat) returns (q: Pos)
    requires p in Ball(t, s, k) && p != s
    ensures q in t && p in Nbrs(t, q)
  {
    if k == 0 {
      assert false;
    } else if p in Ball(t, s, k - 1) {
      q := Entered(t, s, p, k - 1);
    } else {
      q :| q in Ball(t, s, k - 1) && p in Nbrs(t, q);
    }
  }
}
