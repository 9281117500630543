/**
 * The link structure of a grid of nodes, taken as a value: each position
 * mapped to its four optional links. Distances are defined by balls: the
 * k-ball around s holds the nodes that s reaches by following at most k
 * links, and t lies at distance k from s when it is in the k-ball but not
 * in the (k-1)-ball. Everything here depends on the links only, so an
 * operation that changes node contents leaves every distance unchanged.
 */
module Topology {
  import opened Wrappers
  import opened Nodes

  type Topo = map<Pos, Links>

  predicate InGrid(g: array2<Node>, p: Pos)
  {
    p.row < g.Length0 && p.col < g.Length1
  }

  /** The positions of a rows x cols grid. */
  function Cells(rows: nat, cols: nat): (s: set<Pos>)
    ensures forall p :: p in s <==> p.row < rows && p.col < cols
  {
    set r, c | 0 <= r < rows && 0 <= c < cols :: Pos(r, c)
  }

  /** The links of every node of the grid. */
  ghost function TopologyOf(g: array2<Node>): (t: Topo)
    reads g
    ensures forall p :: p in t <==> InGrid(g, p)
    ensures forall p :: InGrid(g, p) ==> p in t && t[p] == g[p.row, p.col].links
  {
    map p | p in Cells(g.Length0, g.Length1) :: g[p.row, p.col].links
  }

  /**
   * The linked neighbours of a node, in the order both searches visit
   * them: left, right, bottom, top.
   */
  function NeighbourList(l: Links): (s: seq<Pos>)
    ensures forall v :: v in s <==> IsLink(l, v)
    ensures |s| == Degree(l)
  {
    (if l.left.Some? then [l.left.value] else [])
      + (if l.right.Some? then [l.right.value] else [])
      + (if l.bottom.Some? then [l.bottom.value] else [])
      + (if l.top.Some? then [l.top.value] else [])
  }

  /** `v` is the target of one of the links in `l`. */
  predicate IsLink(l: Links, v: Pos)
  {
    l.left == Some(v) || l.right == Some(v) || l.bottom == Some(v) || l.top == Some(v)
  }

  lemma LinkIsNeighbour(t: Topo, p: Pos, d: Dir)
    requires p in t && Link(t[p], d).Some?
    ensures Link(t[p], d).value in Nbrs(t, p)
  {
  }

  /** The neighbours of p in t (none for a position outside the grid). */
  function Nbrs(t: Topo, p: Pos): set<Pos>
  {
    if p in t then set v | v in NeighbourList(t[p]) else {}
  }

  /** Every link is matched by one back: a neighbour has the node among its own neighbours. */
  ghost predicate Undirected(t: Topo)
  {
    forall p, v :: p in t && v in Nbrs(t, p) ==> p in Nbrs(t, v)
  }

  /** Every link leads to a position of the grid. */
  ghost predicate Closed(t: Topo)
  {
    forall p, v :: p in t && v in Nbrs(t, p) ==> v in t
  }

  /** Every link in `l` leads to a position of a rows x cols grid. */
  predicate LinksWithin(rows: nat, cols: nat, l: Links)
  {
    && (l.top.Some? ==> l.top.value.row < rows && l.top.value.col < cols)
    && (l.bottom.Some? ==> l.bottom.value.row < rows && l.bottom.value.col < cols)
    && (l.right.Some? ==> l.right.value.row < rows && l.right.value.col < cols)
    && (l.left.Some? ==> l.left.value.row < rows && l.left.value.col < cols)
  }

  /** Every link of every node of the grid leads to a position of the grid. */
  ghost predicate LinksInGrid(g: array2<Node>)
    reads g
  {
    forall r, c :: 0 <= r < g.Length0 && 0 <= c < g.Length1 ==> LinksWithin(g.Length0, g.Length1, g[r, c].links)
  }

  /** `t` holds the links of the grid's nodes, at positions inside the grid. */
  ghost predicate Agrees(g: array2<Node>, t: Topo)
    reads g
  {
    forall p :: p in t ==> InGrid(g, p) && g[p.row, p.col].links == t[p]
  }

  /** The grid's snapshot agrees with the grid. */
  lemma SnapshotAgrees(g: array2<Node>)
    ensures Agrees(g, TopologyOf(g))
  {
  }

  /** The neighbours in the snapshot are those the node's links name. */
  lemma GridNbrs(g: array2<Node>, p: Pos, v: Pos)
    requires InGrid(g, p)
    ensures v in Nbrs(TopologyOf(g), p) <==> v in NeighbourList(g[p.row, p.col].links)
  {
  }

  /** A grid whose links stay inside it has a closed snapshot. */
  lemma GridClosed(g: array2<Node>)
    requires LinksInGrid(g)
    ensures Closed(TopologyOf(g))
  {
    var t := TopologyOf(g);
    forall p, v | p in t && v in Nbrs(t, p) ensures v in t {
      assert LinksWithin(g.Length0, g.Length1, g[p.row, p.col].links);
    }
  }

  ghost function Step(t: Topo, s: set<Pos>): set<Pos>
  {
    set p, v | p in s && v in Nbrs(t, p) :: v
  }

  /** The nodes reachable from `s` in at most k steps. */
  ghost function Ball(t: Topo, s: Pos, k: nat): set<Pos>
  {
    if k == 0 then {s} else Ball(t, s, k - 1) + Step(t, Ball(t, s, k - 1))
  }

  /** `v` lies at (shortest-path) distance exactly k from `s`. */
  ghost predicate IsDist(t: Topo, s: Pos, v: Pos, k: nat)
  {
    v in Ball(t, s, k) && (k == 0 || v !in Ball(t, s, k - 1))
  }

  ghost predicate Reachable(t: Topo, s: Pos, v: Pos)
  {
    exists k: nat :: v in Ball(t, s, k)
  }

  /** The positions of the caves that hold an Otyugh. */
  ghost function OtyughCells(g: array2<Node>): (c: set<Pos>)
    reads g
    ensures forall p :: p in c <==> InGrid(g, p) && HasOtyugh(g[p.row, p.col])
  {
    set p | p in Cells(g.Length0, g.Length1) && HasOtyugh(g[p.row, p.col])
  }

  /** The members of `cells` at distance exactly k from `s`. */
  ghost function AtDistance(t: Topo, s: Pos, k: nat, cells: set<Pos>): set<Pos>
  {
    set v | v in cells && IsDist(t, s, v, k)
  }

  // ------------------------------------------------------------------ lemmas

  lemma {:induction false} BallMono(t: Topo, s: Pos, i: nat, j: nat)
    requires i <= j
    ensures Ball(t, s, i) <= Ball(t, s, j)
    decreases j - i
  {
    if i < j {
      BallMono(t, s, i, j - 1);
    }
  }

  lemma {:induction false} BallGrows(t: Topo, s: Pos, k: nat, p: Pos, v: Pos)
    requires p in Ball(t, s, k) && v in Nbrs(t, p)
    ensures v in Ball(t, s, k + 1)
  {
    assert v in Step(t, Ball(t, s, k));
  }

  /** Balls stay inside a closed grid. */
  lemma {:induction false} BallInGrid(t: Topo, s: Pos, k: nat)
    requires Closed(t) && s in t
    ensures Ball(t, s, k) <= t.Keys
  {
    if k > 0 {
      BallInGrid(t, s, k - 1);
      StepInGrid(t, Ball(t, s, k - 1));
    }
  }

  /** One step from inside a closed grid stays inside it. */
  lemma StepInGrid(t: Topo, c: set<Pos>)
    requires Closed(t) && c <= t.Keys
    ensures Step(t, c) <= t.Keys
  {
    forall v | v in Step(t, c) ensures v in t {
      var p :| p in c && v in Nbrs(t, p);
    }
  }

  /** A set that holds `s` and all neighbours of its members holds every ball. */
  lemma {:induction false} ClosedSetHoldsBalls(t: Topo, s: Pos, k: nat, c: set<Pos>)
    requires s in c
    requires forall p, v :: p in c && v in Nbrs(t, p) ==> v in c
    ensures Ball(t, s, k) <= c
  {
    if k > 0 {
      ClosedSetHoldsBalls(t, s, k - 1, c);
    }
  }

  /** Every reachable node has a distance. */
  lemma {:induction false} HasDist(t: Topo, s: Pos, v: Pos, k: nat)
    requires v in Ball(t, s, k)
    ensures exists m: nat :: m <= k && IsDist(t, s, v, m)
  {
    if k == 0 {
      assert IsDist(t, s, v, 0);
    } else if v in Ball(t, s, k - 1) {
      HasDist(t, s, v, k - 1);
    } else {
      assert IsDist(t, s, v, k);
    }
  }

  /** A node's distance is no larger than any ball it is in. */
  lemma {:induction false} DistAtMost(t: Topo, s: Pos, v: Pos, m: nat, k: nat)
    requires v in Ball(t, s, k)
    requires m == 0 || v !in Ball(t, s, m - 1)
    ensures m <= k
  {
    if k < m {
      BallMono(t, s, k, m - 1);
    }
  }

  /** A node at distance m that lies in the k-ball has m <= k. */
  lemma DistBelow(t: Topo, s: Pos, v: Pos, m: nat, k: nat)
    requires IsDist(t, s, v, m) && v in Ball(t, s, k)
    ensures m <= k
  {
    DistAtMost(t, s, v, m, k);
  }

  /** A node lies at one distance only. */
  lemma {:induction false} DistUnique(t: Topo, s: Pos, v: Pos, m: nat, k: nat)
    requires IsDist(t, s, v, m) && IsDist(t, s, v, k)
    ensures m == k
  {
    DistAtMost(t, s, v, m, k);
    DistAtMost(t, s, v, k, m);
  }

  /** A neighbour of a node at distance k that lies outside the k-ball is at distance k + 1. */
  lemma {:induction false} NextLayer(t: Topo, s: Pos, u: Pos, v: Pos, k: nat)
    requires IsDist(t, s, u, k) && v in Nbrs(t, u) && v !in Ball(t, s, k)
    ensures IsDist(t, s, v, k + 1)
  {
    BallGrows(t, s, k, u, v);
  }

  /**
   * When every node within distance k has had its neighbours discovered,
   * the discovered set covers the (k+1)-ball.
   */
  lemma {:induction false} BallExtends(t: Topo, s: Pos, k: nat, done: set<Pos>, visited: set<Pos>)
    requires Ball(t, s, k) <= done
    requires forall p, v :: p in done && v in Nbrs(t, p) ==> v in visited
    requires Ball(t, s, k) <= visited
    ensures Ball(t, s, k + 1) <= visited
  {
  }
}
