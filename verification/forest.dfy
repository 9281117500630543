/**
 * The bookkeeping behind the spanning-tree step. The program keeps a list
 * of "clouds", lists of nodes that are already connected; here a cloud is
 * named by one of its cells, its representative, and the clouds map every
 * cell to the representative of the cloud that holds it. Merging two
 * clouds renames one representative to the other. A walk is a sequence
 * of cells, each joined to the next by one of the edges kept so far.
 */
module Forest {
  import opened Wrappers
  import opened Nodes
  import opened Topology
  import opened Draws
  import opened Grid

  type Clouds = map<Pos, Pos>

  /** getInitialClouds: every cell forms a cloud of its own. */
  function InitialClouds(rows: nat, cols: nat): (c: Clouds)
    ensures forall p :: p in c <==> Inside(rows, cols, p)
    ensures forall p :: p in c ==> c[p] == p
  {
    map p | p in Cells(rows, cols) :: p
  }

  /** Every cell of the grid lies in one cloud, whose representative represents itself. */
  ghost predicate Partition(rows: nat, cols: nat, c: Clouds)
  {
    && (forall p :: p in c <==> Inside(rows, cols, p))
    && (forall p :: p in c ==> c[p] in c && c[c[p]] == c[p])
  }

  /** The cloud represented by `b` joins the one represented by `a`. */
  function Merge(c: Clouds, a: Pos, b: Pos): (m: Clouds)
    ensures forall p :: p in m <==> p in c
    ensures forall p :: p in c ==> m[p] == if c[p] == b then a else c[p]
  {
    map p | p in c :: if c[p] == b then a else c[p]
  }

  /** How many of the listed cells represent their cloud: the number of clouds, when every cell is listed once. */
  function Reps(c: Clouds, cells: seq<Pos>): nat
    requires forall p :: p in cells ==> p in c
  {
    if |cells| == 0 then 0 else (if c[cells[0]] == cells[0] then 1 else 0) + Reps(c, cells[1..])
  }

  /** Side `d` of cell `u` leads to `v`, on an edge that is not removed. */
  predicate JoinedBy(rows: nat, cols: nat, wrap: bool, removed: seq<Edge>, u: Pos, v: Pos, d: Dir)
    requires Inside(rows, cols, u)
  {
    Neighbour(rows, cols, wrap, u, d) == Some(v) && EdgeAt(rows, cols, wrap, u, d) !in removed
  }

  /** Cells `u` and `v` are the two ends of an edge that is not removed. */
  predicate Joined(rows: nat, cols: nat, wrap: bool, removed: seq<Edge>, u: Pos, v: Pos)
  {
    Inside(rows, cols, u) &&
    (JoinedBy(rows, cols, wrap, removed, u, v, Up) || JoinedBy(rows, cols, wrap, removed, u, v, Down) ||
     JoinedBy(rows, cols, wrap, removed, u, v, Left) || JoinedBy(rows, cols, wrap, removed, u, v, Right))
  }

  /** `w` walks from `a` to `b` along edges that are not removed. */
  ghost predicate Walk(rows: nat, cols: nat, wrap: bool, removed: seq<Edge>, w: seq<Pos>, a: Pos, b: Pos)
  {
    |w| >= 1 && w[0] == a && w[|w| - 1] == b &&
    forall i :: 0 <= i < |w| - 1 ==> Joined(rows, cols, wrap, removed, w[i], w[i + 1])
  }

  function Reverse<T>(s: seq<T>): (r: seq<T>)
    ensures |r| == |s|
    ensures forall i :: 0 <= i < |s| ==> r[i] == s[|s| - 1 - i]
  {
    if |s| == 0 then [] else Reverse(s[1..]) + [s[0]]
  }

  /** Two walks glued at the cell where the first ends and the second starts. */
  function Glue(v: seq<Pos>, w: seq<Pos>): seq<Pos>
    requires |w| >= 1
  {
    v + w[1..]
  }

  // ------------------------------------------------------------------ lemmas on clouds

  /** Merging two different clouds keeps a partition of the grid. */
  lemma MergePartition(rows: nat, cols: nat, c: Clouds, a: Pos, b: Pos)
    requires Partition(rows, cols, c) && a in c && b in c && c[a] == a && c[b] == b && a != b
    ensures Partition(rows, cols, Merge(c, a, b))
  {
    var m := Merge(c, a, b);
    forall p | p in m ensures m[p] in m && m[m[p]] == m[p] {
      var r := c[p];
      if r == b {
        assert m[p] == a && m[a] == a;
      } else {
        assert m[p] == r && c[r] == r && m[r] == r;
      }
    }
  }

  /** Merging the cloud represented by `b` into another leaves one cloud fewer among the listed cells. */
  lemma {:induction false} MergeReps(c: Clouds, a: Pos, b: Pos, cells: seq<Pos>)
    requires a in c && b in c && c[a] == a && c[b] == b && a != b
    requires Distinct(cells) && forall p :: p in cells ==> p in c
    ensures Reps(Merge(c, a, b), cells) == Reps(c, cells) - (if b in cells then 1 else 0)
    decreases |cells|
  {
    if |cells| > 0 {
      var m, p, tail := Merge(c, a, b), cells[0], cells[1..];
      assert Distinct(tail);
      MergeReps(c, a, b, tail);
      assert (m[p] == p) == (c[p] == p && p != b);
      assert p !in tail;
      assert b in cells <==> b == p || b in tail;
    }
  }

  /** With every cell in one cloud, the listed cells hold exactly one representative. */
  lemma {:induction false} OneRep(c: Clouds, root: Pos, cells: seq<Pos>)
    requires Distinct(cells) && forall p :: p in cells ==> p in c && c[p] == root
    ensures Reps(c, cells) == if root in cells then 1 else 0
    decreases |cells|
  {
    if |cells| > 0 {
      assert Distinct(cells[1..]);
      OneRep(c, root, cells[1..]);
      assert cells[0] !in cells[1..];
      assert root in cells <==> root == cells[0] || root in cells[1..];
    }
  }

  /** At the start every listed cell is a cloud of its own. */
  lemma {:induction false} InitialReps(rows: nat, cols: nat, cells: seq<Pos>)
    requires forall p :: p in cells ==> Inside(rows, cols, p)
    ensures Reps(InitialClouds(rows, cols), cells) == |cells|
    decreases |cells|
  {
    if |cells| > 0 {
      InitialReps(rows, cols, cells[1..]);
    }
  }

  /**
   * When the two ends of every edge of the grid share a cloud, all cells
   * do: along each row through its right edges, and down the first column
   * through its down edges.
   */
  lemma OneCloud(rows: nat, cols: nat, wrap: bool, c: Clouds)
    requires Partition(rows, cols, c) && rows >= 1 && cols >= 1
    requires forall e :: IsGridEdge(rows, cols, wrap, e) ==> c[e.from] == c[Far(rows, cols, wrap, e)]
    ensures forall p :: p in c ==> c[p] == c[Pos(0, 0)]
  {
    forall p | p in c ensures c[p] == c[Pos(0, 0)] {
      AlongRow(rows, cols, wrap, c, p.row, p.col);
      DownFirstColumn(rows, cols, wrap, c, p.row);
    }
  }

  lemma {:induction false} AlongRow(rows: nat, cols: nat, wrap: bool, c: Clouds, r: nat, k: nat)
    requires Partition(rows, cols, c) && r < rows && k < cols
    requires forall e :: IsGridEdge(rows, cols, wrap, e) ==> c[e.from] == c[Far(rows, cols, wrap, e)]
    ensures c[Pos(r, k)] == c[Pos(r, 0)]
  {
    if k > 0 {
      AlongRow(rows, cols, wrap, c, r, k - 1);
      assert IsGridEdge(rows, cols, wrap, Edge(Pos(r, k - 1), Right));
    }
  }

  lemma {:induction false} DownFirstColumn(rows: nat, cols: nat, wrap: bool, c: Clouds, k: nat)
    requires Partition(rows, cols, c) && k < rows && cols >= 1
    requires forall e :: IsGridEdge(rows, cols, wrap, e) ==> c[e.from] == c[Far(rows, cols, wrap, e)]
    ensures c[Pos(k, 0)] == c[Pos(0, 0)]
  {
    if k > 0 {
      DownFirstColumn(rows, cols, wrap, c, k - 1);
      assert IsGridEdge(rows, cols, wrap, Edge(Pos(k - 1, 0), Down));
    }
  }

  // ------------------------------------------------------------------ lemmas on walks

  /** An edge that is not removed joins its two ends, in both directions. */
  lemma EdgeJoins(rows: nat, cols: nat, wrap: bool, removed: seq<Edge>, e: Edge)
    requires IsGridEdge(rows, cols, wrap, e) && e !in removed
    ensures Joined(rows, cols, wrap, removed, e.from, Far(rows, cols, wrap, e))
    ensures Joined(rows, cols, wrap, removed, Far(rows, cols, wrap, e), e.from)
  {
    var q := Far(rows, cols, wrap, e);
    NeighbourSymmetric(rows, cols, wrap, e.from, e.dir);
    EdgeAtUnique(rows, cols, wrap, e.from, e.dir, e);
    EdgeAtUnique(rows, cols, wrap, q, Opposite(e.dir), e);
    assert JoinedBy(rows, cols, wrap, removed, e.from, q, e.dir);
    assert JoinedBy(rows, cols, wrap, removed, q, e.from, Opposite(e.dir));
  }

  /** Being joined does not depend on the direction one looks from. */
  lemma JoinedSymmetric(rows: nat, cols: nat, wrap: bool, removed: seq<Edge>, u: Pos, v: Pos)
    requires Joined(rows, cols, wrap, removed, u, v)
    ensures Joined(rows, cols, wrap, removed, v, u)
  {
    var d := if JoinedBy(rows, cols, wrap, removed, u, v, Up) then Up
             else if JoinedBy(rows, cols, wrap, removed, u, v, Down) then Down
             else if JoinedBy(rows, cols, wrap, removed, u, v, Left) then Left
             else Right;
    assert JoinedBy(rows, cols, wrap, removed, u, v, d);
    EdgeJoins(rows, cols, wrap, removed, EdgeAt(rows, cols, wrap, u, d));
  }

  /** Removing fewer edges keeps every walk. */
  lemma WalkMono(rows: nat, cols: nat, wrap: bool, removed: seq<Edge>, fewer: seq<Edge>, w: seq<Pos>, a: Pos, b: Pos)
    requires Walk(rows, cols, wrap, removed, w, a, b) && forall e :: e in fewer ==> e in removed
    ensures Walk(rows, cols, wrap, fewer, w, a, b)
  {
    forall i | 0 <= i < |w| - 1 ensures Joined(rows, cols, wrap, fewer, w[i], w[i + 1]) {
      assert Joined(rows, cols, wrap, removed, w[i], w[i + 1]);
    }
  }

  /** A walk read backwards walks back. */
  lemma WalkReverse(rows: nat, cols: nat, wrap: bool, removed: seq<Edge>, w: seq<Pos>, a: Pos, b: Pos)
    requires Walk(rows, cols, wrap, removed, w, a, b)
    ensures Walk(rows, cols, wrap, removed, Reverse(w), b, a)
  {
    var r := Reverse(w);
    forall i | 0 <= i < |r| - 1 ensures Joined(rows, cols, wrap, removed, r[i], r[i + 1]) {
      var k := |w| - 2 - i;
      assert Joined(rows, cols, wrap, removed, w[k], w[k + 1]);
      JoinedSymmetric(rows, cols, wrap, removed, w[k], w[k + 1]);
    }
  }

  /** A walk from a to b and one from b to c make one from a to c. */
  lemma WalkGlue(rows: nat, cols: nat, wrap: bool, removed: seq<Edge>, v: seq<Pos>, w: seq<Pos>, a: Pos, b: Pos, c: Pos)
    requires Walk(rows, cols, wrap, removed, v, a, b) && Walk(rows, cols, wrap, removed, w, b, c)
    ensures Walk(rows, cols, wrap, removed, Glue(v, w), a, c)
  {
    var u := Glue(v, w);
    forall i | 0 <= i < |u| - 1 ensures Joined(rows, cols, wrap, removed, u[i], u[i + 1]) {
      if i < |v| - 1 {
        assert u[i] == v[i] && u[i + 1] == v[i + 1];
      } else {
        var k := i - |v| + 1;
        assert u[i] == w[k] && u[i + 1] == w[k + 1];
      }
    }
  }

  /**
   * The walk a cell of the far cloud has once a new edge from x to y
   * joins that cloud (represented by `ry`) to x's cloud (represented by
   * `rx`): to ry, back along y's walk to y, across the edge, then along
   * x's walk to rx.
   */
  function Detour(toRy: seq<Pos>, yToRy: seq<Pos>, xToRx: seq<Pos>): seq<Pos>
    requires |yToRy| >= 1 && |xToRx| >= 1
  {
    Glue(Glue(Glue(toRy, Reverse(yToRy)), [yToRy[0], xToRx[0]]), xToRx)
  }

  lemma DetourWalks(rows: nat, cols: nat, wrap: bool, removed: seq<Edge>, e: Edge,
                    wu: seq<Pos>, wy: seq<Pos>, wx: seq<Pos>, u: Pos, rx: Pos, ry: Pos)
    requires IsGridEdge(rows, cols, wrap, e) && e !in removed
    requires Walk(rows, cols, wrap, removed, wu, u, ry)
    requires Walk(rows, cols, wrap, removed, wy, Far(rows, cols, wrap, e), ry)
    requires Walk(rows, cols, wrap, removed, wx, e.from, rx)
    ensures Walk(rows, cols, wrap, removed, Detour(wu, wy, wx), u, rx)
  {
    var x, y := e.from, Far(rows, cols, wrap, e);
    WalkReverse(rows, cols, wrap, removed, wy, y, ry);
    WalkGlue(rows, cols, wrap, removed, wu, Reverse(wy), u, ry, y);
    EdgeJoins(rows, cols, wrap, removed, e);
    assert Walk(rows, cols, wrap, removed, [y, x], y, x);
    WalkGlue(rows, cols, wrap, removed, Glue(wu, Reverse(wy)), [y, x], u, y, x);
    WalkGlue(rows, cols, wrap, removed, Glue(Glue(wu, Reverse(wy)), [y, x]), wx, u, x, rx);
  }
}
