/**
 * The grid DungeonImpl's random constructor starts from (generateGraph):
 * rows x cols generic nodes named "1", "2", ... in row-major order, each
 * linked to its neighbours above, below, left and right. Without wrapping
 * the border nodes have no outward links; with wrapping the links run
 * round to the opposite border. The grid's edges are listed once each, by
 * the cell they leave and the side (right or down) they leave it by.
 */
module Grid {
  import opened Wrappers
  import opened Nodes
  import opened Topology
  import opened GridOps
  import opened Draws
  import Text

  /** The grids the random constructor builds: at least 4 rows and 4 columns. */
  predicate Sized(rows: nat, cols: nat)
  {
    rows >= MinRowsCols && cols >= MinRowsCols
  }

  predicate Inside(rows: nat, cols: nat, p: Pos)
  {
    p.row < rows && p.col < cols
  }

  /** The cell generateGraph links side `d` of cell `p` to, if any. */
  function Neighbour(rows: nat, cols: nat, wrap: bool, p: Pos, d: Dir): (q: Option<Pos>)
    requires Inside(rows, cols, p)
    ensures q.Some? ==> Inside(rows, cols, q.value)
  {
    match d
    case Up => if wrap || p.row >= 1 then Some(Pos(if p.row == 0 then rows - 1 else p.row - 1, p.col)) else None
    case Down => if wrap || p.row + 1 < rows then Some(Pos(if p.row + 1 >= rows then 0 else p.row + 1, p.col)) else None
    case Left => if wrap || p.col >= 1 then Some(Pos(p.row, if p.col == 0 then cols - 1 else p.col - 1)) else None
    case Right => if wrap || p.col + 1 < cols then Some(Pos(p.row, if p.col + 1 >= cols then 0 else p.col + 1)) else None
  }

  function GridLinks(rows: nat, cols: nat, wrap: bool, p: Pos): (l: Links)
    requires Inside(rows, cols, p)
    ensures forall d :: Link(l, d) == Neighbour(rows, cols, wrap, p, d)
  {
    Links(Neighbour(rows, cols, wrap, p, Up), Neighbour(rows, cols, wrap, p, Down),
          Neighbour(rows, cols, wrap, p, Right), Neighbour(rows, cols, wrap, p, Left))
  }

  /** The row-major number of a cell, counting from 1. */
  function CellNumber(cols: nat, p: Pos): nat
  {
    p.row * cols + p.col + 1
  }

  function CellName(cols: nat, p: Pos): string
  {
    Text.NatToString(CellNumber(cols, p))
  }

  /** The node generateGraph leaves at cell `p`. */
  function GridNode(rows: nat, cols: nat, wrap: bool, p: Pos): Node
    requires Inside(rows, cols, p)
  {
    Node(CellName(cols, p), GridLinks(rows, cols, wrap, p), Generic)
  }

  /**
   * generateGraph: first every cell receives a generic node named after
   * a counter that runs from 1 in row-major order, then each node's four
   * sides are linked through the node setters.
   */
  method GenerateGraph(rows: nat, cols: nat, wrap: bool) returns (g: array2<Node>)
    requires Sized(rows, cols)
    ensures fresh(g) && g.Length0 == rows && g.Length1 == cols
    ensures forall r, c :: 0 <= r < rows && 0 <= c < cols ==> g[r, c] == GridNode(rows, cols, wrap, Pos(r, c))
  {
    g := new Node[rows, cols];
    NameNodes(g, wrap);
    LinkNodes(g, wrap);
  }

  /** The first pass of generateGraph: an unlinked generic node per cell, numbered in row-major order. */
  method NameNodes(g: array2<Node>, ghost wrap: bool)
    modifies g
    ensures LinkedBefore(g, wrap, 0, 0)
  {
    var counter := 1;
    for i := 0 to g.Length0
      invariant counter == CellNumber(g.Length1, Pos(i, 0))
      invariant forall r, c :: 0 <= r < i && 0 <= c < g.Length1 ==> g[r, c] == Node(CellName(g.Length1, Pos(r, c)), NoLinks, Generic)
    {
      for j := 0 to g.Length1
        invariant counter == CellNumber(g.Length1, Pos(i, j))
        invariant forall r, c :: 0 <= r < i && 0 <= c < g.Length1 ==> g[r, c] == Node(CellName(g.Length1, Pos(r, c)), NoLinks, Generic)
        invariant forall c :: 0 <= c < j ==> g[i, c] == Node(CellName(g.Length1, Pos(i, c)), NoLinks, Generic)
      {
        g[i, j] := NewGeneric(Some(Text.NatToString(counter)), 0);
        counter := counter + 1;
      }
      RowStep(i, g.Length1);
    }
    assert forall r, c :: 0 <= r < g.Length0 && 0 <= c < g.Length1 ==>
      Node(CellName(g.Length1, Pos(r, c)), NoLinks, Generic) == Midway(g.Length0, g.Length1, wrap, 0, 0, Pos(r, c));
  }

  /** The second pass of generateGraph: each node's top, bottom, left and right links, in that order. */
  method LinkNodes(g: array2<Node>, wrap: bool)
    requires Sized(g.Length0, g.Length1) && LinkedBefore(g, wrap, 0, 0)
    modifies g
    ensures forall r, c :: 0 <= r < g.Length0 && 0 <= c < g.Length1 ==> g[r, c] == GridNode(g.Length0, g.Length1, wrap, Pos(r, c))
  {
    for i := 0 to g.Length0
      invariant LinkedBefore(g, wrap, i, 0)
    {
      for j := 0 to g.Length1
        invariant LinkedBefore(g, wrap, i, j)
      {
        LinkCell(g, wrap, i, j);
      }
      NextRow(g, wrap, i);
    }
    assert LinkedBefore(g, wrap, g.Length0, 0);
  }

  /** The loop body of the second pass, for cell (i, j). */
  method LinkCell(g: array2<Node>, wrap: bool, i: nat, j: nat)
    requires Sized(g.Length0, g.Length1) && i < g.Length0 && j < g.Length1 && LinkedBefore(g, wrap, i, j)
    modifies g
    ensures LinkedBefore(g, wrap, i, j + 1)
  {
    var rows, cols := g.Length0, g.Length1;
    var p := Pos(i, j);
    assert g[i, j] == Midway(rows, cols, wrap, i, j, p);
    var m := Linked(rows, cols, wrap, p, g[i, j]);
    assert m == GridNode(rows, cols, wrap, p);
    g[i, j] := m;
    forall r, c | 0 <= r < rows && 0 <= c < cols
      ensures g[r, c] == Midway(rows, cols, wrap, i, j + 1, Pos(r, c))
    {
      if r != i || c != j {
        assert g[r, c] == old(g[r, c]);
      }
    }
  }

  /** Every cell before (i, j) in row-major order is linked, and no other cell is. */
  ghost predicate LinkedBefore(g: array2<Node>, wrap: bool, i: nat, j: nat)
    reads g
  {
    forall r, c :: 0 <= r < g.Length0 && 0 <= c < g.Length1 ==> g[r, c] == Midway(g.Length0, g.Length1, wrap, i, j, Pos(r, c))
  }

  /** Having linked a whole row is having linked up to the start of the next. */
  lemma NextRow(g: array2<Node>, wrap: bool, i: nat)
    requires LinkedBefore(g, wrap, i, g.Length1)
    ensures LinkedBefore(g, wrap, i + 1, 0)
  {
    assert forall r, c :: 0 <= r < g.Length0 && 0 <= c < g.Length1 ==>
      Midway(g.Length0, g.Length1, wrap, i, g.Length1, Pos(r, c)) == Midway(g.Length0, g.Length1, wrap, i + 1, 0, Pos(r, c));
  }

  /** The node at `p` once the second pass has linked every cell before (i, j). */
  function Midway(rows: nat, cols: nat, wrap: bool, i: nat, j: nat, p: Pos): Node
    requires Inside(rows, cols, p)
  {
    if AtOrAfter(p, i, j) then Node(CellName(cols, p), NoLinks, Generic) else GridNode(rows, cols, wrap, p)
  }

  /** One node of the second pass: the four setters, each only where generateGraph links that side. */
  function Linked(rows: nat, cols: nat, wrap: bool, p: Pos, n: Node): (m: Node)
    requires Sized(rows, cols) && Inside(rows, cols, p) && n.links == NoLinks
    ensures m == Node(n.name, GridLinks(rows, cols, wrap, p), n.kind)
  {
    var (i, j) := (p.row, p.col);
    NoSelfLinks(rows, cols, wrap, p);
    var n1 := if wrap || i >= 1 then SetLink(n, p, Up, Some(Pos(if i == 0 then rows - 1 else i - 1, j))).value else n;
    var n2 := if wrap || i + 1 < rows then SetLink(n1, p, Down, Some(Pos(if i + 1 >= rows then 0 else i + 1, j))).value else n1;
    var n3 := if wrap || j >= 1 then SetLink(n2, p, Left, Some(Pos(i, if j == 0 then cols - 1 else j - 1))).value else n2;
    if wrap || j + 1 < cols then SetLink(n3, p, Right, Some(Pos(i, if j + 1 >= cols then 0 else j + 1))).value else n3
  }

  // ------------------------------------------------------------------ edges and cells

  /** An undirected edge of the grid: the cell it leaves and the side, right or down, it leaves by. */
  datatype Edge = Edge(from: Pos, dir: Dir)

  predicate IsGridEdge(rows: nat, cols: nat, wrap: bool, e: Edge)
  {
    Inside(rows, cols, e.from) && (e.dir == Right || e.dir == Down) &&
    Neighbour(rows, cols, wrap, e.from, e.dir).Some?
  }

  /** The cell at the other end of an edge. */
  function Far(rows: nat, cols: nat, wrap: bool, e: Edge): (q: Pos)
    requires IsGridEdge(rows, cols, wrap, e)
    ensures Inside(rows, cols, q)
  {
    Neighbour(rows, cols, wrap, e.from, e.dir).value
  }

  /** The edge that side `d` of cell `p` lies on. */
  function EdgeAt(rows: nat, cols: nat, wrap: bool, p: Pos, d: Dir): (e: Edge)
    requires Inside(rows, cols, p) && Neighbour(rows, cols, wrap, p, d).Some?
    ensures IsGridEdge(rows, cols, wrap, e)
    ensures var q := Neighbour(rows, cols, wrap, p, d).value;
      (e.from == p && Far(rows, cols, wrap, e) == q) || (e.from == q && Far(rows, cols, wrap, e) == p)
  {
    if d == Right || d == Down then Edge(p, d)
    else
      NeighbourSymmetric(rows, cols, wrap, p, d);
      Edge(Neighbour(rows, cols, wrap, p, d).value, Opposite(d))
  }

  /** The edges that leave cell `p`: to the right, then down. */
  function CellEdges(rows: nat, cols: nat, wrap: bool, p: Pos): seq<Edge>
    requires Inside(rows, cols, p)
  {
    (if Neighbour(rows, cols, wrap, p, Right).Some? then [Edge(p, Right)] else []) +
    (if Neighbour(rows, cols, wrap, p, Down).Some? then [Edge(p, Down)] else [])
  }

  /** `p` is cell (i, j) or comes after it in row-major order. */
  predicate AtOrAfter(p: Pos, i: nat, j: nat)
  {
    p.row > i || (p.row == i && p.col >= j)
  }

  /** The edges leaving the cells from (i, j) on, in row-major order. */
  function EdgesFrom(rows: nat, cols: nat, wrap: bool, i: nat, j: nat): seq<Edge>
    requires j <= cols
    decreases rows - i, cols - j
  {
    if i >= rows then []
    else if j == cols then EdgesFrom(rows, cols, wrap, i + 1, 0)
    else CellEdges(rows, cols, wrap, Pos(i, j)) + EdgesFrom(rows, cols, wrap, i, j + 1)
  }

  /** The node pairs the spanning-tree step draws from. */
  function GridEdges(rows: nat, cols: nat, wrap: bool): seq<Edge>
  {
    EdgesFrom(rows, cols, wrap, 0, 0)
  }

  /** The cells from (i, j) on, in row-major order. */
  function CellsFrom(rows: nat, cols: nat, i: nat, j: nat): seq<Pos>
    requires j <= cols
    decreases rows - i, cols - j
  {
    if i >= rows then []
    else if j == cols then CellsFrom(rows, cols, i + 1, 0)
    else [Pos(i, j)] + CellsFrom(rows, cols, i, j + 1)
  }

  function CellList(rows: nat, cols: nat): seq<Pos>
  {
    CellsFrom(rows, cols, 0, 0)
  }

  // ------------------------------------------------------------------ lemmas

  /** No side of a cell in a grid of at least 2 x 2 is linked to the cell itself. */
  lemma NoSelfLinks(rows: nat, cols: nat, wrap: bool, p: Pos)
    requires rows >= 2 && cols >= 2 && Inside(rows, cols, p)
    ensures forall d :: Neighbour(rows, cols, wrap, p, d) != Some(p)
  {
  }

  /** Every link is answered by the opposite link of its target. */
  lemma NeighbourSymmetric(rows: nat, cols: nat, wrap: bool, p: Pos, d: Dir)
    requires Inside(rows, cols, p) && Neighbour(rows, cols, wrap, p, d).Some?
    ensures Neighbour(rows, cols, wrap, Neighbour(rows, cols, wrap, p, d).value, Opposite(d)) == Some(p)
  {
  }

  /** In a grid of at least 3 x 3 the four sides of a cell lead to four different cells. */
  lemma SidesDistinct(rows: nat, cols: nat, wrap: bool, p: Pos, d: Dir, e: Dir)
    requires rows >= 3 && cols >= 3 && Inside(rows, cols, p) && d != e
    requires Neighbour(rows, cols, wrap, p, d).Some?
    ensures Neighbour(rows, cols, wrap, p, e) != Neighbour(rows, cols, wrap, p, d)
  {
  }

  /**
   * Without wrapping a side is linked exactly when the cell beside it lies
   * in the grid, and then to that cell. With wrapping every side is
   * linked; the first row's top link goes to the last row, the last row's
   * bottom link to the first, and likewise for the columns.
   */
  lemma Borders(rows: nat, cols: nat, p: Pos)
    requires Inside(rows, cols, p)
    ensures Neighbour(rows, cols, false, p, Up) == if p.row == 0 then None else Some(Pos(p.row - 1, p.col))
    ensures Neighbour(rows, cols, false, p, Down) == if p.row == rows - 1 then None else Some(Pos(p.row + 1, p.col))
    ensures Neighbour(rows, cols, false, p, Left) == if p.col == 0 then None else Some(Pos(p.row, p.col - 1))
    ensures Neighbour(rows, cols, false, p, Right) == if p.col == cols - 1 then None else Some(Pos(p.row, p.col + 1))
    ensures Neighbour(rows, cols, true, p, Up) == Some(Pos(if p.row == 0 then rows - 1 else p.row - 1, p.col))
    ensures Neighbour(rows, cols, true, p, Down) == Some(Pos(if p.row == rows - 1 then 0 else p.row + 1, p.col))
    ensures Neighbour(rows, cols, true, p, Left) == Some(Pos(p.row, if p.col == 0 then cols - 1 else p.col - 1))
    ensures Neighbour(rows, cols, true, p, Right) == Some(Pos(p.row, if p.col == cols - 1 then 0 else p.col + 1))
  {
  }

  lemma MulMono(a: nat, b: nat, c: nat)
    requires a <= b
    ensures a * c <= b * c
  {
  }

  lemma MulCancel(a: nat, b: nat, c: nat)
    ensures a * c < b * c ==> a < b
  {
    if b <= a {
      MulMono(b, a, c);
    }
  }

  /** Every number 1 .. rows * cols is the row-major number of a cell: number k is cell ((k - 1) / cols, (k - 1) % cols). */
  lemma NumberedCell(rows: nat, cols: nat, k: nat)
    requires 1 <= k <= rows * cols
    ensures cols > 0
    ensures var p := Pos((k - 1) / cols, (k - 1) % cols); Inside(rows, cols, p) && CellNumber(cols, p) == k
  {
    assert cols > 0;
    var q, r := (k - 1) / cols, (k - 1) % cols;
    assert q * cols + r == k - 1;
    MulCancel(q, rows, cols);
  }

  lemma RowStep(r: nat, cols: nat)
    ensures (r + 1) * cols == r * cols + cols
  {
  }

  /** A cell of an earlier row has a smaller number. */
  lemma EarlierRow(cols: nat, p: Pos, q: Pos)
    requires p.col < cols && p.row < q.row
    ensures CellNumber(cols, p) < CellNumber(cols, q)
  {
    MulMono(p.row + 1, q.row, cols);
    RowStep(p.row, cols);
  }

  /** The cells are numbered 1 to rows * cols, and no two cells share a number or a name. */
  lemma CellNames(rows: nat, cols: nat, p: Pos, q: Pos)
    requires Inside(rows, cols, p) && Inside(rows, cols, q)
    ensures 1 <= CellNumber(cols, p) <= rows * cols
    ensures CellName(cols, p) == CellName(cols, q) <==> p == q
  {
    MulMono(p.row + 1, rows, cols);
    RowStep(p.row, cols);
    Text.NatToStringInjective(CellNumber(cols, p), CellNumber(cols, q));
    if p.row < q.row {
      EarlierRow(cols, p, q);
    } else if q.row < p.row {
      EarlierRow(cols, q, p);
    }
  }

  /** The links one cell receives stay inside the grid, lead back, and number four with wrapping. */
  lemma CellLinksShape(rows: nat, cols: nat, wrap: bool, p: Pos)
    requires Inside(rows, cols, p)
    ensures LinksWithin(rows, cols, GridLinks(rows, cols, wrap, p))
    ensures wrap ==> Degree(GridLinks(rows, cols, wrap, p)) == 4
    ensures forall d :: Link(GridLinks(rows, cols, wrap, p), d).Some? ==>
      var q := Link(GridLinks(rows, cols, wrap, p), d).value;
      Inside(rows, cols, q) && Link(GridLinks(rows, cols, wrap, q), Opposite(d)) == Some(p)
  {
    forall d | Neighbour(rows, cols, wrap, p, d).Some?
      ensures Neighbour(rows, cols, wrap, Neighbour(rows, cols, wrap, p, d).value, Opposite(d)) == Some(p)
    {
      NeighbourSymmetric(rows, cols, wrap, p, d);
    }
  }

  /** The grid generateGraph builds has symmetric links that stay inside it, and with wrapping every node has four. */
  lemma GridShape(g: array2<Node>, wrap: bool)
    requires forall r, c :: 0 <= r < g.Length0 && 0 <= c < g.Length1 ==>
      g[r, c] == GridNode(g.Length0, g.Length1, wrap, Pos(r, c))
    ensures Symmetric(g) && LinksInGrid(g)
    ensures wrap ==> forall r, c :: 0 <= r < g.Length0 && 0 <= c < g.Length1 ==> Degree(g[r, c].links) == 4
  {
    forall r, c | 0 <= r < g.Length0 && 0 <= c < g.Length1
      ensures LinksWithin(g.Length0, g.Length1, g[r, c].links)
      ensures wrap ==> Degree(g[r, c].links) == 4
      ensures forall d :: Link(g[r, c].links, d).Some? ==>
        var q := Link(g[r, c].links, d).value;
        InGrid(g, q) && Link(g[q.row, q.col].links, Opposite(d)) == Some(Pos(r, c))
    {
      CellLinksShape(g.Length0, g.Length1, wrap, Pos(r, c));
    }
  }

  /** A side lies on an edge exactly when it is the edge's own side or the opposite side at the far end. */
  lemma EdgeAtUnique(rows: nat, cols: nat, wrap: bool, p: Pos, d: Dir, e: Edge)
    requires Inside(rows, cols, p) && Neighbour(rows, cols, wrap, p, d).Some? && IsGridEdge(rows, cols, wrap, e)
    ensures EdgeAt(rows, cols, wrap, p, d) == e <==>
      (p == e.from && d == e.dir) || (p == Far(rows, cols, wrap, e) && d == Opposite(e.dir))
  {
    NeighbourSymmetric(rows, cols, wrap, p, d);
    NeighbourSymmetric(rows, cols, wrap, e.from, e.dir);
  }

  lemma DistinctConcat<T>(a: seq<T>, b: seq<T>)
    requires Distinct(a) && Distinct(b) && forall x :: x in a ==> x !in b
    ensures Distinct(a + b)
  {
    forall i, j | 0 <= i < j < |a + b| ensures (a + b)[i] != (a + b)[j] {
      if i < |a| && j >= |a| {
        assert (a + b)[i] in a && (a + b)[j] in b;
      }
    }
  }

  /** The edges leaving a cell are the grid edges that start there. */
  lemma CellEdgesMembers(rows: nat, cols: nat, wrap: bool, p: Pos)
    requires Inside(rows, cols, p)
    ensures forall e :: e in CellEdges(rows, cols, wrap, p) <==> IsGridEdge(rows, cols, wrap, e) && e.from == p
    ensures Distinct(CellEdges(rows, cols, wrap, p))
  {
  }

  /** The edge list from (i, j) on holds exactly the grid edges that start at (i, j) or later. */
  lemma {:induction false} EdgesFromMembers(rows: nat, cols: nat, wrap: bool, i: nat, j: nat)
    requires j <= cols
    ensures forall e :: e in EdgesFrom(rows, cols, wrap, i, j) <==> IsGridEdge(rows, cols, wrap, e) && AtOrAfter(e.from, i, j)
    decreases rows - i, cols - j
  {
    if i < rows {
      if j == cols {
        EdgesFromMembers(rows, cols, wrap, i + 1, 0);
        assert forall e :: IsGridEdge(rows, cols, wrap, e) ==> (AtOrAfter(e.from, i, j) <==> AtOrAfter(e.from, i + 1, 0));
      } else {
        var here, later := CellEdges(rows, cols, wrap, Pos(i, j)), EdgesFrom(rows, cols, wrap, i, j + 1);
        assert EdgesFrom(rows, cols, wrap, i, j) == here + later;
        EdgesFromMembers(rows, cols, wrap, i, j + 1);
        CellEdgesMembers(rows, cols, wrap, Pos(i, j));
        forall e
          ensures e in here + later <==> IsGridEdge(rows, cols, wrap, e) && AtOrAfter(e.from, i, j)
        {
          assert AtOrAfter(e.from, i, j) <==> e.from == Pos(i, j) || AtOrAfter(e.from, i, j + 1);
        }
      }
    }
  }

  /** The edges leaving cell (i, j) are none of the later ones, so putting them in front keeps the list free of repeats. */
  lemma CellThenLater(rows: nat, cols: nat, wrap: bool, i: nat, j: nat)
    requires i < rows && j < cols
    requires Distinct(EdgesFrom(rows, cols, wrap, i, j + 1))
    ensures Distinct(EdgesFrom(rows, cols, wrap, i, j))
  {
    var here, later := CellEdges(rows, cols, wrap, Pos(i, j)), EdgesFrom(rows, cols, wrap, i, j + 1);
    EdgesFromMembers(rows, cols, wrap, i, j + 1);
    CellEdgesMembers(rows, cols, wrap, Pos(i, j));
    forall e | e in here
      ensures e !in later
    {
      assert e.from == Pos(i, j) && !AtOrAfter(e.from, i, j + 1);
    }
    DistinctConcat(here, later);
  }

  /** The edge list from (i, j) on holds no edge twice. */
  lemma {:induction false} EdgesFromDistinct(rows: nat, cols: nat, wrap: bool, i: nat, j: nat)
    requires j <= cols
    ensures Distinct(EdgesFrom(rows, cols, wrap, i, j))
    decreases rows - i, cols - j
  {
    if i < rows {
      if j == cols {
        EdgesFromDistinct(rows, cols, wrap, i + 1, 0);
      } else {
        EdgesFromDistinct(rows, cols, wrap, i, j + 1);
        CellThenLater(rows, cols, wrap, i, j);
      }
    }
  }

  /** The grid's edge list holds every edge of the grid, each once. */
  lemma GridEdgesExact(rows: nat, cols: nat, wrap: bool)
    ensures forall e :: e in GridEdges(rows, cols, wrap) <==> IsGridEdge(rows, cols, wrap, e)
    ensures Distinct(GridEdges(rows, cols, wrap))
  {
    EdgesFromMembers(rows, cols, wrap, 0, 0);
    EdgesFromDistinct(rows, cols, wrap, 0, 0);
  }

  /** The cell list holds every cell from (i, j) on, each once; there are rows * cols of them in all. */
  lemma {:induction false} CellsFromMembers(rows: nat, cols: nat, i: nat, j: nat)
    requires j <= cols && (i < rows || j == 0)
    ensures forall p :: p in CellsFrom(rows, cols, i, j) <==> Inside(rows, cols, p) && AtOrAfter(p, i, j)
    ensures Distinct(CellsFrom(rows, cols, i, j))
    ensures |CellsFrom(rows, cols, i, j)| + i * cols + j == if i >= rows then i * cols else rows * cols
    decreases rows - i, cols - j
  {
    if i < rows {
      if j == cols {
        CellsFromMembers(rows, cols, i + 1, 0);
        assert (i + 1) * cols == i * cols + cols;
      } else {
        CellsFromMembers(rows, cols, i, j + 1);
        DistinctConcat([Pos(i, j)], CellsFrom(rows, cols, i, j + 1));
      }
    }
  }

  lemma CellListExact(rows: nat, cols: nat)
    ensures forall p :: p in CellList(rows, cols) <==> Inside(rows, cols, p)
    ensures Distinct(CellList(rows, cols))
    ensures |CellList(rows, cols)| == rows * cols
  {
    CellsFromMembers(rows, cols, 0, 0);
  }
}
