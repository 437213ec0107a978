/** The n-by-n grid of squares: the board, the union-find roots and the
    adjacency lists of open squares, together with the neighbour scan, the
    open step of the driver loop and the percolation test. */
module Grids {
  import opened Cells
  import opened UnionFind
  import opened Paths

  /** The grid: dimension, the forest (board and root list) and `adj_list`. */
  datatype Grid = Grid(n: nat, forest: Forest, adj: Adjacency)

  /** Every position of the n-by-n grid. */
  function Squares(n: nat): (s: set<Pos>)
    ensures forall p :: p in s <==> InGrid(n, p)
  {
    var s := set r: nat, c: nat | r < n && c < n :: Pos(r, c);
    assert forall p | InGrid(n, p) :: p in s by {
      forall p | InGrid(n, p)
        ensures p in s
      {
        assert p == Pos(p.row, p.col);
      }
    }
    s
  }

  /** The board and the adjacency lists have exactly one entry per grid square. */
  ghost predicate WellFormed(g: Grid) {
    && (forall p :: p in g.forest.board <==> InGrid(g.n, p))
    && g.adj.Keys == g.forest.board.Keys
  }

  /** `Grid(n)`: every square closed, no parent, size 0, empty adjacency list,
      no roots. */
  function Init(n: nat): (g: Grid)
    ensures WellFormed(g) && g.n == n && g.forest.sets == []
    ensures forall p | InGrid(n, p) :: g.forest.board[p] == Fresh && g.adj[p] == []
  {
    var s := Squares(n);
    Grid(n, Forest(map p | p in s :: Fresh, []), map p | p in s :: [])
  }

  /** Position of neighbour `q` relative to `p` in the scan order of
      `get_open_neighbors`: up 0, down 1, left 2, right 3. */
  function Direction(p: Pos, q: Pos): nat {
    if q.row + 1 == p.row then 0
    else if q.row == p.row + 1 then 1
    else if q.col + 1 == p.col then 2
    else 3
  }

  /** The neighbour of `p` at `(row, col)` as a one-element list when it lies on
      the grid and its status is exactly open, else the empty list. */
  function OpenAt(g: Grid, row: int, col: int): (r: seq<Pos>)
    requires WellFormed(g)
    ensures |r| <= 1
    ensures forall q :: q in r <==> 0 <= row && 0 <= col && q == Pos(row, col) && InGrid(g.n, q)
                                    && g.forest.board[q].status == Open
  {
    if 0 <= row < g.n && 0 <= col < g.n && g.forest.board[Pos(row, col)].status == Open
    then [Pos(row, col)] else []
  }

  /** The squares of `s` come in strictly increasing scan order around `p`. */
  predicate InScanOrder(p: Pos, s: seq<Pos>) {
    forall i, j | 0 <= i < j < |s| :: Direction(p, s[i]) < Direction(p, s[j])
  }

  /** Putting at most one square of direction `d` in front of squares of
      later directions keeps the scan order. */
  lemma ScanOrderCons(p: Pos, a: seq<Pos>, s: seq<Pos>, d: nat)
    requires |a| <= 1 && (forall q | q in a :: Direction(p, q) == d)
    requires InScanOrder(p, s) && forall q | q in s :: Direction(p, q) > d
    ensures InScanOrder(p, a + s) && forall q | q in a + s :: Direction(p, q) >= d
  {
    forall i, j | 0 <= i < j < |a + s|
      ensures Direction(p, (a + s)[i]) < Direction(p, (a + s)[j])
    {
      if i < |a| {
        assert (a + s)[i] in a && (a + s)[j] == s[j - |a|];
      } else {
        assert (a + s)[i] == s[i - |a|] && (a + s)[j] == s[j - |a|];
      }
    }
  }

  /** Distinct scan directions mean distinct squares. */
  lemma ScanOrderNoDup(p: Pos, s: seq<Pos>)
    requires InScanOrder(p, s)
    ensures NoDup(s)
  {
    forall i, j | 0 <= i < j < |s|
      ensures s[i] != s[j]
    {
      assert Direction(p, s[i]) < Direction(p, s[j]);
    }
  }

  /** `get_open_neighbors`: the grid neighbours of `p` whose status is exactly
      open, scanned up, down, left, right. */
  function OpenNeighbors(g: Grid, p: Pos): (r: seq<Pos>)
    requires WellFormed(g) && InGrid(g.n, p)
    ensures forall q :: q in r <==> InGrid(g.n, q) && Adjacent(p, q) && g.forest.board[q].status == Open
    ensures InScanOrder(p, r)
    ensures NoDup(r)
  {
    var up, down := OpenAt(g, p.row - 1, p.col), OpenAt(g, p.row + 1, p.col);
    var left, right := OpenAt(g, p.row, p.col - 1), OpenAt(g, p.row, p.col + 1);
    ScanOrderCons(p, right, [], 3);
    ScanOrderCons(p, left, right, 2);
    ScanOrderCons(p, down, left + right, 1);
    ScanOrderCons(p, up, down + (left + right), 0);
    var r := up + (down + (left + right));
    ScanOrderNoDup(p, r);
    assert forall q :: q in r <==> InGrid(g.n, q) && Adjacent(p, q) && g.forest.board[q].status == Open;
    r
  }

  /** percolation.py:196-198: append `x` to `nb`'s list, then append
      `nb` to `x`'s list unless it is already there. */
  function AddEdge(adj: Adjacency, x: Pos, nb: Pos): (r: Adjacency)
    requires x in adj && nb in adj
    ensures r.Keys == adj.Keys
    ensures forall u, v {:trigger v in r[u]} {:trigger v in adj[u]} | u in adj :: v in r[u] <==> v in adj[u] || (u == nb && v == x) || (u == x && v == nb)
    ensures forall u | u in adj && u != x && u != nb :: r[u] == adj[u]
    ensures x != nb && NoDup(adj[x]) && NoDup(adj[nb]) && x !in adj[nb] ==> NoDup(r[x]) && NoDup(r[nb])
  {
    var adj1 := adj[nb := adj[nb] + [x]];
    if nb in adj1[x] then adj1 else adj1[x := adj1[x] + [nb]]
  }

  /** One pass of the linking loop: add the edge, then `union(x, nb)`. */
  function LinkOne(g: Grid, x: Pos, nb: Pos): (r: Grid)
    requires Structured(g.forest) && x in g.forest.board && nb in g.forest.board
    requires x in g.adj && nb in g.adj && InSet(g.forest.board, x) && InSet(g.forest.board, nb)
    ensures r.n == g.n && r.forest.board.Keys == g.forest.board.Keys && r.adj.Keys == g.adj.Keys
    ensures forall z | z in g.forest.board :: r.forest.board[z].status == g.forest.board[z].status
    ensures Structured(r.forest)
  {
    UnionStructured(g.forest, x, nb);
    Grid(g.n, Union(g.forest, x, nb), AddEdge(g.adj, x, nb))
  }

  /** The linking loop of the open step (percolation.py:193-199), over the list of
      open neighbours of the opened square `x`. */
  function Link(g: Grid, x: Pos, nbs: seq<Pos>): (r: Grid)
    requires Structured(g.forest) && x in g.forest.board && x in g.adj && InSet(g.forest.board, x)
    requires forall nb | nb in nbs :: nb in g.forest.board && nb in g.adj && InSet(g.forest.board, nb)
    ensures r.n == g.n && r.forest.board.Keys == g.forest.board.Keys && r.adj.Keys == g.adj.Keys
    ensures forall z | z in g.forest.board :: r.forest.board[z].status == g.forest.board[z].status
    ensures Structured(r.forest)
    decreases |nbs|
  {
    if nbs == [] then g
    else
      var g1 := LinkOne(g, x, nbs[0]);
      LinkTail(g, g1, nbs);
      Link(g1, x, nbs[1..])
  }

  /** The squares still to be linked stay open, and in the board, after one
      link. */
  lemma LinkTail(g: Grid, g1: Grid, nbs: seq<Pos>)
    requires |nbs| >= 1
    requires forall nb | nb in nbs :: nb in g.forest.board && nb in g.adj && InSet(g.forest.board, nb)
    requires g1.forest.board.Keys == g.forest.board.Keys && g1.adj.Keys == g.adj.Keys
    requires forall z | z in g.forest.board :: g1.forest.board[z].status == g.forest.board[z].status
    ensures forall nb | nb in nbs[1..] :: nb in g1.forest.board && nb in g1.adj && InSet(g1.forest.board, nb)
  {
    forall nb | nb in nbs[1..]
      ensures nb in g1.forest.board && nb in g1.adj && InSet(g1.forest.board, nb)
    {
      assert nb in nbs;
      assert g1.forest.board[nb].status == g.forest.board[nb].status;
    }
  }

  /** One iteration of the driver loop on the drawn square `p`: a square that
      is not closed is left alone; a closed one is opened, made a singleton
      set and linked to its open neighbours. */
  function Step(g: Grid, p: Pos): (r: Grid)
    requires WellFormed(g) && Structured(g.forest) && InGrid(g.n, p)
    ensures WellFormed(r) && r.n == g.n && Structured(r.forest)
    ensures g.forest.board[p].status != Closed ==> r == g
    ensures g.forest.board[p].status == Closed ==> r.forest.board[p].status == Open
  {
    if g.forest.board[p].status != Closed then g
    else
      OpenedStructured(g.forest, p);
      var g1 := g.(forest := Opened(g.forest, p));
      Link(g1, p, OpenNeighbors(g1, p))
  }

  /** The inner loop of `percolation_check`: is `top` in the same set as
      some bottom-row square from column `j` on? */
  function ScanBottom(g: Grid, top: Pos, j: nat): (r: bool)
    requires WellFormed(g) && Shaped(g.forest.board) && g.n >= 1 && InGrid(g.n, top)
    requires j <= g.n
    ensures r <==> exists u {:trigger SameSet(g.forest.board, top, u)} | u in g.forest.board && u.row == g.n - 1 && j <= u.col ::
                     SameSet(g.forest.board, top, u)
    decreases g.n - j
  {
    if j == g.n then false
    else SameSet(g.forest.board, top, Pos(g.n - 1, j)) || ScanBottom(g, top, j + 1)
  }

  /** The outer loop of `percolation_check`, over the top row from column
      `i` on. */
  function ScanTop(g: Grid, i: nat): (r: bool)
    requires WellFormed(g) && Shaped(g.forest.board) && g.n >= 1
    requires i <= g.n
    ensures r <==> exists t, u {:trigger SameSet(g.forest.board, t, u)} | t in g.forest.board && u in g.forest.board &&
                                 t.row == 0 && i <= t.col && u.row == g.n - 1 ::
                     SameSet(g.forest.board, t, u)
    decreases g.n - i
  {
    if i == g.n then false
    else ScanBottom(g, Pos(0, i), 0) || ScanTop(g, i + 1)
  }

  /** Percolation as a relation: some top-row square and some bottom-row
      square are in the same set. */
  ghost predicate Percolates(g: Grid)
    requires WellFormed(g) && Shaped(g.forest.board)
  {
    exists t, u {:trigger SameSet(g.forest.board, t, u)} | t in g.forest.board && u in g.forest.board ::
      t.row == 0 && u.row == g.n - 1 && SameSet(g.forest.board, t, u)
  }

  /** `percolation_check`: true exactly when the grid percolates. */
  function PercolationCheck(g: Grid): (r: bool)
    requires WellFormed(g) && Shaped(g.forest.board) && g.n >= 1
    ensures r <==> Percolates(g)
  {
    ScanTop(g, 0)
  }

  // ---------------------------------------------------------------------
  // invariants of the driver loop

  /** Only closed and open squares exist while the loop runs. */
  ghost predicate NoVisited(g: Grid) {
    forall p | p in g.forest.board :: g.forest.board[p].status != Visited
  }

  /** Adjacency entries join two grid neighbours that are both in sets. */
  ghost predicate AdjSound(g: Grid) {
    forall u, v {:trigger v in g.adj[u]} | u in g.adj && v in g.adj[u] ::
      && u in g.forest.board && v in g.forest.board && Adjacent(u, v)
      && InSet(g.forest.board, u) && InSet(g.forest.board, v)
  }

  /** No adjacency list holds a square twice. */
  ghost predicate AdjNoDup(g: Grid) {
    forall u | u in g.adj :: NoDup(g.adj[u])
  }

  /** Every pair of open grid neighbours is listed. */
  ghost predicate AdjComplete(g: Grid)
    requires WellFormed(g)
  {
    forall u, v {:trigger Adjacent(u, v)} | u in g.forest.board && v in g.forest.board &&
                  InSet(g.forest.board, u) && InSet(g.forest.board, v) && Adjacent(u, v) ::
      v in g.adj[u]
  }

  /** Every adjacency edge joins two squares of the same set. */
  ghost predicate EdgesJoinSets(g: Grid)
    requires Shaped(g.forest.board)
  {
    forall u, v {:trigger v in g.adj[u]} | u in g.adj && v in g.adj[u] && u in g.forest.board && v in g.forest.board ::
      SameSet(g.forest.board, u, v)
  }

  /** Every square in a set reaches its root along adjacency edges. */
  ghost predicate RootsReachable(g: Grid)
    requires Shaped(g.forest.board)
  {
    forall u {:trigger Root(g.forest.board, u)} | u in g.forest.board && InSet(g.forest.board, u) ::
      Reachable(g.adj, u, Root(g.forest.board, u))
  }

  /** The part of the invariant that also holds between two iterations of
      the linking loop. */
  ghost predicate Linked(g: Grid) {
    && WellFormed(g)
    && NoVisited(g)
    && Valid(g.forest)
    && AdjSound(g)
    && Symmetric(g.adj)
    && EdgesJoinSets(g)
    && RootsReachable(g)
  }

  /** The invariant of the driver loop after `c` successful openings. */
  ghost predicate Inv(g: Grid, c: nat) {
    && Linked(g)
    && AdjNoDup(g)
    && AdjComplete(g)
    && c == |InSetCells(g.forest.board)|
  }
}
