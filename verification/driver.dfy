/** The driver `main(n)`: open drawn squares until the grid percolates, then
    search from the last opened square and mark a path to the top row and
    a path to the bottom row as visited. The random draws are an input
    sequence of grid positions. */
module Driver {
  import opened Cells
  import opened UnionFind
  import opened Paths
  import opened Grids
  import opened Steps
  import opened Search

  /** Every draw names a square of the n-by-n grid. */
  predicate AllInGrid(n: nat, ds: seq<Pos>) {
    forall i | 0 <= i < |ds| :: InGrid(n, ds[i])
  }

  /** The state the loop of `main` carries from one draw to the next: the
      grid and the counter `c`. */
  datatype Progress = Progress(grid: Grid, count: nat)

  /** One pass of the loop of `main` (percolation.py:188-199 and 203) on the drawn
      square `p`, leaving out the percolation test: a closed square is
      opened, linked and counted; an open one changes nothing. */
  function Pass(s: Progress, p: Pos): (r: Progress)
    requires WellFormed(s.grid) && Structured(s.grid.forest) && InGrid(s.grid.n, p)
    ensures WellFormed(r.grid) && r.grid.n == s.grid.n && Structured(r.grid.forest)
    ensures s.grid.forest.board[p].status == Closed ==>
              r.grid.forest.board[p].status == Open && r.count == s.count + 1
    ensures s.grid.forest.board[p].status != Closed ==> r == s
  {
    if s.grid.forest.board[p].status == Closed then Progress(Step(s.grid, p), s.count + 1) else s
  }

  /** The state after the loop of `main` has applied the draws `ds` one by
      one, without the percolation test stopping it. */
  function Replay(n: nat, ds: seq<Pos>): (s: Progress)
    requires AllInGrid(n, ds)
    ensures WellFormed(s.grid) && s.grid.n == n && Structured(s.grid.forest)
    ensures s.count <= |ds|
    decreases |ds|
  {
    if ds == [] then
      InitInv(n);
      Progress(Init(n), 0)
    else
      Pass(Replay(n, ds[..|ds| - 1]), ds[|ds| - 1])
  }

  /** The invariant of the open step holds after any run of draws, with
      the counter counting the squares in sets. */
  lemma {:induction false} ReplayInv(n: nat, ds: seq<Pos>)
    requires AllInGrid(n, ds)
    ensures Inv(Replay(n, ds).grid, Replay(n, ds).count)
    decreases |ds|
  {
    if ds == [] {
      InitInv(n);
    } else {
      var pre := ds[..|ds| - 1];
      ReplayInv(n, pre);
      PassInv(Replay(n, pre), ds[|ds| - 1]);
    }
  }

  /** One pass of the loop keeps the invariant of the open step. */
  lemma PassInv(s: Progress, p: Pos)
    requires Inv(s.grid, s.count) && InGrid(s.grid.n, p)
    ensures Inv(Pass(s, p).grid, Pass(s, p).count)
  {
    StepInv(s.grid, s.count, p);
  }

  /** The empty grid does not percolate: no square is in a set. */
  lemma InitNotPercolating(n: nat)
    ensures Inv(Init(n), 0) && !Percolates(Init(n))
  {
    InitInv(n);
  }

  /** Replaying a prefix one draw longer is one more pass of the loop. */
  lemma ReplayNext(n: nat, ds: seq<Pos>, k: nat)
    requires AllInGrid(n, ds) && k < |ds|
    ensures AllInGrid(n, ds[..k]) && AllInGrid(n, ds[..k + 1])
    ensures Replay(n, ds[..k + 1]) == Pass(Replay(n, ds[..k]), ds[k])
  {
    assert ds[..k + 1][..k] == ds[..k];
  }

  /** No prefix of the draws shorter than `k` made the grid percolate. */
  ghost predicate NoEarlierPercolation(n: nat, draws: seq<Pos>, k: nat)
    requires AllInGrid(n, draws) && k <= |draws| + 1
  {
    forall j | 0 <= j < k :: AllInGrid(n, draws[..j]) && !Percolates(Replay(n, draws[..j]).grid)
  }

  lemma NoEarlierNext(n: nat, draws: seq<Pos>, k: nat)
    requires AllInGrid(n, draws) && k <= |draws| && NoEarlierPercolation(n, draws, k)
    requires AllInGrid(n, draws[..k]) && !Percolates(Replay(n, draws[..k]).grid)
    ensures NoEarlierPercolation(n, draws, k + 1)
  {
  }

  /** What the loop of `main` keeps true: `s` is the state after the first
      `k` draws, `percolated` is the percolation test's verdict on it, and
      no earlier prefix percolated. */
  ghost predicate Looping(n: nat, draws: seq<Pos>, k: nat, s: Progress, percolated: bool)
    requires AllInGrid(n, draws)
  {
    && k <= |draws| && AllInGrid(n, draws[..k]) && s == Replay(n, draws[..k])
    && (percolated <==> Percolates(s.grid))
    && (percolated ==> k >= 1)
    && NoEarlierPercolation(n, draws, k)
  }

  /** One pass of the loop keeps it going. */
  method Iterate(n: nat, draws: seq<Pos>, k: nat, s: Progress, percolated: bool) returns (s2: Progress, percolated2: bool)
    requires AllInGrid(n, draws) && Looping(n, draws, k, s, percolated) && !percolated && k < |draws|
    ensures Looping(n, draws, k + 1, s2, percolated2)
  {
    NoEarlierNext(n, draws, k);
    ReplayNext(n, draws, k);
    s2, percolated2 := Draw(s, draws[k]);
  }

  /** The loop of `main` up to the percolation test: apply draws until one
      of them makes the grid percolate or the draws run out. `k` is the
      number of draws used. */
  method OpenUntilPercolation(n: nat, draws: seq<Pos>) returns (s: Progress, k: nat, percolated: bool)
    requires n >= 1 && AllInGrid(n, draws)
    ensures Looping(n, draws, k, s, percolated)
    ensures !percolated ==> k == |draws|
  {
    s, k, percolated := Progress(Init(n), 0), 0, false;
    LoopingInit(n, draws);
    while !percolated && k < |draws|
      invariant Looping(n, draws, k, s, percolated)
    {
      s, percolated := Iterate(n, draws, k, s, percolated);
      k := k + 1;
    }
  }

  /** The loop starts on the empty grid, which does not percolate. */
  lemma LoopingInit(n: nat, draws: seq<Pos>)
    requires AllInGrid(n, draws)
    ensures Looping(n, draws, 0, Progress(Init(n), 0), false)
  {
    InitNotPercolating(n);
    assert draws[..0] == [];
  }

  /** One pass of the loop of `main` on the drawn square `p`, with the
      percolation test, which runs only when `p` was closed. */
  method Draw(s: Progress, p: Pos) returns (s2: Progress, percolated: bool)
    requires WellFormed(s.grid) && Structured(s.grid.forest) && InGrid(s.grid.n, p)
    ensures s2 == Pass(s, p)
    ensures percolated <==> s.grid.forest.board[p].status == Closed && Percolates(s2.grid)
  {
    s2, percolated := Pass(s, p), false;
    if s.grid.forest.board[p].status == Closed {
      percolated := PercolationCheck(s2.grid);
    }
  }

  /** The board with every square of `cells` marked visited. */
  function MarkVisited(b: Board, cells: seq<Pos>): (r: Board)
    ensures r.Keys == b.Keys
    ensures forall p | p in b :: r[p] == if p in cells then b[p].(status := Visited) else b[p]
    decreases |cells|
  {
    if cells == [] then b
    else
      var b1 := MarkVisited(b, cells[1..]);
      if cells[0] in b1 then b1[cells[0] := b1[cells[0]].(status := Visited)] else b1
  }

  /** What `main` ends with. `Exhausted`: the draws ran out before the grid
      percolated (the source keeps drawing forever). `Percolated`: the grid
      percolated on draw number `used`, whose square `source` was opened
      last; `reached` is the grid at that moment, `topPath` and
      `bottomPath` lead from the found row-0 and row-(n-1) squares back to
      `source`, and `grid` is `reached` with the source and both paths
      marked visited. */
  datatype Outcome =
    | Exhausted(grid: Grid, count: nat)
    | Percolated(reached: Grid, grid: Grid, count: nat, used: nat, source: Pos, top: Pos, bottom: Pos,
                 topPath: seq<Pos>, bottomPath: seq<Pos>)

  /** A path the driver marks: from `from` back to `source`, along adjacency
      edges, every square listed once and open. */
  ghost predicate PathBack(g: Grid, from: Pos, source: Pos, path: seq<Pos>) {
    && IsWalk(g.adj, path) && path[0] == from && path[|path| - 1] == source
    && NoDup(path)
    && (forall i | 0 <= i < |path| :: path[i] in g.forest.board && g.forest.board[path[i]].status == Open)
  }

  /** A walk back to an open source along reversed adjacency edges is a
      walk forwards of open squares. */
  lemma PathOpen(g: Grid, c: nat, source: Pos, path: seq<Pos>)
    requires Inv(g, c) && source in g.forest.board && InSet(g.forest.board, source)
    requires |path| >= 1 && path[|path| - 1] == source
    requires forall i | 0 <= i < |path| :: path[i] in g.adj
    requires forall i | 0 <= i < |path| - 1 :: path[i] in g.adj[path[i + 1]]
    ensures IsWalk(g.adj, path)
    ensures forall i | 0 <= i < |path| :: path[i] in g.forest.board && g.forest.board[path[i]].status == Open
  {
    forall i | 0 <= i < |path|
      ensures path[i] in g.forest.board && g.forest.board[path[i]].status == Open
    {
      if i < |path| - 1 {
        assert path[i] in g.adj[path[i + 1]];
      }
    }
  }

  /** A walk that starts and ends at the same square and repeats no square
      is that square alone. */
  lemma SingleWalk(source: Pos, walk: seq<Pos>)
    requires |walk| >= 1 && walk[0] == source && walk[|walk| - 1] == source && NoDup(walk)
    ensures walk == [source]
  {
  }

  /** One of the two loops at percolation.py:209-214: walk back from `from` along the
      parent map of the search. */
  method PathTo(g: Grid, c: nat, pm: map<Pos, Pos>, source: Pos, from: Pos, ghost rank: map<Pos, nat>)
    returns (path: seq<Pos>)
    requires Inv(g, c) && source in g.forest.board && InSet(g.forest.board, source)
    requires ParentChain(pm, rank, g.adj, source) && from in rank
    ensures PathBack(g, from, source, path)
    ensures from == source ==> path == [source]
  {
    path := WalkBack(pm, source, from, g.adj, rank);
    PathOpen(g, c, source, path);
    if from == source {
      SingleWalk(source, path);
    }
  }

  /** The breadth-first search from the percolating square and the two walks
      back along its parent map. */
  method Trace(g: Grid, c: nat, source: Pos, ghost t: Pos, ghost u: Pos)
    returns (top: Pos, bottom: Pos, topPath: seq<Pos>, bottomPath: seq<Pos>)
    requires Inv(g, c) && g.n >= 1 && source in g.forest.board && InSet(g.forest.board, source)
    requires t.row == 0 && u.row == g.n - 1 && Reachable(g.adj, source, t) && Reachable(g.adj, source, u)
    ensures top.row == 0 && bottom.row == g.n - 1
    ensures PathBack(g, top, source, topPath) && PathBack(g, bottom, source, bottomPath)
    ensures g.n == 1 ==> top == bottom == source && topPath == bottomPath == [source]
  {
    SearchReady(g, c, source);
    var pm, tp, bt, rank := Bfs(g.adj, g.n, source, t, u);
    top, bottom := tp.value, bt.value;
    topPath := PathTo(g, c, pm, source, top, rank);
    bottomPath := PathTo(g, c, pm, source, bottom, rank);
  }

  /** The search may start from an open square: its adjacency list exists,
      every listed neighbour has one, and in a 1-by-1 grid it is on row 0. */
  lemma SearchReady(g: Grid, c: nat, source: Pos)
    requires Inv(g, c) && g.n >= 1 && source in g.forest.board && InSet(g.forest.board, source)
    ensures source in g.adj && EdgesInside(g.adj)
    ensures g.n == 1 ==> source.row == 0
  {
  }

  /** The end of `main`, once the grid percolates: the two squares found,
      their walks back to the source, and the board with the source and both
      walks marked visited. */
  ghost predicate Marked(o: Outcome)
    requires o.Percolated?
  {
    && o.top.row == 0 && o.bottom.row == o.reached.n - 1
    && PathBack(o.reached, o.top, o.source, o.topPath) && PathBack(o.reached, o.bottom, o.source, o.bottomPath)
    && (o.reached.n == 1 ==> o.top == o.bottom == o.source && o.topPath == o.bottomPath == [o.source])
    && o.grid == o.reached.(forest := o.reached.forest.(board :=
                   MarkVisited(o.reached.forest.board, [o.source] + o.topPath + o.bottomPath)))
  }

  /** percolation.py:204-214: mark the source visited, search from it, and mark the
      walks back from the two squares found. */
  method SearchAndMark(g: Grid, c: nat, used: nat, source: Pos, ghost t: Pos, ghost u: Pos) returns (o: Outcome)
    requires Inv(g, c) && g.n >= 1 && source in g.forest.board && InSet(g.forest.board, source)
    requires t.row == 0 && u.row == g.n - 1 && Reachable(g.adj, source, t) && Reachable(g.adj, source, u)
    ensures o.Percolated? && o.reached == g && o.count == c && o.used == used && o.source == source
    ensures Marked(o)
  {
    var top, bottom, topPath, bottomPath := Trace(g, c, source, t, u);
    var marked := MarkVisited(g.forest.board, [source] + topPath + bottomPath);
    o := Percolated(g, g.(forest := g.forest.(board := marked)), c, used, source, top, bottom, topPath, bottomPath);
  }

  /** The draw that made the grid percolate found its square closed, and
      from that square a row-0 square `t` and a row-(n-1) square `u` are
      reachable. */
  lemma PercolatingDraw(n: nat, draws: seq<Pos>, k: nat) returns (t: Pos, u: Pos)
    requires n >= 1 && AllInGrid(n, draws) && 1 <= k <= |draws|
    requires NoEarlierPercolation(n, draws, k) && AllInGrid(n, draws[..k]) && Percolates(Replay(n, draws[..k]).grid)
    ensures AllInGrid(n, draws[..k - 1])
    ensures Replay(n, draws[..k - 1]).grid.forest.board[draws[k - 1]].status == Closed
    ensures var g := Replay(n, draws[..k]).grid;
            && InSet(g.forest.board, draws[k - 1])
            && t.row == 0 && u.row == n - 1 && Reachable(g.adj, draws[k - 1], t) && Reachable(g.adj, draws[k - 1], u)
  {
    LastDraw(n, draws, k);
    var before := Replay(n, draws[..k - 1]);
    FirstPercolation(before.grid, before.count, draws[k - 1]);
    var g := Replay(n, draws[..k]).grid;
    t, u :| t.row == 0 && u.row == n - 1 && Reachable(g.adj, draws[k - 1], t) && Reachable(g.adj, draws[k - 1], u);
  }

  /** The grid before the last of `k` draws satisfies the loop invariant,
      does not percolate, and one step on the last draw gives the grid
      after all `k`. */
  lemma LastDraw(n: nat, draws: seq<Pos>, k: nat)
    requires AllInGrid(n, draws) && 1 <= k <= |draws| && NoEarlierPercolation(n, draws, k)
    ensures AllInGrid(n, draws[..k - 1]) && AllInGrid(n, draws[..k])
    ensures var before := Replay(n, draws[..k - 1]);
            && Inv(before.grid, before.count) && !Percolates(before.grid)
            && Replay(n, draws[..k]).grid == Step(before.grid, draws[k - 1])
  {
    ReplayNext(n, draws, k - 1);
    assert draws[..k - 1 + 1] == draws[..k];
    ReplayInv(n, draws[..k - 1]);
  }

  /** How the run of draws ended once the grid percolated: after `used`
      draws, the last of which opened `source`, with no shorter prefix of
      the draws percolating and the counter equal to the number of open
      squares. */
  ghost predicate PercolatedAfter(n: nat, draws: seq<Pos>, o: Outcome)
    requires AllInGrid(n, draws) && o.Percolated?
  {
    && 1 <= o.used <= |draws| && AllInGrid(n, draws[..o.used]) && AllInGrid(n, draws[..o.used - 1])
    && o.source == draws[o.used - 1] && InGrid(n, o.source)
    && Replay(n, draws[..o.used]) == Progress(o.reached, o.count)
    && Percolates(o.reached) && o.count == |InSetCells(o.reached.forest.board)|
    && Replay(n, draws[..o.used - 1]).grid.forest.board[o.source].status == Closed
    && NoEarlierPercolation(n, draws, o.used)
  }

  /** `main(n)` with the draws given: open squares until the grid
      percolates, then search from the last opened square and mark the
      source and the two paths visited. When the draws run out first, no
      prefix of them made the grid percolate. */
  method Simulate(n: nat, draws: seq<Pos>) returns (o: Outcome)
    requires n >= 1 && AllInGrid(n, draws)
    ensures o.Exhausted? ==>
              && Replay(n, draws) == Progress(o.grid, o.count)
              && o.count == |InSetCells(o.grid.forest.board)|
              && NoEarlierPercolation(n, draws, |draws| + 1)
    ensures o.Percolated? ==> PercolatedAfter(n, draws, o) && Marked(o)
  {
    var s, k, percolated := OpenUntilPercolation(n, draws);
    if !percolated {
      ExhaustedRun(n, draws, s);
      return Exhausted(s.grid, s.count);
    }
    ghost var t, u := SpanningRun(n, draws, k, s);
    o := SearchAndMark(s.grid, s.count, k, draws[k - 1], t, u);
    PercolatedRun(n, draws, k, s, o);
  }

  /** When the draws run out, the loop has replayed all of them and none of
      their prefixes percolated. */
  lemma ExhaustedRun(n: nat, draws: seq<Pos>, s: Progress)
    requires AllInGrid(n, draws) && Looping(n, draws, |draws|, s, false)
    ensures Replay(n, draws) == s && s.count == |InSetCells(s.grid.forest.board)|
    ensures NoEarlierPercolation(n, draws, |draws| + 1)
  {
    assert draws[..|draws|] == draws;
    ReplayInv(n, draws);
    NoEarlierNext(n, draws, |draws|);
  }

  /** When the loop stops on a percolating grid, the last draw opened a
      square of the spanning set, from which rows 0 and n-1 are reachable. */
  lemma SpanningRun(n: nat, draws: seq<Pos>, k: nat, s: Progress) returns (t: Pos, u: Pos)
    requires n >= 1 && AllInGrid(n, draws) && Looping(n, draws, k, s, true)
    ensures 1 <= k <= |draws| && Inv(s.grid, s.count) && s.grid.n == n
    ensures draws[k - 1] in s.grid.forest.board && InSet(s.grid.forest.board, draws[k - 1])
    ensures t.row == 0 && u.row == n - 1 && Reachable(s.grid.adj, draws[k - 1], t) && Reachable(s.grid.adj, draws[k - 1], u)
  {
    ReplayInv(n, draws[..k]);
    t, u := PercolatingDraw(n, draws, k);
  }

  /** The outcome built from a percolating loop reports that run. */
  lemma PercolatedRun(n: nat, draws: seq<Pos>, k: nat, s: Progress, o: Outcome)
    requires n >= 1 && AllInGrid(n, draws) && Looping(n, draws, k, s, true)
    requires o.Percolated? && o.reached == s.grid && o.count == s.count && o.used == k && o.source == draws[k - 1]
    ensures PercolatedAfter(n, draws, o)
  {
    assert s == Replay(n, draws[..k]) == Progress(o.reached, o.count);
    ReplayInv(n, draws[..k]);
    assert o.count == |InSetCells(o.reached.forest.board)|;
    var _, _ := PercolatingDraw(n, draws, k);
  }
}
