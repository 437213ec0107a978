/** What one iteration of the driver loop preserves: the union-find
    invariants, an adjacency list that is exactly the graph of open grid
    neighbours, and agreement between "same set" and reachability. */
module Steps {
  import opened Cells
  import opened UnionFind
  import opened Paths
  import opened Grids

  /** The empty grid satisfies the loop invariant with no square opened. */
  lemma InitInv(n: nat)
    ensures Inv(Init(n), 0)
  {
    var g := Init(n);
    var b := g.forest.board;
    assert InSetCells(b) == {};
    forall x | x in b
      ensures ShapedAt(b, x)
    {
    }
  }

  // ---------------------------------------------------------------------
  // same set versus reachability

  /** The squares of the set whose root is `r` are closed under the
      adjacency edges. */
  lemma ComponentClosed(g: Grid, r: Pos)
    requires Linked(g)
    ensures ClosedUnder(g.adj, set w | w in g.forest.board && InSet(g.forest.board, w) && Root(g.forest.board, w) == r)
  {
    var b := g.forest.board;
    var s := set w | w in b && InSet(b, w) && Root(b, w) == r;
    forall u, v | u in s && u in g.adj && v in g.adj[u]
      ensures v in s
    {
      assert v in b && InSet(b, v);
      assert SameSet(b, u, v);
    }
  }

  lemma SameSetIffReachableAt(g: Grid, u: Pos, v: Pos)
    requires Linked(g) && u in g.forest.board && v in g.forest.board
    ensures SameSet(g.forest.board, u, v) <==> InSet(g.forest.board, u) && Reachable(g.adj, u, v)
  {
    if SameSet(g.forest.board, u, v) {
      SameSetReaches(g, u, v);
    }
    if InSet(g.forest.board, u) && Reachable(g.adj, u, v) {
      ReachesSameSet(g, u, v);
    }
  }

  /** Two squares of one set reach each other through their root. */
  lemma SameSetReaches(g: Grid, u: Pos, v: Pos)
    requires Linked(g) && u in g.forest.board && v in g.forest.board && SameSet(g.forest.board, u, v)
    ensures Reachable(g.adj, u, v)
  {
    var b := g.forest.board;
    var r := Root(b, u);
    assert Root(b, v) == r;
    assert Reachable(g.adj, u, r);
    assert Reachable(g.adj, v, r);
    ReachableSym(g.adj, v, r);
    ReachableTrans(g.adj, u, r, v);
  }

  /** A set is closed under the edges, so whatever a member reaches is in
      its set. */
  lemma ReachesSameSet(g: Grid, u: Pos, v: Pos)
    requires Linked(g) && u in g.forest.board && v in g.forest.board
    requires InSet(g.forest.board, u) && Reachable(g.adj, u, v)
    ensures SameSet(g.forest.board, u, v)
  {
    var b := g.forest.board;
    var r := Root(b, u);
    var s := set w | w in b && InSet(b, w) && Root(b, w) == r;
    ComponentClosed(g, r);
    ClosedContainsReachable(g.adj, s, u, v);
  }

  /** Two squares are in the same set exactly when the second is reachable
      from the first along the adjacency lists and the first is open. */
  lemma SameSetIffReachable(g: Grid)
    requires Linked(g)
    ensures forall u, v | u in g.forest.board && v in g.forest.board ::
              SameSet(g.forest.board, u, v) <==> InSet(g.forest.board, u) && Reachable(g.adj, u, v)
  {
    forall u, v | u in g.forest.board && v in g.forest.board
      ensures SameSet(g.forest.board, u, v) <==> InSet(g.forest.board, u) && Reachable(g.adj, u, v)
    {
      SameSetIffReachableAt(g, u, v);
    }
  }

  /** A grid whose squares are all open percolates: column 0 is a walk from
      row 0 to row n-1 along the adjacency lists. */
  lemma FullGridPercolates(g: Grid, c: nat)
    requires Inv(g, c) && g.n >= 1
    requires forall p | p in g.forest.board :: g.forest.board[p].status == Open
    ensures Percolates(g)
  {
    var b := g.forest.board;
    var column := seq(g.n, i requires 0 <= i < g.n => Pos(i, 0));
    forall i | 0 <= i < g.n - 1
      ensures column[i + 1] in g.adj[column[i]]
    {
      var u, v := column[i], column[i + 1];
      assert InGrid(g.n, u) && InGrid(g.n, v) && Adjacent(u, v);
      assert InSet(b, u) && InSet(b, v);
    }
    assert IsWalk(g.adj, column);
    var top, bottom := Pos(0, 0), Pos(g.n - 1, 0);
    assert InGrid(g.n, top) && InGrid(g.n, bottom);
    assert column[0] == top && column[g.n - 1] == bottom;
    SameSetIffReachableAt(g, top, bottom);
    assert SameSet(b, top, bottom);
  }

  /** Under the loop invariant the adjacency lists hold exactly the pairs of
      open grid neighbours. */
  lemma AdjExact(g: Grid, c: nat)
    requires Inv(g, c)
    ensures forall u, v {:trigger v in g.adj[u]} {:trigger Adjacent(u, v)} | u in g.forest.board && v in g.forest.board ::
              v in g.adj[u] <==> InSet(g.forest.board, u) && InSet(g.forest.board, v) && Adjacent(u, v)
  {
  }

  // ---------------------------------------------------------------------
  // one pass of the linking loop

  lemma LinkOneForest(g: Grid, x: Pos, nb: Pos)
    requires Linked(g) && x in g.forest.board && nb in g.forest.board
    requires InSet(g.forest.board, x) && InSet(g.forest.board, nb)
    ensures Valid(LinkOne(g, x, nb).forest)
    ensures InSetCells(LinkOne(g, x, nb).forest.board) == InSetCells(g.forest.board)
  {
    assert LinkOne(g, x, nb).forest == Union(g.forest, x, nb);
    UnionValid(g.forest, x, nb);
  }

  /** A pass of the linking loop only merges sets, and it puts `x` and `nb`
      together. */
  lemma LinkOneJoins(g: Grid, x: Pos, nb: Pos)
    requires Structured(g.forest) && x in g.forest.board && nb in g.forest.board && x in g.adj && nb in g.adj
    requires InSet(g.forest.board, x) && InSet(g.forest.board, nb)
    ensures forall a, c | a in g.forest.board && c in g.forest.board && SameSet(g.forest.board, a, c) ::
              SameSet(LinkOne(g, x, nb).forest.board, a, c)
    ensures SameSet(LinkOne(g, x, nb).forest.board, x, nb)
  {
    var f := g.forest;
    assert LinkOne(g, x, nb).forest == Union(f, x, nb);
    forall a, c | a in f.board && c in f.board && SameSet(f.board, a, c)
      ensures SameSet(Union(f, x, nb).board, a, c)
    {
      UnionSameSet(f, x, nb, a, c);
    }
    UnionSameSet(f, x, nb, x, nb);
  }

  /** After a pass every square in a set still reaches its root. */
  lemma LinkOneRoots(g: Grid, x: Pos, nb: Pos)
    requires Linked(g) && x in g.forest.board && nb in g.forest.board
    requires InSet(g.forest.board, x) && InSet(g.forest.board, nb)
    ensures Shaped(LinkOne(g, x, nb).forest.board)
    ensures RootsReachable(LinkOne(g, x, nb))
  {
    var f := g.forest;
    var b := f.board;
    var r := LinkOne(g, x, nb);
    var b2 := r.forest.board;
    var adj := g.adj;
    var adj2 := r.adj;
    assert r.forest == Union(f, x, nb) && adj2 == AddEdge(adj, x, nb);
    assert SubGraph(adj, adj2);
    UnionSpec(f, x, nb);
    var rx := Root(b, x);
    var ry := Root(b, nb);
    var w := Winner(b, rx, ry);
    var l := if w == rx then ry else rx;
    if rx != ry {
      // the two old roots reach each other through the new edge
      ReachableSym(adj, x, rx);
      ReachableMono(adj, adj2, rx, x);
      ReachableMono(adj, adj2, x, rx);
      ReachableMono(adj, adj2, nb, ry);
      ReachableSym(adj, nb, ry);
      ReachableMono(adj, adj2, ry, nb);
      ReachableEdge(adj2, x, nb);
      ReachableEdge(adj2, nb, x);
      ReachableTrans(adj2, rx, x, nb);
      ReachableTrans(adj2, rx, nb, ry);
      ReachableTrans(adj2, ry, nb, x);
      ReachableTrans(adj2, ry, x, rx);
      assert Reachable(adj2, l, w);
    }
    forall u | u in b2 && InSet(b2, u)
      ensures Reachable(adj2, u, Root(b2, u))
    {
      assert InSet(b, u);
      ReachableMono(adj, adj2, u, Root(b, u));
      if rx != ry && Root(b, u) == l {
        ReachableTrans(adj2, u, l, w);
      }
    }
  }

  /** After a pass every adjacency edge still joins two squares of one set. */
  lemma LinkOneEdges(g: Grid, x: Pos, nb: Pos)
    requires Linked(g) && x in g.forest.board && nb in g.forest.board
    requires InSet(g.forest.board, x) && InSet(g.forest.board, nb)
    ensures Shaped(LinkOne(g, x, nb).forest.board)
    ensures EdgesJoinSets(LinkOne(g, x, nb))
  {
    var b := g.forest.board;
    var r := LinkOne(g, x, nb);
    var b2 := r.forest.board;
    assert r.adj == AddEdge(g.adj, x, nb);
    LinkOneJoins(g, x, nb);
    forall u, v | u in r.adj && v in r.adj[u] && u in b2 && v in b2
      ensures SameSet(b2, u, v)
    {
      if v in g.adj[u] {
        assert SameSet(b, u, v);
      }
    }
  }

  /** A pass keeps the shape of the grid and leaves no square visited. */
  lemma LinkOneShape(g: Grid, x: Pos, nb: Pos)
    requires WellFormed(g) && NoVisited(g) && Structured(g.forest)
    requires x in g.forest.board && nb in g.forest.board
    requires InSet(g.forest.board, x) && InSet(g.forest.board, nb)
    ensures WellFormed(LinkOne(g, x, nb)) && NoVisited(LinkOne(g, x, nb))
  {
  }

  /** After a pass the adjacency lists still join grid neighbours in sets,
      at both ends. */
  lemma LinkOneSound(g: Grid, x: Pos, nb: Pos)
    requires AdjSound(g) && Symmetric(g.adj) && Structured(g.forest)
    requires x in g.forest.board && nb in g.forest.board && x in g.adj && nb in g.adj
    requires InSet(g.forest.board, x) && InSet(g.forest.board, nb) && Adjacent(x, nb)
    ensures AdjSound(LinkOne(g, x, nb)) && Symmetric(LinkOne(g, x, nb).adj)
  {
    var r := LinkOne(g, x, nb);
    var b := g.forest.board;
    var b2 := r.forest.board;
    assert r.adj == AddEdge(g.adj, x, nb);
    forall u, v | u in r.adj && v in r.adj[u]
      ensures u in b2 && v in b2 && Adjacent(u, v) && InSet(b2, u) && InSet(b2, v)
      ensures v in r.adj && u in r.adj[v]
    {
      if v !in g.adj[u] {
        assert (u == nb && v == x) || (u == x && v == nb);
      }
      assert b2[u].status == b[u].status && b2[v].status == b[v].status;
    }
  }

  /** One pass of the linking loop keeps the linking invariant, keeps the
      squares in sets, and only merges sets. */
  lemma LinkOneKeeps(g: Grid, x: Pos, nb: Pos)
    requires Linked(g) && x in g.forest.board && nb in g.forest.board
    requires InSet(g.forest.board, x) && InSet(g.forest.board, nb) && Adjacent(x, nb)
    ensures Linked(LinkOne(g, x, nb))
    ensures InSetCells(LinkOne(g, x, nb).forest.board) == InSetCells(g.forest.board)
    ensures forall a, c | a in g.forest.board && c in g.forest.board && SameSet(g.forest.board, a, c) ::
              SameSet(LinkOne(g, x, nb).forest.board, a, c)
  {
    LinkOneForest(g, x, nb);
    LinkOneJoins(g, x, nb);
    LinkOneRoots(g, x, nb);
    LinkOneEdges(g, x, nb);
    LinkOneShape(g, x, nb);
    LinkOneSound(g, x, nb);
  }

  /** The whole linking loop keeps the linking invariant and the squares in
      sets, and only merges sets. */
  lemma {:induction false} LinkKeeps(g: Grid, x: Pos, nbs: seq<Pos>)
    requires Linked(g) && x in g.forest.board && InSet(g.forest.board, x)
    requires forall nb | nb in nbs :: nb in g.forest.board && InSet(g.forest.board, nb) && Adjacent(x, nb)
    ensures Linked(Link(g, x, nbs))
    ensures InSetCells(Link(g, x, nbs).forest.board) == InSetCells(g.forest.board)
    decreases |nbs|
  {
    if nbs != [] {
      var g1 := LinkOne(g, x, nbs[0]);
      LinkOneKeeps(g, x, nbs[0]);
      LinkTail(g, g1, nbs);
      assert forall nb | nb in nbs[1..] :: nb in nbs;
      LinkKeeps(g1, x, nbs[1..]);
      assert Link(g, x, nbs) == Link(g1, x, nbs[1..]);
    }
  }

  /** Linking never splits a set. */
  lemma {:induction false} LinkKeepsSets(g: Grid, x: Pos, nbs: seq<Pos>)
    requires Structured(g.forest) && x in g.forest.board && x in g.adj && InSet(g.forest.board, x)
    requires forall nb | nb in nbs :: nb in g.forest.board && nb in g.adj && InSet(g.forest.board, nb)
    ensures forall a, c | a in g.forest.board && c in g.forest.board && SameSet(g.forest.board, a, c) ::
              SameSet(Link(g, x, nbs).forest.board, a, c)
    decreases |nbs|
  {
    if nbs != [] {
      var g1 := LinkOne(g, x, nbs[0]);
      LinkOneJoins(g, x, nbs[0]);
      LinkTail(g, g1, nbs);
      LinkKeepsSets(g1, x, nbs[1..]);
      var r := Link(g, x, nbs);
      assert r == Link(g1, x, nbs[1..]);
      forall a, c | a in g.forest.board && c in g.forest.board && SameSet(g.forest.board, a, c)
        ensures SameSet(r.forest.board, a, c)
      {
        assert SameSet(g1.forest.board, a, c);
      }
    }
  }

  /** The linking loop adds exactly the edges between `x` and the listed
      neighbours, in both directions. */
  lemma {:induction false} LinkAdj(g: Grid, x: Pos, nbs: seq<Pos>)
    requires Structured(g.forest) && x in g.forest.board && x in g.adj && InSet(g.forest.board, x)
    requires forall nb | nb in nbs :: nb in g.forest.board && nb in g.adj && InSet(g.forest.board, nb)
    ensures forall u, v {:trigger v in Link(g, x, nbs).adj[u]} {:trigger v in g.adj[u]} | u in g.adj ::
              v in Link(g, x, nbs).adj[u] <==> v in g.adj[u] || (u == x && v in nbs) || (v == x && u in nbs)
    decreases |nbs|
  {
    if nbs != [] {
      var g1 := LinkOne(g, x, nbs[0]);
      assert g1.adj == AddEdge(g.adj, x, nbs[0]);
      LinkAdj(g1, x, nbs[1..]);
      var r := Link(g, x, nbs);
      assert r == Link(g1, x, nbs[1..]);
      forall u, v {:trigger v in r.adj[u]} {:trigger v in g.adj[u]} | u in g.adj
        ensures v in r.adj[u] <==> v in g.adj[u] || (u == x && v in nbs) || (v == x && u in nbs)
      {
        assert v in nbs <==> v == nbs[0] || v in nbs[1..];
        assert u in nbs <==> u == nbs[0] || u in nbs[1..];
      }
    }
  }

  /** No list gets a duplicate: `x` is appended once to each neighbour's list
      and a neighbour is appended to `x`'s list only when absent. */
  lemma {:induction false} LinkNoDup(g: Grid, x: Pos, nbs: seq<Pos>)
    requires Structured(g.forest) && x in g.forest.board && x in g.adj && InSet(g.forest.board, x)
    requires forall nb | nb in nbs :: nb in g.forest.board && nb in g.adj && InSet(g.forest.board, nb)
    requires AdjNoDup(g) && NoDup(nbs) && x !in nbs
    requires forall nb | nb in nbs :: x !in g.adj[nb]
    ensures AdjNoDup(Link(g, x, nbs))
    decreases |nbs|
  {
    if nbs != [] {
      var g1 := LinkOne(g, x, nbs[0]);
      assert g1.adj == AddEdge(g.adj, x, nbs[0]);
      assert forall nb | nb in nbs[1..] :: nb != nbs[0] && g1.adj[nb] == g.adj[nb];
      LinkNoDup(g1, x, nbs[1..]);
      assert Link(g, x, nbs) == Link(g1, x, nbs[1..]);
    }
  }

  // ---------------------------------------------------------------------
  // the open step

  /** No adjacency entry mentions a closed square. */
  lemma ClosedUnlisted(g: Grid, p: Pos)
    requires AdjSound(g) && p in g.forest.board && g.forest.board[p].status == Closed
    ensures forall u, v {:trigger v in g.adj[u]} | u in g.adj && v in g.adj[u] :: u != p && v != p
  {
  }

  /** Opening a closed square leaves every other square's root alone. */
  lemma OpenedSameSet(g: Grid, p: Pos)
    requires Linked(g) && p in g.forest.board && g.forest.board[p].status == Closed
    ensures Shaped(Opened(g.forest, p).board)
    ensures forall a, c | a in g.forest.board && c in g.forest.board && a != p && c != p ::
              SameSet(Opened(g.forest, p).board, a, c) == SameSet(g.forest.board, a, c)
  {
    OpenedValid(g.forest, p);
  }

  lemma OpenedReach(g: Grid, p: Pos)
    requires Linked(g) && p in g.forest.board && g.forest.board[p].status == Closed
    ensures Shaped(Opened(g.forest, p).board)
    ensures RootsReachable(g.(forest := Opened(g.forest, p)))
  {
    var b := g.forest.board;
    var g1 := g.(forest := Opened(g.forest, p));
    var b2 := g1.forest.board;
    OpenedRoots(g.forest, p);
    forall u | u in b2 && InSet(b2, u)
      ensures Reachable(g1.adj, u, Root(b2, u))
    {
      if u == p {
        ReachableRefl(g1.adj, p);
      } else {
        assert InSet(b, u);
        assert Reachable(g.adj, u, Root(b, u));
      }
    }
  }

  lemma OpenedJoins(g: Grid, p: Pos)
    requires Linked(g) && p in g.forest.board && g.forest.board[p].status == Closed
    ensures Shaped(Opened(g.forest, p).board)
    ensures EdgesJoinSets(g.(forest := Opened(g.forest, p)))
  {
    var b := g.forest.board;
    var g1 := g.(forest := Opened(g.forest, p));
    var b2 := g1.forest.board;
    ClosedUnlisted(g, p);
    OpenedSameSet(g, p);
    forall u, v | u in g1.adj && v in g1.adj[u] && u in b2 && v in b2
      ensures SameSet(b2, u, v)
    {
      assert SameSet(b, u, v);
    }
  }

  /** Opening a closed square and making it a singleton set keeps the
      linking invariant and adds the square to the squares in sets. */
  lemma OpenedLinked(g: Grid, p: Pos)
    requires Linked(g) && p in g.forest.board && g.forest.board[p].status == Closed
    ensures Linked(g.(forest := Opened(g.forest, p)))
    ensures InSetCells(Opened(g.forest, p).board) == InSetCells(g.forest.board) + {p}
  {
    OpenedValid(g.forest, p);
    OpenedReach(g, p);
    OpenedJoins(g, p);
    OpenedSound(g, p);
  }

  /** Opening a closed square keeps the shape of the grid, leaves no square
      visited, and keeps the adjacency lists sound: none of them lists the
      square being opened. */
  lemma OpenedSound(g: Grid, p: Pos)
    requires WellFormed(g) && NoVisited(g) && AdjSound(g) && Structured(g.forest)
    requires p in g.forest.board && g.forest.board[p].status == Closed
    ensures var g1 := g.(forest := Opened(g.forest, p));
            WellFormed(g1) && NoVisited(g1) && AdjSound(g1)
  {
    var b := g.forest.board;
    var g1 := g.(forest := Opened(g.forest, p));
    var b2 := g1.forest.board;
    assert forall z | z in b && z != p :: b2[z].status == b[z].status;
    ClosedUnlisted(g, p);
  }

  /** The squares the open step links to are exactly the open grid
      neighbours of `p`, none listed twice, none yet holding `p` in its list. */
  lemma NeighborsOpen(g: Grid, p: Pos)
    requires WellFormed(g) && NoVisited(g) && AdjSound(g) && InGrid(g.n, p) && g.forest.board[p].status == Closed
    ensures var g1 := g.(forest := Opened(g.forest, p));
            var nbs := OpenNeighbors(g1, p);
            && NoDup(nbs) && p !in nbs
            && (forall nb | nb in nbs ::
                  nb in g1.forest.board && nb in g1.adj && InSet(g1.forest.board, nb) && Adjacent(p, nb)
                  && p !in g1.adj[nb])
            && (forall v {:trigger Adjacent(p, v)} | v in g1.forest.board && InSet(g1.forest.board, v) && Adjacent(p, v) ::
                  v in nbs)
  {
    var g1 := g.(forest := Opened(g.forest, p));
    var b := g.forest.board;
    var b1 := g1.forest.board;
    ClosedUnlisted(g, p);
    assert forall z | z in b && z != p :: b1[z].status == b[z].status;
  }

  /** The open step on a closed square: open it, then link it. */
  lemma StepUnfold(g: Grid, p: Pos)
    requires Linked(g) && InGrid(g.n, p) && g.forest.board[p].status == Closed
    ensures Structured(Opened(g.forest, p))
    ensures var g1 := g.(forest := Opened(g.forest, p));
            Step(g, p) == Link(g1, p, OpenNeighbors(g1, p))
  {
    OpenedStructured(g.forest, p);
  }

  /** The open step on a closed square keeps the linking invariant and adds
      the square to the squares in sets. */
  lemma StepLinked(g: Grid, p: Pos)
    requires Linked(g) && InGrid(g.n, p) && g.forest.board[p].status == Closed
    ensures Linked(Step(g, p))
    ensures InSetCells(Step(g, p).forest.board) == InSetCells(g.forest.board) + {p}
  {
    var g1 := g.(forest := Opened(g.forest, p));
    OpenedLinked(g, p);
    NeighborsOpen(g, p);
    StepUnfold(g, p);
    LinkKeeps(g1, p, OpenNeighbors(g1, p));
  }

  /** The open step keeps every existing set. */
  lemma StepKeepsSets(g: Grid, p: Pos)
    requires Linked(g) && InGrid(g.n, p) && g.forest.board[p].status == Closed
    ensures forall a, c | a in g.forest.board && c in g.forest.board && SameSet(g.forest.board, a, c) ::
              SameSet(Step(g, p).forest.board, a, c)
  {
    var b := g.forest.board;
    var g1 := g.(forest := Opened(g.forest, p));
    OpenedSameSet(g, p);
    NeighborsOpen(g, p);
    StepUnfold(g, p);
    LinkKeepsSets(g1, p, OpenNeighbors(g1, p));
    var b2 := Step(g, p).forest.board;
    forall a, c | a in b && c in b && SameSet(b, a, c)
      ensures SameSet(b2, a, c)
    {
      assert a != p && c != p;
      assert SameSet(g1.forest.board, a, c);
    }
  }

  /** The open step on a closed square adds exactly the edges between the
      square and its open neighbours, in both directions. */
  lemma StepAdj(g: Grid, p: Pos)
    requires WellFormed(g) && Structured(g.forest) && NoVisited(g) && AdjSound(g)
    requires InGrid(g.n, p) && g.forest.board[p].status == Closed
    ensures Structured(Opened(g.forest, p))
    ensures var g1 := g.(forest := Opened(g.forest, p));
            var nbs := OpenNeighbors(g1, p);
            forall u, v {:trigger v in Step(g, p).adj[u]} {:trigger v in g.adj[u]} | u in g.adj ::
              v in Step(g, p).adj[u] <==> v in g.adj[u] || (u == p && v in nbs) || (v == p && u in nbs)
  {
    var g1 := g.(forest := Opened(g.forest, p));
    OpenedStructured(g.forest, p);
    NeighborsOpen(g, p);
    LinkAdj(g1, p, OpenNeighbors(g1, p));
  }

  /** After the open step no adjacency list holds a square twice. */
  lemma StepNoDup(g: Grid, p: Pos)
    requires WellFormed(g) && Structured(g.forest) && NoVisited(g) && AdjSound(g) && AdjNoDup(g)
    requires InGrid(g.n, p) && g.forest.board[p].status == Closed
    ensures AdjNoDup(Step(g, p))
  {
    var g1 := g.(forest := Opened(g.forest, p));
    OpenedStructured(g.forest, p);
    NeighborsOpen(g, p);
    LinkNoDup(g1, p, OpenNeighbors(g1, p));
  }

  /** Completeness survives adding every edge between `p` and the listed
      neighbours, when those are all of `p`'s open grid neighbours. */
  lemma CompleteAfterLink(g: Grid, r: Grid, p: Pos, nbs: seq<Pos>)
    requires WellFormed(g) && WellFormed(r) && AdjComplete(g) && r.forest.board.Keys == g.forest.board.Keys
    requires p in g.forest.board
    requires forall z | z in g.forest.board && z != p ::
               InSet(r.forest.board, z) == InSet(g.forest.board, z)
    requires forall v {:trigger Adjacent(p, v)} | v in r.forest.board && InSet(r.forest.board, v) && Adjacent(p, v) ::
               v in nbs
    requires forall u, v {:trigger v in r.adj[u]} {:trigger v in g.adj[u]} | u in g.adj ::
               v in r.adj[u] <==> v in g.adj[u] || (u == p && v in nbs) || (v == p && u in nbs)
    ensures AdjComplete(r)
  {
    var b := g.forest.board;
    var b2 := r.forest.board;
    forall u, v | u in b2 && v in b2 && InSet(b2, u) && InSet(b2, v) && Adjacent(u, v)
      ensures v in r.adj[u]
    {
      if u != p && v != p {
        assert v in g.adj[u];
      } else if u == p {
        assert v in nbs;
      } else {
        assert Adjacent(p, u);
        assert u in nbs;
      }
    }
  }

  /** After the open step every pair of open grid neighbours is listed. */
  lemma StepComplete(g: Grid, p: Pos)
    requires WellFormed(g) && Structured(g.forest) && NoVisited(g) && AdjSound(g) && AdjComplete(g)
    requires InGrid(g.n, p) && g.forest.board[p].status == Closed
    ensures WellFormed(Step(g, p)) && AdjComplete(Step(g, p))
  {
    var b := g.forest.board;
    var g1 := g.(forest := Opened(g.forest, p));
    var nbs := OpenNeighbors(g1, p);
    var r := Step(g, p);
    var b2 := r.forest.board;
    NeighborsOpen(g, p);
    StepAdj(g, p);
    assert forall z | z in b && z != p :: b2[z].status == b[z].status;
    CompleteAfterLink(g, r, p, nbs);
  }

  /** The open step keeps the loop invariant; the count of opened squares
      grows by one exactly when the drawn square was closed. */
  lemma StepInv(g: Grid, c: nat, p: Pos)
    requires Inv(g, c) && InGrid(g.n, p)
    ensures Inv(Step(g, p), if g.forest.board[p].status == Closed then c + 1 else c)
  {
    var b := g.forest.board;
    if b[p].status == Closed {
      StepLinked(g, p);
      StepNoDup(g, p);
      StepComplete(g, p);
      assert p !in InSetCells(b);
      AddOneCard(InSetCells(b), p);
    } else {
      assert Step(g, p) == g;
    }
  }

  /** Two squares in the same set stay in the same set after a step. */
  lemma StepMonotone(g: Grid, c: nat, p: Pos)
    requires Inv(g, c) && InGrid(g.n, p)
    ensures forall a, u | a in g.forest.board && u in g.forest.board && SameSet(g.forest.board, a, u) ::
              SameSet(Step(g, p).forest.board, a, u)
  {
    if g.forest.board[p].status == Closed {
      StepKeepsSets(g, p);
    }
  }

  // ---------------------------------------------------------------------
  // the step that makes the grid percolate

  /** An edge of the new adjacency lists that does not touch `p` was already
      there before the step. */
  lemma StepOldEdges(g: Grid, p: Pos)
    requires WellFormed(g) && Structured(g.forest) && NoVisited(g) && AdjSound(g)
    requires InGrid(g.n, p) && g.forest.board[p].status == Closed
    ensures forall a | a in Step(g, p).adj && a != p :: a in g.adj
    ensures forall a, d {:trigger d in Step(g, p).adj[a]} | a in Step(g, p).adj && a != p && d != p && d in Step(g, p).adj[a] ::
              d in g.adj[a]
  {
    StepAdj(g, p);
  }

  /** If two squares are joined by the step on `p` but were not joined
      before it, the first one reaches `p` afterwards. */
  lemma JoinedThroughOpened(g: Grid, c: nat, p: Pos, t: Pos, u: Pos)
    requires Inv(g, c) && InGrid(g.n, p) && g.forest.board[p].status == Closed
    requires t in g.forest.board && u in g.forest.board
    requires SameSet(Step(g, p).forest.board, t, u) && !SameSet(g.forest.board, t, u)
    ensures Reachable(Step(g, p).adj, t, p)
  {
    var r := Step(g, p);
    var b := g.forest.board;
    var b2 := r.forest.board;
    StepInv(g, c, p);
    StepUnfold(g, p);
    if t == p {
      ReachableRefl(r.adj, p);
    } else {
      SameSetIffReachableAt(r, t, u);
      StepOldEdges(g, p);
      ReachableAvoiding(g.adj, r.adj, p, t, u);
      if !Reachable(r.adj, t, p) {
        assert b2[t].status == b[t].status;
        SameSetIffReachableAt(g, t, u);
        assert false;
      }
    }
  }

  /** A pair first joined by the step on `p` is reachable from `p`. */
  lemma NewPairReached(g: Grid, c: nat, p: Pos, t: Pos, u: Pos)
    requires Inv(g, c) && InGrid(g.n, p) && g.forest.board[p].status == Closed
    requires t in g.forest.board && u in g.forest.board
    requires SameSet(Step(g, p).forest.board, t, u) && !SameSet(g.forest.board, t, u)
    ensures Reachable(Step(g, p).adj, p, t) && Reachable(Step(g, p).adj, p, u)
  {
    var r := Step(g, p);
    JoinedThroughOpened(g, c, p, t, u);
    assert SameSet(r.forest.board, u, t) && !SameSet(g.forest.board, u, t);
    JoinedThroughOpened(g, c, p, u, t);
    StepInv(g, c, p);
    ReachableSym(r.adj, t, p);
    ReachableSym(r.adj, u, p);
  }

  /** When the step on `p` is the one that makes the grid percolate, `p` was
      closed before it and, afterwards, reaches both a top-row square and a
      bottom-row square along the adjacency lists: the breadth-first search
      started from `p` has something to find at both ends. */
  lemma FirstPercolation(g: Grid, c: nat, p: Pos)
    requires Inv(g, c) && g.n >= 1 && InGrid(g.n, p)
    requires !Percolates(g) && Percolates(Step(g, p))
    ensures g.forest.board[p].status == Closed
    ensures exists t: Pos, u: Pos {:trigger Reachable(Step(g, p).adj, p, t), Reachable(Step(g, p).adj, p, u)} ::
              t.row == 0 && u.row == g.n - 1 &&
              Reachable(Step(g, p).adj, p, t) && Reachable(Step(g, p).adj, p, u)
  {
    var b := g.forest.board;
    if b[p].status != Closed {
      assert false;
    }
    var b2 := Step(g, p).forest.board;
    var t, u :| t in b2 && u in b2 && t.row == 0 && u.row == g.n - 1 && SameSet(b2, t, u);
    assert !SameSet(b, t, u);
    NewPairReached(g, c, p, t, u);
  }
}
