/** The breadth-first search from the square whose opening made the grid
    percolate (`bfs`), and the walk back along the parent map that marks the
    reported path. */
module Search {
  import opened Cells
  import opened Paths

  /** The neighbours in `s` that are not yet in `visited`, in list order:
      the squares one iteration of the search appends to its queue. */
  function Unvisited(s: seq<Pos>, visited: seq<Pos>): (r: seq<Pos>)
    ensures |r| <= |s|
    ensures forall w :: w in r <==> w in s && w !in visited
  {
    if s == [] then []
    else (if s[0] in visited then [] else [s[0]]) + Unvisited(s[1..], visited)
  }

  /** The number of queue entries whose square has already been taken off
      the queue once. */
  function Stale(q: seq<Pos>, done: set<Pos>): (k: nat)
    ensures k <= |q|
    ensures k == 0 <==> forall w | w in q :: w !in done
  {
    if q == [] then 0 else (if q[0] in done then 1 else 0) + Stale(q[1..], done)
  }

  lemma {:induction false} StaleAppend(a: seq<Pos>, b: seq<Pos>, done: set<Pos>)
    ensures Stale(a + b, done) == Stale(a, done) + Stale(b, done)
    decreases |a|
  {
    if a != [] {
      assert (a + b)[0] == a[0];
      assert (a + b)[1..] == a[1..] + b;
      StaleAppend(a[1..], b, done);
    } else {
      assert a + b == b;
    }
  }

  lemma FewerLeft(keys: set<Pos>, done: set<Pos>, x: Pos)
    requires x in keys && x !in done
    ensures |keys - (done + {x})| < |keys - done|
  {
    assert keys - done == (keys - (done + {x})) + {x};
  }

  /** What the parent map records about the squares taken off the queue
      (the keys of `rank`, which numbers them in order of first removal):
      the source has no parent; every other such square has one; a parent was
      removed before its child and lists the child in its adjacency list. */
  ghost predicate ParentsOrdered(pm: map<Pos, Pos>, rank: map<Pos, nat>, adj: Adjacency, source: Pos) {
    && source !in pm
    && (forall v | v in rank :: v == source || v in pm)
    && (forall v | v in pm ::
          && pm[v] in rank && pm[v] in adj && v in adj[pm[v]]
          && (v in rank ==> rank[pm[v]] < rank[v]))
  }

  /** The parent map at the end of the search: the source and every square
      in the chain have been removed from the queue. */
  ghost predicate ParentChain(pm: map<Pos, Pos>, rank: map<Pos, nat>, adj: Adjacency, source: Pos) {
    && source in rank
    && (forall v | v in rank :: v in adj)
    && ParentsOrdered(pm, rank, adj, source)
  }

  /** `visited` holds the source and the squares removed from the queue. */
  ghost predicate VisitedMatches(visited: seq<Pos>, source: Pos, rank: map<Pos, nat>) {
    forall v :: v in visited <==> v == source || v in rank
  }

  /** Before the first removal the queue holds just the source; after it the
      source has been removed. */
  ghost predicate StartShape(queue: seq<Pos>, pm: map<Pos, Pos>, rank: map<Pos, nat>, source: Pos) {
    && (rank == map[] ==> queue == [source] && pm == map[])
    && (rank != map[] ==> source in rank)
  }

  /** Every queued square is listed and is the source or has a parent. */
  ghost predicate QueueKnown(queue: seq<Pos>, adj: Adjacency, source: Pos, pm: map<Pos, Pos>) {
    forall i | 0 <= i < |queue| :: queue[i] in adj && (queue[i] == source || queue[i] in pm)
  }

  /** Every neighbour of a removed square has been removed or is queued. */
  ghost predicate Frontier(adj: Adjacency, rank: map<Pos, nat>, queue: seq<Pos>) {
    forall d, w {:trigger w in adj[d]} | d in rank && d in adj && w in adj[d] :: w in rank || w in queue
  }

  /** Removed squares are numbered below `next`, listed, and reachable from
      the source. */
  ghost predicate RanksBelow(adj: Adjacency, source: Pos, rank: map<Pos, nat>, next: nat) {
    forall v | v in rank :: rank[v] < next && v in adj && Reachable(adj, source, v)
  }

  /** The state of the search: the `visited` list, the queue, the parent
      map and the two squares found so far. */
  datatype Frame = Frame(visited: seq<Pos>, queue: seq<Pos>, parent: map<Pos, Pos>,
                         top: Option<Pos>, bottom: Option<Pos>)

  /** The state before the first iteration. */
  function Start(source: Pos): (s: Frame)
    ensures s.visited == s.queue == [source] && s.parent == map[]
    ensures s.top.None? && s.bottom.None?
  {
    Frame([source], [source], map[], None, None)
  }

  /** The state before the first iteration meets the loop invariant of the
      search: nothing has been removed, only the source is queued and
      visited, there are no parents and neither row has been found. */
  lemma StartSearching(adj: Adjacency, n: nat, source: Pos)
    requires source in adj
    ensures Searching(adj, n, source, Start(source), map[], 0)
  {
  }

  /** What `top` (or `bottom`) says about the squares removed so far: unset
      while no square of row `row` has been removed, otherwise such a
      removed square. */
  ghost predicate Found(found: Option<Pos>, row: int, rank: map<Pos, nat>) {
    && (found.None? ==> forall v | v in rank :: v.row != row)
    && (found.Some? ==> found.value in rank && found.value.row == row)
  }

  /** The loop invariant of the search, apart from the bounds on `top` and
      `bottom`. */
  ghost predicate SearchInv(adj: Adjacency, source: Pos, s: Frame, rank: map<Pos, nat>, next: nat)
  {
    && VisitedMatches(s.visited, source, rank)
    && StartShape(s.queue, s.parent, rank, source)
    && ParentsOrdered(s.parent, rank, adj, source)
    && QueueKnown(s.queue, adj, source, s.parent)
    && Frontier(adj, rank, s.queue)
    && RanksBelow(adj, source, rank, next)
  }

  /** The whole loop invariant: `SearchInv`, `top` and `bottom` faithful, and
      on a one-row grid the source is both once it has been removed. */
  ghost predicate Searching(adj: Adjacency, n: nat, source: Pos, s: Frame, rank: map<Pos, nat>, next: nat)
  {
    && SearchInv(adj, source, s, rank, next)
    && Found(s.top, 0, rank) && Found(s.bottom, n - 1, rank)
    && (n == 1 && source.row == 0 && rank != map[] ==> s.top == Some(source) && s.bottom == Some(source))
  }

  /** When the queue runs dry every square reachable from the source has
      been removed, so a search whose targets are reachable finds them
      before the queue runs dry. */
  lemma QueueNotEmpty(adj: Adjacency, n: nat, source: Pos, s: Frame, rank: map<Pos, nat>, next: nat,
                      t: Pos, u: Pos)
    requires SearchInv(adj, source, s, rank, next)
    requires Found(s.top, 0, rank) && Found(s.bottom, n - 1, rank)
    requires t.row == 0 && u.row == n - 1 && Reachable(adj, source, t) && Reachable(adj, source, u)
    requires s.top.None? || s.bottom.None?
    ensures s.queue != []
  {
    if s.queue == [] {
      ClosedContainsReachable(adj, rank.Keys, source, t);
      ClosedContainsReachable(adj, rank.Keys, source, u);
    }
  }

  /** The squares removed after one more iteration of the search. */
  function Ranked(rank: map<Pos, nat>, current: Pos, next: nat): (r: map<Pos, nat>)
    ensures r.Keys == rank.Keys + {current}
    ensures forall v | v in rank :: r[v] == rank[v]
    ensures current !in rank ==> r[current] == next
  {
    if current in rank then rank else rank[current := next]
  }

  /** The next free removal number after removing `current`. */
  function NextRank(rank: map<Pos, nat>, current: Pos, next: nat): nat {
    if current in rank then next else next + 1
  }

  /** The parent map after one more iteration. */
  function Adopt(pm: map<Pos, Pos>, unseen: seq<Pos>, current: Pos): (pm2: map<Pos, Pos>)
    ensures pm2.Keys == pm.Keys + set w | w in unseen
    ensures forall w | w in pm2 :: pm2[w] == if w in unseen then current else pm[w]
  {
    pm + map w | w in unseen :: current
  }

  /** One iteration of the loop of `bfs`: take the front square off the
      queue, append it to `visited`, queue each of its listed neighbours that
      is not in `visited` and record the square as that neighbour's parent,
      and note the square as `top` when it lies in row 0 and as `bottom` when
      it lies in row n-1. */
  function Dequeue(adj: Adjacency, n: nat, s: Frame): (r: Frame)
    requires s.queue != [] && s.queue[0] in adj
    ensures forall w | w in r.queue :: w in s.queue[1..] || (w in adj[s.queue[0]] && w !in s.visited)
    ensures forall w | w in r.parent && w !in s.parent :: r.parent[w] == s.queue[0]
  {
    var current := s.queue[0];
    var visited := s.visited + [current];
    var unseen := Unvisited(adj[current], visited);
    Frame(visited, s.queue[1..] + unseen, Adopt(s.parent, unseen, current),
          if current.row == 0 then Some(current) else s.top,
          if current.row == n - 1 then Some(current) else s.bottom)
  }

  /** After an iteration the parent map still points from each square to
      one removed before it. */
  lemma DequeueParents(adj: Adjacency, n: nat, source: Pos, s: Frame, rank: map<Pos, nat>, next: nat)
    requires s.queue != [] && QueueKnown(s.queue, adj, source, s.parent)
    requires VisitedMatches(s.visited, source, rank) && ParentsOrdered(s.parent, rank, adj, source)
    requires RanksBelow(adj, source, rank, next)
    ensures s.queue[0] in adj
    ensures ParentsOrdered(Dequeue(adj, n, s).parent, Ranked(rank, s.queue[0], next), adj, source)
  {
    var current := s.queue[0];
    assert current in adj;
    var unseen := Unvisited(adj[current], s.visited + [current]);
    var pm2 := Adopt(s.parent, unseen, current);
    var rank2 := Ranked(rank, current, next);
    assert Dequeue(adj, n, s).parent == pm2;
    assert forall w | w in unseen :: w != source && w !in rank && w != current;
    forall v | v in pm2
      ensures pm2[v] in rank2 && pm2[v] in adj && v in adj[pm2[v]]
      ensures v in rank2 ==> rank2[pm2[v]] < rank2[v]
    {
      if v !in unseen {
        var p := s.parent[v];
        assert pm2[v] == p && p in rank && rank2[p] == rank[p];
        if v in rank {
          assert rank2[v] == rank[v];
        } else if v == current {
          assert rank2[v] == next && rank[p] < next;
        }
      }
    }
  }

  lemma DequeueRanks(adj: Adjacency, source: Pos, s: Frame, rank: map<Pos, nat>, next: nat)
    requires EdgesInside(adj) && source in adj
    requires SearchInv(adj, source, s, rank, next) && s.queue != []
    ensures RanksBelow(adj, source, Ranked(rank, s.queue[0], next), NextRank(rank, s.queue[0], next))
  {
    var current := s.queue[0];
    assert current in adj;
    if current !in rank {
      if current != source {
        ReachableEdge(adj, s.parent[current], current);
        ReachableTrans(adj, source, s.parent[current], current);
      } else {
        ReachableRefl(adj, source);
      }
    }
  }

  /** After an iteration every neighbour of a removed square has been
      removed or is queued. */
  lemma DequeueFrontier(adj: Adjacency, n: nat, source: Pos, s: Frame, rank: map<Pos, nat>, next: nat)
    requires Frontier(adj, rank, s.queue) && s.queue != [] && s.queue[0] in adj
    requires VisitedMatches(s.visited, source, rank) && StartShape(s.queue, s.parent, rank, source)
    ensures Frontier(adj, Ranked(rank, s.queue[0], next), Dequeue(adj, n, s).queue)
  {
    var queue := s.queue;
    var current := queue[0];
    var visited2 := s.visited + [current];
    var unseen := Unvisited(adj[current], visited2);
    var queue2 := queue[1..] + unseen;
    assert Dequeue(adj, n, s).queue == queue2;
    var rank2 := Ranked(rank, current, next);
    forall d, w | d in rank2 && d in adj && w in adj[d]
      ensures w in rank2 || w in queue2
    {
      if d == current {
        if w !in unseen {
          assert w in visited2;
        }
      } else if w !in rank && w in queue {
        var i :| 0 <= i < |queue| && queue[i] == w;
        if i > 0 {
          assert queue2[i - 1] == w;
        }
      }
    }
  }

  /** After an iteration every queued square is listed and is the source or
      has a parent. */
  lemma DequeueKnown(adj: Adjacency, n: nat, source: Pos, s: Frame)
    requires EdgesInside(adj) && QueueKnown(s.queue, adj, source, s.parent) && s.queue != []
    ensures s.queue[0] in adj
    ensures QueueKnown(Dequeue(adj, n, s).queue, adj, source, Dequeue(adj, n, s).parent)
  {
    var queue := s.queue;
    var current := queue[0];
    var unseen := Unvisited(adj[current], s.visited + [current]);
    var queue2 := queue[1..] + unseen;
    var pm2 := Adopt(s.parent, unseen, current);
    assert Dequeue(adj, n, s).queue == queue2 && Dequeue(adj, n, s).parent == pm2;
    forall i | 0 <= i < |queue2|
      ensures queue2[i] in adj && (queue2[i] == source || queue2[i] in pm2)
    {
      if i < |queue| - 1 {
        assert queue2[i] == queue[i + 1];
      } else {
        assert queue2[i] in unseen;
      }
    }
  }

  /** One iteration of the search keeps its invariant. */
  lemma DequeueKeeps(adj: Adjacency, n: nat, source: Pos, s: Frame, rank: map<Pos, nat>, next: nat)
    requires EdgesInside(adj) && source in adj
    requires SearchInv(adj, source, s, rank, next) && s.queue != []
    ensures s.queue[0] in adj
    ensures SearchInv(adj, source, Dequeue(adj, n, s), Ranked(rank, s.queue[0], next), NextRank(rank, s.queue[0], next))
  {
    DequeueParents(adj, n, source, s, rank, next);
    DequeueRanks(adj, source, s, rank, next);
    DequeueFrontier(adj, n, source, s, rank, next);
    DequeueKnown(adj, n, source, s);
  }

  /** Each iteration removes a new square, or removes a stale queue entry
      while queueing only squares not yet removed. */
  lemma MeasureDrops(adj: Adjacency, n: nat, source: Pos, s: Frame, rank: map<Pos, nat>, next: nat)
    requires SearchInv(adj, source, s, rank, next) && s.queue != [] && s.queue[0] in adj
    ensures var rank2 := Ranked(rank, s.queue[0], next);
            || |adj.Keys - rank2.Keys| < |adj.Keys - rank.Keys|
            || (rank2 == rank && Stale(Dequeue(adj, n, s).queue, rank.Keys) < Stale(s.queue, rank.Keys))
  {
    var current := s.queue[0];
    var unseen := Unvisited(adj[current], s.visited + [current]);
    if current in rank {
      assert forall w | w in unseen :: w !in rank;
      StaleAppend(s.queue[1..], unseen, rank.Keys);
    } else {
      FewerLeft(adj.Keys, rank.Keys, current);
    }
  }

  /** `top` and `bottom` stay faithful when the removed square is noted,
      and on a one-row grid the first removal, the source, sets both. */
  lemma DequeueFound(adj: Adjacency, n: nat, source: Pos, s: Frame, rank: map<Pos, nat>, next: nat)
    requires StartShape(s.queue, s.parent, rank, source) && s.queue != [] && s.queue[0] in adj
    requires Found(s.top, 0, rank) && Found(s.bottom, n - 1, rank)
    requires n == 1 && source.row == 0 && rank != map[] ==> s.top == Some(source) && s.bottom == Some(source)
    requires s.top.None? || s.bottom.None?
    ensures var r := Dequeue(adj, n, s);
            var rank2 := Ranked(rank, s.queue[0], next);
            && Found(r.top, 0, rank2) && Found(r.bottom, n - 1, rank2)
            && (n == 1 && source.row == 0 && rank2 != map[] ==> r.top == Some(source) && r.bottom == Some(source))
  {
    var current := s.queue[0];
    var r := Dequeue(adj, n, s);
    assert r.top == if current.row == 0 then Some(current) else s.top;
    assert r.bottom == if current.row == n - 1 then Some(current) else s.bottom;
    if rank == map[] {
      assert current == source;
    }
  }

  /** One iteration keeps the whole loop invariant and lowers the
      termination measure. */
  lemma Advance(adj: Adjacency, n: nat, source: Pos, s: Frame, rank: map<Pos, nat>, next: nat)
    requires EdgesInside(adj) && source in adj
    requires Searching(adj, n, source, s, rank, next) && s.queue != []
    requires s.top.None? || s.bottom.None?
    ensures s.queue[0] in adj
    ensures var rank2 := Ranked(rank, s.queue[0], next);
            && Searching(adj, n, source, Dequeue(adj, n, s), rank2, NextRank(rank, s.queue[0], next))
            && (|| |adj.Keys - rank2.Keys| < |adj.Keys - rank.Keys|
                || (rank2 == rank && Stale(Dequeue(adj, n, s).queue, rank.Keys) < Stale(s.queue, rank.Keys)))
  {
    DequeueKeeps(adj, n, source, s, rank, next);
    MeasureDrops(adj, n, source, s, rank, next);
    DequeueFound(adj, n, source, s, rank, next);
  }

  /** One iteration of the loop of `bfs`, with the bookkeeping of the proof:
      the removal numbers `rank` and the next free number `next`. */
  method Iterate(adj: Adjacency, n: nat, source: Pos, s: Frame, ghost rank: map<Pos, nat>, ghost next: nat,
                 ghost t: Pos, ghost u: Pos)
    returns (s2: Frame, ghost rank2: map<Pos, nat>, ghost next2: nat)
    requires EdgesInside(adj) && source in adj
    requires t.row == 0 && u.row == n - 1 && Reachable(adj, source, t) && Reachable(adj, source, u)
    requires Searching(adj, n, source, s, rank, next) && (s.top.None? || s.bottom.None?)
    ensures s.queue != [] && s.queue[0] in adj && s2 == Dequeue(adj, n, s)
    ensures Searching(adj, n, source, s2, rank2, next2)
    ensures || |adj.Keys - rank2.Keys| < |adj.Keys - rank.Keys|
            || (rank2 == rank && Stale(s2.queue, rank.Keys) < Stale(s.queue, rank.Keys))
  {
    QueueNotEmpty(adj, n, source, s, rank, next, t, u);
    Advance(adj, n, source, s, rank, next);
    ghost var current := s.queue[0];
    s2 := Dequeue(adj, n, s);
    rank2, next2 := Ranked(rank, current, next), NextRank(rank, current, next);
  }

  /** `bfs`: take the front square off the queue, append it to `visited`,
      queue each of its listed neighbours that is not in `visited` and record
      it as that neighbour's parent, and note it as `top` (row 0) or `bottom`
      (row n-1), until both are set. A square is marked visited only when it
      is taken off the queue, so it can be queued several times and its
      parent is overwritten until then. The caller guarantees that a row-0
      square and a row-(n-1) square are reachable, which is what keeps the
      queue from running dry. */
  method Bfs(adj: Adjacency, n: nat, source: Pos, ghost t: Pos, ghost u: Pos)
    returns (pm: map<Pos, Pos>, top: Option<Pos>, bottom: Option<Pos>, ghost rank: map<Pos, nat>)
    requires source in adj && EdgesInside(adj)
    requires t.row == 0 && u.row == n - 1 && Reachable(adj, source, t) && Reachable(adj, source, u)
    ensures top.Some? && top.value.row == 0 && top.value in rank
    ensures bottom.Some? && bottom.value.row == n - 1 && bottom.value in rank
    ensures ParentChain(pm, rank, adj, source)
    ensures forall v | v in rank :: Reachable(adj, source, v)
    ensures n == 1 && source.row == 0 ==> top == Some(source) && bottom == Some(source)
  {
    var s := Start(source);
    rank := map[];
    ghost var next: nat := 0;
    while s.top.None? || s.bottom.None?
      invariant Searching(adj, n, source, s, rank, next)
      decreases |adj.Keys - rank.Keys|, Stale(s.queue, rank.Keys)
    {
      s, rank, next := Iterate(adj, n, source, s, rank, next, t, u);
    }
    pm, top, bottom := s.parent, s.top, s.bottom;
  }

  /** percolation.py:209-214: from a square taken off the queue, follow
      the parent map back to the source. The result lists the squares in the
      order they are marked, ending with the source itself. */
  method WalkBack(pm: map<Pos, Pos>, source: Pos, from: Pos, ghost adj: Adjacency, ghost rank: map<Pos, nat>)
    returns (walk: seq<Pos>)
    requires ParentChain(pm, rank, adj, source) && from in rank
    ensures |walk| >= 1 && walk[0] == from && walk[|walk| - 1] == source
    ensures source !in walk[..|walk| - 1]
    ensures NoDup(walk)
    ensures forall i | 0 <= i < |walk| :: walk[i] in rank
    ensures forall i | 0 <= i < |walk| - 1 :: walk[i] in pm && pm[walk[i]] == walk[i + 1]
    ensures forall i | 0 <= i < |walk| :: walk[i] in adj
    ensures forall i | 0 <= i < |walk| - 1 :: walk[i] in adj[walk[i + 1]]
  {
    var cur := from;
    walk := [from];
    while cur != source
      invariant WalkSoFar(pm, rank, source, from, walk) && walk[|walk| - 1] == cur
      decreases rank[cur]
    {
      ExtendWalk(pm, rank, adj, source, from, walk);
      cur := pm[cur];
      walk := walk + [cur];
    }
    ChainEdges(pm, rank, adj, source, walk);
  }

  /** The walk back so far: it starts at `from`, lists removed squares
      without repeats and in strictly decreasing removal order, follows the
      parent map, and meets the source at most at its end. */
  ghost predicate WalkSoFar(pm: map<Pos, Pos>, rank: map<Pos, nat>, source: Pos, from: Pos, walk: seq<Pos>) {
    && |walk| >= 1 && walk[0] == from
    && (forall i | 0 <= i < |walk| :: walk[i] in rank)
    && NoDup(walk)
    && (forall i | 0 <= i < |walk| - 1 :: walk[i] in rank && walk[|walk| - 1] in rank && rank[walk[i]] > rank[walk[|walk| - 1]])
    && (forall i | 0 <= i < |walk| - 1 :: walk[i] != source)
    && (forall i | 0 <= i < |walk| - 1 :: walk[i] in pm && pm[walk[i]] == walk[i + 1])
  }

  /** One more step of the walk back keeps it a walk back, and lowers the
      removal number of its end. */
  lemma ExtendWalk(pm: map<Pos, Pos>, rank: map<Pos, nat>, adj: Adjacency, source: Pos, from: Pos, walk: seq<Pos>)
    requires ParentChain(pm, rank, adj, source) && WalkSoFar(pm, rank, source, from, walk)
    requires walk[|walk| - 1] != source
    ensures walk[|walk| - 1] in pm && pm[walk[|walk| - 1]] in rank
    ensures rank[pm[walk[|walk| - 1]]] < rank[walk[|walk| - 1]]
    ensures WalkSoFar(pm, rank, source, from, walk + [pm[walk[|walk| - 1]]])
  {
    var cur := walk[|walk| - 1];
    var p := pm[cur];
    assert p in rank && rank[p] < rank[cur];
    ExtendRanks(pm, rank, source, from, walk, p);
    ExtendChain(pm, rank, source, from, walk, p);
  }

  /** The removal numbers along an extended walk still fall, so it still has
      no repeats. */
  lemma ExtendRanks(pm: map<Pos, Pos>, rank: map<Pos, nat>, source: Pos, from: Pos, walk: seq<Pos>, p: Pos)
    requires WalkSoFar(pm, rank, source, from, walk)
    requires p in rank && rank[p] < rank[walk[|walk| - 1]]
    ensures var w2 := walk + [p];
      && (forall i | 0 <= i < |w2| :: w2[i] in rank)
      && (forall i | 0 <= i < |w2| - 1 :: w2[i] in rank && w2[|w2| - 1] in rank && rank[w2[i]] > rank[w2[|w2| - 1]])
      && NoDup(w2)
  {
    var n := |walk|;
    var w2 := walk + [p];
    forall i | 0 <= i < n
      ensures w2[i] == walk[i] && rank[w2[i]] > rank[p]
    {
      if i < n - 1 {
        assert rank[walk[i]] > rank[walk[n - 1]];
      }
    }
    forall i, j | 0 <= i < j < n + 1
      ensures w2[i] != w2[j]
    {
      if j == n {
        assert rank[w2[i]] > rank[p];
      } else {
        assert w2[i] == walk[i] && w2[j] == walk[j];
      }
    }
  }

  /** Following the parent of the walk's end extends the parent chain. */
  lemma ExtendChain(pm: map<Pos, Pos>, rank: map<Pos, nat>, source: Pos, from: Pos, walk: seq<Pos>, p: Pos)
    requires WalkSoFar(pm, rank, source, from, walk)
    requires walk[|walk| - 1] != source && walk[|walk| - 1] in pm && pm[walk[|walk| - 1]] == p
    ensures var w2 := walk + [p];
      && |w2| >= 1 && w2[0] == from
      && (forall i | 0 <= i < |w2| - 1 :: w2[i] != source)
      && (forall i | 0 <= i < |w2| - 1 :: w2[i] in pm && pm[w2[i]] == w2[i + 1])
  {
    var n := |walk|;
    var w2 := walk + [p];
    forall i | 0 <= i < n
      ensures w2[i] != source && w2[i] in pm && pm[w2[i]] == w2[i + 1]
    {
      if i < n - 1 {
        assert w2[i] == walk[i] && w2[i + 1] == walk[i + 1];
      } else {
        assert w2[i] == walk[n - 1] && w2[i + 1] == p;
      }
    }
  }

  /** A walk that follows the parent map from removed squares follows
      adjacency edges backwards. */
  lemma ChainEdges(pm: map<Pos, Pos>, rank: map<Pos, nat>, adj: Adjacency, source: Pos, walk: seq<Pos>)
    requires ParentChain(pm, rank, adj, source)
    requires forall i | 0 <= i < |walk| :: walk[i] in rank
    requires forall i | 0 <= i < |walk| - 1 :: walk[i] in pm && pm[walk[i]] == walk[i + 1]
    ensures forall i | 0 <= i < |walk| :: walk[i] in adj
    ensures forall i | 0 <= i < |walk| - 1 :: walk[i] in adj[walk[i + 1]]
  {
    forall i | 0 <= i < |walk| - 1
      ensures walk[i] in adj[walk[i + 1]]
    {
      assert walk[i] in pm;
    }
  }
}
