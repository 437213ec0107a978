/** Walks and reachability over the adjacency lists (`adj_list`), the graph
    the breadth-first search runs on. */
module Paths {
  import opened Cells

  /** The adjacency lists, one per square. */
  type Adjacency = map<Pos, seq<Pos>>

  /** `w` is a walk in `adj`: every step follows an adjacency-list entry. */
  ghost predicate IsWalk(adj: Adjacency, w: seq<Pos>) {
    && |w| >= 1
    && (forall i | 0 <= i < |w| :: w[i] in adj)
    && (forall i | 0 <= i < |w| - 1 :: w[i + 1] in adj[w[i]])
  }

  /** Some walk in `adj` leads from `u` to `v`. */
  ghost predicate Reachable(adj: Adjacency, u: Pos, v: Pos) {
    exists w :: IsWalk(adj, w) && w[0] == u && w[|w| - 1] == v
  }

  /** Every edge is listed at both ends. */
  ghost predicate Symmetric(adj: Adjacency) {
    forall u, v {:trigger v in adj[u]} | u in adj && v in adj[u] :: v in adj && u in adj[v]
  }

  /** Every listed neighbour has an adjacency list of its own. */
  ghost predicate EdgesInside(adj: Adjacency) {
    forall u, v {:trigger v in adj[u]} | u in adj && v in adj[u] :: v in adj
  }

  /** Every edge of `adj` is also an edge of `adj2`. */
  ghost predicate SubGraph(adj: Adjacency, adj2: Adjacency) {
    forall u | u in adj :: u in adj2 && forall v | v in adj[u] :: v in adj2[u]
  }

  /** `s` is closed under the edges of `adj`. */
  ghost predicate ClosedUnder(adj: Adjacency, s: set<Pos>) {
    forall u, v {:trigger v in adj[u]} | u in s && u in adj && v in adj[u] :: v in s
  }

  lemma ReachableRefl(adj: Adjacency, u: Pos)
    requires u in adj
    ensures Reachable(adj, u, u)
  {
    assert IsWalk(adj, [u]);
  }

  lemma ReachableEdge(adj: Adjacency, u: Pos, v: Pos)
    requires u in adj && v in adj && v in adj[u]
    ensures Reachable(adj, u, v)
  {
    assert IsWalk(adj, [u, v]);
  }

  /** Reachability is transitive: walks concatenate. */
  lemma ReachableTrans(adj: Adjacency, u: Pos, v: Pos, x: Pos)
    requires Reachable(adj, u, v) && Reachable(adj, v, x)
    ensures Reachable(adj, u, x)
  {
    var w1 :| IsWalk(adj, w1) && w1[0] == u && w1[|w1| - 1] == v;
    var w2 :| IsWalk(adj, w2) && w2[0] == v && w2[|w2| - 1] == x;
    var w := w1 + w2[1..];
    assert IsWalk(adj, w) by {
      forall i | 0 <= i < |w| - 1
        ensures w[i + 1] in adj[w[i]]
      {
        if i + 1 < |w1| {
        } else {
          assert w[i + 1] == w2[i + 1 - |w1| + 1];
          assert w[i] == w2[i - |w1| + 1];
        }
      }
    }
  }

  /** The reverse of a walk in a symmetric graph is a walk. */
  lemma ReachableSym(adj: Adjacency, u: Pos, v: Pos)
    requires Symmetric(adj) && Reachable(adj, u, v)
    ensures Reachable(adj, v, u)
  {
    var w :| IsWalk(adj, w) && w[0] == u && w[|w| - 1] == v;
    var r := seq(|w|, i requires 0 <= i < |w| => w[|w| - 1 - i]);
    assert IsWalk(adj, r) by {
      forall i | 0 <= i < |r| - 1
        ensures r[i + 1] in adj[r[i]]
      {
        assert r[i] == w[|w| - 1 - i] && r[i + 1] == w[|w| - 2 - i];
        assert w[|w| - 1 - i] in adj[w[|w| - 2 - i]];
      }
    }
  }

  /** Adding edges keeps every walk. */
  lemma ReachableMono(adj: Adjacency, adj2: Adjacency, u: Pos, v: Pos)
    requires SubGraph(adj, adj2) && Reachable(adj, u, v)
    ensures Reachable(adj2, u, v)
  {
    var w :| IsWalk(adj, w) && w[0] == u && w[|w| - 1] == v;
    assert IsWalk(adj2, w);
  }

  /** A set closed under the edges contains everything reachable from its
      members. */
  lemma {:induction false} ClosedContainsWalk(adj: Adjacency, s: set<Pos>, w: seq<Pos>)
    requires ClosedUnder(adj, s) && IsWalk(adj, w) && w[0] in s
    ensures w[|w| - 1] in s
    decreases |w|
  {
    if |w| > 1 {
      assert w[1] in s;
      assert IsWalk(adj, w[1..]);
      ClosedContainsWalk(adj, s, w[1..]);
    }
  }

  lemma ClosedContainsReachable(adj: Adjacency, s: set<Pos>, u: Pos, v: Pos)
    requires ClosedUnder(adj, s) && u in s && Reachable(adj, u, v)
    ensures v in s
  {
    var w :| IsWalk(adj, w) && w[0] == u && w[|w| - 1] == v;
    ClosedContainsWalk(adj, s, w);
  }

  /** A walk from `u` to `v` either passes through `x`, and then `x` is
      reachable from `u`, or avoids it, and then it is a walk of any graph
      that keeps the edges not touching `x`. */
  lemma ReachableAvoiding(adj: Adjacency, adj2: Adjacency, x: Pos, u: Pos, v: Pos)
    requires Reachable(adj2, u, v)
    requires forall a | a in adj2 && a != x :: a in adj
    requires forall a, c | a in adj2 && a != x && c != x && c in adj2[a] :: c in adj[a]
    ensures Reachable(adj2, u, x) || Reachable(adj, u, v)
  {
    var w :| IsWalk(adj2, w) && w[0] == u && w[|w| - 1] == v;
    if x in w {
      var k :| 0 <= k < |w| && w[k] == x;
      assert IsWalk(adj2, w[..k + 1]);
    } else {
      assert IsWalk(adj, w);
    }
  }
}
