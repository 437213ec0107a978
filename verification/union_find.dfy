/** The disjoint-set forest kept on the squares themselves: `make_set`, `find`,
    `union` and `same_set`, with union by size and no path compression.

    The forest is a map from position to square (the square's `parent` field is
    the tree edge) together with `sets`, the list of current roots. */
module UnionFind {
  import opened Cells

  type Board = map<Pos, Square>

  datatype Forest = Forest(board: Board, sets: seq<Pos>)

  /** The test `find` makes before walking: any status other than closed. */
  predicate InSet(b: Board, x: Pos)
    requires x in b
  {
    b[x].status != Closed
  }

  /** A set representative: in some set and its own parent. */
  predicate IsRoot(b: Board, x: Pos)
    requires x in b
  {
    InSet(b, x) && b[x].parent == Some(x)
  }

  /** The shape union by size gives the forest: every square in a set has a
      parent in a set, sizes are positive, and a parent other than the square
      itself has a strictly larger size. This is what makes `find` terminate. */
  ghost predicate Shaped(b: Board) {
    forall x {:trigger ShapedAt(b, x)} | x in b :: ShapedAt(b, x)
  }

  /** The shape condition at one square. */
  ghost predicate ShapedAt(b: Board, x: Pos)
    requires x in b
  {
    b[x].status != Closed ==>
      && b[x].parent.Some?
      && b[x].parent.value in b
      && b[b[x].parent.value].status != Closed
      && b[x].size >= 1
      && (b[x].parent.value == x || b[x].size < b[b[x].parent.value].size)
  }

  /** The squares whose size is strictly larger than that of `x`; it shrinks
      at every step of a walk towards the root. */
  ghost function Larger(b: Board, x: Pos): set<Pos>
    requires x in b
  {
    set y | y in b && b[y].size > b[x].size
  }

  /** The walk of `find`: follow parents until a self-parented square. */
  function Root(b: Board, x: Pos): (r: Pos)
    requires Shaped(b) && x in b && InSet(b, x)
    ensures r in b && IsRoot(b, r)
    ensures r == x || b[x].size < b[r].size
    decreases Larger(b, x)
  {
    assert ShapedAt(b, x);
    var p := b[x].parent.value;
    if p == x then x
    else
      assert p in Larger(b, x) - Larger(b, p);
      Root(b, p)
  }

  /** `find`: `None` for a closed square, otherwise the root of its tree. */
  function Find(b: Board, x: Pos): (r: Option<Pos>)
    requires Shaped(b) && x in b
    ensures r.None? <==> b[x].status == Closed
    ensures r.Some? ==> r.value in b && IsRoot(b, r.value)
  {
    if b[x].status != Closed then Some(Root(b, x)) else None
  }

  /** `same_set`: both finds succeed and give the same root. */
  function SameSet(b: Board, x: Pos, y: Pos): (r: bool)
    requires Shaped(b) && x in b && y in b
    ensures r ==> InSet(b, x) && InSet(b, y)
  {
    var fx := Find(b, x);
    var fy := Find(b, y);
    fx.Some? && fy.Some? && fx.value == fy.value
  }

  /** `k` steps along parent pointers from `x`. */
  function Climb(b: Board, x: Pos, k: nat): (r: Pos)
    requires Shaped(b) && x in b && InSet(b, x)
    ensures r in b && InSet(b, r)
    decreases k
  {
    assert ShapedAt(b, x);
    if k == 0 then x else Climb(b, b[x].parent.value, k - 1)
  }

  /** The cells of `b` that belong to some set. */
  ghost function InSetCells(b: Board): set<Pos> {
    set y | y in b && InSet(b, y)
  }

  /** The members of the set whose root is `r`. */
  ghost function Members(b: Board, r: Pos): set<Pos>
    requires Shaped(b)
  {
    set y | y in b && InSet(b, y) && Root(b, y) == r
  }

  /** Sum of the size fields of the squares listed in `s`. */
  function SumSizes(b: Board, s: seq<Pos>): nat
    requires forall i | 0 <= i < |s| :: s[i] in b
  {
    if s == [] then 0 else b[s[0]].size + SumSizes(b, s[1..])
  }

  /** Structural invariant: the forest shape, "has a parent iff not closed",
      and `sets` lists every root exactly once and nothing else. */
  ghost predicate Structured(f: Forest) {
    && Shaped(f.board)
    && (forall x | x in f.board :: f.board[x].parent.None? <==> f.board[x].status == Closed)
    && NoDup(f.sets)
    && (forall r :: r in f.sets <==> r in f.board && IsRoot(f.board, r))
  }

  /** Full invariant: structure, every root's size counts its members, and the
      sizes of the roots add up to the number of squares in sets. */
  ghost predicate Valid(f: Forest) {
    && Structured(f)
    && (forall r {:trigger CountedAt(f.board, r)} | r in f.board :: CountedAt(f.board, r))
    && SumSizes(f.board, f.sets) == |InSetCells(f.board)|
  }

  /** A root's size is the number of squares whose root it is. */
  ghost predicate CountedAt(b: Board, r: Pos)
    requires Shaped(b) && r in b
  {
    IsRoot(b, r) ==> b[r].size == |Members(b, r)|
  }

  /** `make_set`: the square becomes its own parent with size 1 and is appended
      to `sets`; no other square is touched. */
  function MakeSet(f: Forest, x: Pos): (r: Forest)
    requires x in f.board
    ensures r.board.Keys == f.board.Keys && r.sets == f.sets + [x]
    ensures r.board[x].parent == Some(x) && r.board[x].size == 1
    ensures r.board[x].status == f.board[x].status
    ensures forall y | y in f.board && y != x :: r.board[y] == f.board[y]
  {
    Forest(f.board[x := f.board[x].(parent := Some(x), size := 1)], f.sets + [x])
  }

  /** `union`: the strictly larger root absorbs the other one; on a tie the
      first argument's root absorbs the second's. The absorbed root leaves
      `sets`. Two closed arguments (both finds `None`) change nothing; one
      closed and one not would raise in percolation.py, as would an
      absorbed root missing from `sets`. */
  function Union(f: Forest, x: Pos, y: Pos): (r: Forest)
    requires Shaped(f.board) && x in f.board && y in f.board
    requires InSet(f.board, x) <==> InSet(f.board, y)
    requires InSet(f.board, x) ==>
               var rx := Root(f.board, x);
               var ry := Root(f.board, y);
               rx != ry ==> (if f.board[ry].size > f.board[rx].size then rx else ry) in f.sets
    ensures r.board.Keys == f.board.Keys
    ensures forall z | z in f.board :: r.board[z].status == f.board[z].status
    ensures Shaped(r.board)
  {
    var b := f.board;
    var xr := Find(b, x);
    var nr := Find(b, y);
    if xr == nr then f
    else
      var rx := xr.value;
      var ry := nr.value;
      if b[ry].size > b[rx].size then Hang(f, rx, ry) else Hang(f, ry, rx)
  }

  /** One branch of `union`: root `l` gets parent `w`, `w` takes the summed
      size, and `l` is removed from `sets`. */
  function Hang(f: Forest, l: Pos, w: Pos): (r: Forest)
    requires Shaped(f.board) && l in f.board && w in f.board && l in f.sets
    requires l != w && IsRoot(f.board, l) && IsRoot(f.board, w)
    ensures Shaped(r.board)
    ensures r.board.Keys == f.board.Keys
    ensures forall z | z in f.board :: r.board[z].status == f.board[z].status
    ensures !IsRoot(r.board, l) && r.board[l].parent == Some(w) && IsRoot(r.board, w)
    ensures r.board[w].size == f.board[w].size + f.board[l].size
    ensures |r.sets| == |f.sets| - 1
  {
    var b := f.board;
    HangShaped(b, l, w);
    Forest(b[l := b[l].(parent := Some(w))][w := b[w].(size := b[w].size + b[l].size)],
           RemoveFirst(f.sets, l))
  }

  lemma HangShaped(b: Board, l: Pos, w: Pos)
    requires Shaped(b) && l in b && w in b && l != w && IsRoot(b, l) && IsRoot(b, w)
    ensures Shaped(b[l := b[l].(parent := Some(w))][w := b[w].(size := b[w].size + b[l].size)])
  {
    var b2 := b[l := b[l].(parent := Some(w))][w := b[w].(size := b[w].size + b[l].size)];
    forall z | z in b2
      ensures ShapedAt(b2, z)
    {
      assert ShapedAt(b, z) && ShapedAt(b, l) && ShapedAt(b, w);
    }
  }

  /** The root that survives `Union(f, x, y)` when the roots differ. */
  function Winner(b: Board, rx: Pos, ry: Pos): Pos
    requires rx in b && ry in b
  {
    if b[ry].size > b[rx].size then ry else rx
  }

  // ---------------------------------------------------------------------
  // find

  /** `find` walks parent pointers: its result is reached from `x` by some
      number of parent steps, and it is the only self-parented square so
      reached; a closed square has no root. */
  lemma {:induction false} FindFollowsParents(b: Board, x: Pos, r: Pos)
    requires Shaped(b) && x in b && r in b
    ensures Find(b, x) == Some(r) <==> InSet(b, x) && IsRoot(b, r) && exists k :: Climb(b, x, k) == r
  {
    if InSet(b, x) {
      RootIsClimbed(b, x);
      if IsRoot(b, r) && exists k :: Climb(b, x, k) == r {
        var k: nat :| Climb(b, x, k) == r;
        ClimbedRootIsRoot(b, x, k);
      }
    }
  }

  lemma {:induction false} RootIsClimbed(b: Board, x: Pos)
    requires Shaped(b) && x in b && InSet(b, x)
    ensures exists k :: Climb(b, x, k) == Root(b, x)
    decreases Larger(b, x)
  {
    assert ShapedAt(b, x);
    var p := b[x].parent.value;
    if p == x {
      assert Climb(b, x, 0) == Root(b, x);
    } else {
      assert p in Larger(b, x) - Larger(b, p);
      RootIsClimbed(b, p);
      var k: nat :| Climb(b, p, k) == Root(b, p);
      assert Climb(b, x, k + 1) == Root(b, x);
    }
  }

  lemma {:induction false} ClimbedRootIsRoot(b: Board, x: Pos, k: nat)
    requires Shaped(b) && x in b && InSet(b, x)
    requires IsRoot(b, Climb(b, x, k))
    ensures Climb(b, x, k) == Root(b, x)
    decreases k
  {
    assert ShapedAt(b, x);
    var p := b[x].parent.value;
    if k == 0 {
    } else if p == x {
      ClimbFixed(b, x, k - 1);
    } else {
      ClimbedRootIsRoot(b, p, k - 1);
    }
  }

  lemma {:induction false} ClimbFixed(b: Board, x: Pos, k: nat)
    requires Shaped(b) && x in b && IsRoot(b, x)
    ensures Climb(b, x, k) == x
    decreases k
  {
    if k > 0 {
      ClimbFixed(b, x, k - 1);
    }
  }

  /** `find(find(x)) == find(x)`. */
  lemma FindIdempotent(b: Board, x: Pos)
    requires Shaped(b) && x in b && InSet(b, x)
    ensures Find(b, Find(b, x).value) == Find(b, x)
  {
  }

  /** Roots agree on two boards when every square in a set keeps its parent. */
  lemma {:induction false} RootFrame(b: Board, b2: Board, z: Pos)
    requires Shaped(b) && Shaped(b2)
    requires forall y | y in b && InSet(b, y) :: y in b2 && InSet(b2, y) && b2[y].parent == b[y].parent
    requires z in b && InSet(b, z)
    ensures Root(b2, z) == Root(b, z)
    decreases Larger(b, z)
  {
    assert ShapedAt(b, z);
    var p := b[z].parent.value;
    if p != z {
      assert p in Larger(b, z) - Larger(b, p);
      RootFrame(b, b2, p);
    }
  }

  /** Roots after one root `loser` is hung under another root `winner`. */
  lemma {:induction false} RootAfterLink(b: Board, b2: Board, loser: Pos, winner: Pos, z: Pos)
    requires Shaped(b) && Shaped(b2) && b2.Keys == b.Keys
    requires loser in b && winner in b && loser != winner
    requires IsRoot(b, loser) && IsRoot(b, winner)
    requires forall y | y in b && y != loser :: b2[y].status == b[y].status && b2[y].parent == b[y].parent
    requires b2[loser].status == b[loser].status && b2[loser].parent == Some(winner)
    requires z in b && InSet(b, z)
    ensures Root(b2, z) == if Root(b, z) == loser then winner else Root(b, z)
    decreases Larger(b, z)
  {
    assert ShapedAt(b, z);
    var p := b[z].parent.value;
    if z == loser {
      assert Root(b2, winner) == winner;
    } else if p != z {
      assert p in Larger(b, z) - Larger(b, p);
      RootAfterLink(b, b2, loser, winner, p);
    }
  }

  // ---------------------------------------------------------------------
  // union

  /** The effect of hanging root `l` under root `w`: every square whose root
      was `l` now has root `w`, and every other root is unchanged. */
  lemma HangRoots(f: Forest, l: Pos, w: Pos)
    requires Shaped(f.board) && l in f.board && w in f.board && l in f.sets
    requires l != w && IsRoot(f.board, l) && IsRoot(f.board, w)
    ensures var b := f.board;
            var b2 := Hang(f, l, w).board;
            forall z | z in b && InSet(b, z) ::
              Root(b2, z) == if Root(b, z) == l then w else Root(b, z)
  {
    var b := f.board;
    var b2 := Hang(f, l, w).board;
    assert b2 == b[l := b[l].(parent := Some(w))][w := b[w].(size := b[w].size + b[l].size)];
    assert Shaped(b2);
    assert b2.Keys == b.Keys;
    assert forall y | y in b && y != l :: b2[y].status == b[y].status && b2[y].parent == b[y].parent;
    assert b2[l].status == b[l].status && b2[l].parent == Some(w);
    forall z | z in b && InSet(b, z)
      ensures Root(b2, z) == if Root(b, z) == l then w else Root(b, z)
    {
      RootAfterLink(b, b2, l, w, z);
    }
  }

  /** What `union` does on two squares in sets: with equal roots nothing
      changes; otherwise the winner (strictly larger, first argument on a tie)
      becomes the root of both, its size is the sum of the two sizes, the
      absorbed root leaves `sets`, every square whose root was one of the two
      now has the winner as root, and no other square changes. */
  lemma UnionSpec(f: Forest, x: Pos, y: Pos)
    requires Structured(f) && x in f.board && y in f.board
    requires InSet(f.board, x) && InSet(f.board, y)
    ensures var b := f.board;
            var r := Union(f, x, y);
            var rx := Root(b, x);
            var ry := Root(b, y);
            var w := Winner(b, rx, ry);
            var l := if w == rx then ry else rx;
            && (rx == ry ==> r == f)
            && (rx != ry ==>
                  && Root(r.board, x) == w && Root(r.board, y) == w
                  && (b[rx].size == b[ry].size ==> w == rx)
                  && r.board[w] == b[w].(size := b[rx].size + b[ry].size)
                  && r.board[l] == b[l].(parent := Some(w))
                  && r.sets == RemoveFirst(f.sets, l)
                  && (forall z | z in b && z != rx && z != ry :: r.board[z] == b[z])
                  && (forall z | z in b && InSet(b, z) ::
                        Root(r.board, z) == if Root(b, z) == l then w else Root(b, z)))
  {
    var b := f.board;
    var rx := Root(b, x);
    var ry := Root(b, y);
    if rx != ry {
      var w := Winner(b, rx, ry);
      var l := if w == rx then ry else rx;
      var r := Hang(f, l, w);
      assert Union(f, x, y) == r;
      HangFields(f, l, w);
      HangRoots(f, l, w);
      assert Root(r.board, x) == w && Root(r.board, y) == w;
    }
  }

  /** The fields `union` writes when it hangs root `l` under root `w`. */
  lemma HangFields(f: Forest, l: Pos, w: Pos)
    requires Shaped(f.board) && l in f.board && w in f.board && l in f.sets
    requires l != w && IsRoot(f.board, l) && IsRoot(f.board, w)
    ensures Hang(f, l, w).board[w] == f.board[w].(size := f.board[w].size + f.board[l].size)
    ensures Hang(f, l, w).board[l] == f.board[l].(parent := Some(w))
    ensures Hang(f, l, w).sets == RemoveFirst(f.sets, l)
    ensures forall z | z in f.board && z != l && z != w :: Hang(f, l, w).board[z] == f.board[z]
  {
  }

  /** Hanging one root under another keeps the structural invariant. */
  lemma HangStructured(f: Forest, l: Pos, w: Pos)
    requires Structured(f) && l in f.board && w in f.board
    requires l != w && IsRoot(f.board, l) && IsRoot(f.board, w)
    ensures Structured(Hang(f, l, w))
  {
    var b := f.board;
    var r := Hang(f, l, w);
    forall z
      ensures z in r.sets <==> z in r.board && IsRoot(r.board, z)
    {
      if z in b && z != l && z != w {
        assert r.board[z] == b[z];
      }
    }
  }

  /** `union` keeps the structural invariant. */
  lemma UnionStructured(f: Forest, x: Pos, y: Pos)
    requires Structured(f) && x in f.board && y in f.board
    requires InSet(f.board, x) && InSet(f.board, y)
    ensures Structured(Union(f, x, y))
  {
    var b := f.board;
    var rx := Root(b, x);
    var ry := Root(b, y);
    if rx != ry {
      var w := Winner(b, rx, ry);
      var l := if w == rx then ry else rx;
      assert Union(f, x, y) == Hang(f, l, w);
      HangStructured(f, l, w);
    }
  }

  /** As a relation, `same_set` after `union(x, y)` is the old relation with
      the classes of `x` and `y` merged. */
  lemma UnionSameSet(f: Forest, x: Pos, y: Pos, a: Pos, c: Pos)
    requires Structured(f) && x in f.board && y in f.board && a in f.board && c in f.board
    requires InSet(f.board, x) && InSet(f.board, y)
    ensures SameSet(Union(f, x, y).board, a, c) <==>
              || SameSet(f.board, a, c)
              || (SameSet(f.board, a, x) && SameSet(f.board, c, y))
              || (SameSet(f.board, a, y) && SameSet(f.board, c, x))
  {
    var b := f.board;
    var r := Union(f, x, y).board;
    assert r[a].status == b[a].status && r[c].status == b[c].status;
    UnionRootOf(f, x, y, a);
    UnionRootOf(f, x, y, c);
    SameSetRelabel(b, r, x, y, a, c);
  }

  /** Two boards whose roots relate as before and after a `union` of `x`
      and `y` relate their sets as `union` promises. */
  lemma SameSetRelabel(b: Board, r: Board, x: Pos, y: Pos, a: Pos, c: Pos)
    requires Shaped(b) && Shaped(r) && x in b && y in b && a in b && c in b
    requires x in r && y in r && a in r && c in r
    requires InSet(b, x) && InSet(b, y) && InSet(r, x) && InSet(r, y) && Root(r, x) == Root(r, y)
    requires r[a].status == b[a].status && r[c].status == b[c].status
    requires Relabelled(b, r, x, y, a) && Relabelled(b, r, x, y, c)
    ensures SameSet(r, a, c) <==>
              || SameSet(b, a, c)
              || (SameSet(b, a, x) && SameSet(b, c, y))
              || (SameSet(b, a, y) && SameSet(b, c, x))
  {
    if InSet(b, a) && InSet(b, c) {
      assert SameSet(r, a, c) <==> Root(r, a) == Root(r, c);
      assert SameSet(b, a, c) <==> Root(b, a) == Root(b, c);
      assert SameSet(b, a, x) <==> Root(b, a) == Root(b, x);
      assert SameSet(b, a, y) <==> Root(b, a) == Root(b, y);
      assert SameSet(b, c, x) <==> Root(b, c) == Root(b, x);
      assert SameSet(b, c, y) <==> Root(b, c) == Root(b, y);
    }
  }

  /** The root of `z` moves as `union` of `x` and `y` moves it. */
  ghost predicate Relabelled(b: Board, r: Board, x: Pos, y: Pos, z: Pos)
    requires Shaped(b) && Shaped(r) && x in b && y in b && z in b && x in r && z in r
    requires InSet(b, x) && InSet(b, y) && InSet(r, x)
  {
    InSet(b, z) ==>
      && InSet(r, z)
      && (Root(b, z) == Root(b, x) || Root(b, z) == Root(b, y) ==> Root(r, z) == Root(r, x))
      && (Root(b, z) != Root(b, x) && Root(b, z) != Root(b, y) ==>
            Root(r, z) == Root(b, z) && Root(r, z) != Root(r, x))
  }

  /** Where a square's root goes under `union`: the roots of `x` and `y`
      both become one root, every other root stays. */
  lemma UnionRootOf(f: Forest, x: Pos, y: Pos, z: Pos)
    requires Structured(f) && x in f.board && y in f.board && z in f.board
    requires InSet(f.board, x) && InSet(f.board, y)
    ensures InSet(Union(f, x, y).board, x) && Root(Union(f, x, y).board, x) == Root(Union(f, x, y).board, y)
    ensures Relabelled(f.board, Union(f, x, y).board, x, y, z)
  {
    UnionSpec(f, x, y);
  }

  // ---------------------------------------------------------------------
  // counting

  lemma {:induction false} SumAppend(b: Board, s: seq<Pos>, v: Pos)
    requires (forall i | 0 <= i < |s| :: s[i] in b) && v in b
    ensures SumSizes(b, s + [v]) == SumSizes(b, s) + b[v].size
  {
    if s != [] {
      assert (s + [v])[1..] == s[1..] + [v];
      SumAppend(b, s[1..], v);
    }
  }

  lemma {:induction false} SumRemove(b: Board, s: seq<Pos>, v: Pos)
    requires (forall i | 0 <= i < |s| :: s[i] in b) && v in s
    ensures forall i | 0 <= i < |RemoveFirst(s, v)| :: RemoveFirst(s, v)[i] in b
    ensures SumSizes(b, s) == SumSizes(b, RemoveFirst(s, v)) + b[v].size
  {
    if s[0] != v {
      SumRemove(b, s[1..], v);
      assert ([s[0]] + RemoveFirst(s[1..], v))[1..] == RemoveFirst(s[1..], v);
    }
  }

  /** Changing the size of one listed square changes the sum by the difference. */
  lemma {:induction false} SumUpdate(b: Board, b2: Board, s: seq<Pos>, k: Pos)
    requires forall i | 0 <= i < |s| :: s[i] in b && s[i] in b2
    requires forall i | 0 <= i < |s| && s[i] != k :: b2[s[i]].size == b[s[i]].size
    requires NoDup(s) && k in b && k in b2
    ensures SumSizes(b2, s) == SumSizes(b, s) + (if k in s then b2[k].size - b[k].size else 0)
  {
    if s != [] {
      SumUpdate(b, b2, s[1..], k);
    }
  }

  /** Hanging one root under another: the winner's members are the union
      of the two old classes, every other root keeps its members. */
  lemma HangMembers(f: Forest, l: Pos, w: Pos)
    requires Structured(f) && l in f.board && w in f.board
    requires l != w && IsRoot(f.board, l) && IsRoot(f.board, w)
    ensures Shaped(Hang(f, l, w).board)
    ensures InSetCells(Hang(f, l, w).board) == InSetCells(f.board)
    ensures Members(Hang(f, l, w).board, w) == Members(f.board, w) + Members(f.board, l)
    ensures forall q | q in f.board && q != w && q != l ::
              Members(Hang(f, l, w).board, q) == Members(f.board, q)
  {
    var b := f.board;
    var b2 := Hang(f, l, w).board;
    HangRoots(f, l, w);
    assert InSetCells(b2) == InSetCells(b);
    assert Members(b2, w) == Members(b, w) + Members(b, l);
    forall q | q in b && q != w && q != l
      ensures Members(b2, q) == Members(b, q)
    {
    }
  }

  /** Hanging one root under another keeps the counting invariant: the
      winner's size counts its new members and the sum over `sets` is
      unchanged. */
  lemma HangValid(f: Forest, l: Pos, w: Pos)
    requires Valid(f) && l in f.board && w in f.board
    requires l != w && IsRoot(f.board, l) && IsRoot(f.board, w)
    ensures Valid(Hang(f, l, w))
    ensures InSetCells(Hang(f, l, w).board) == InSetCells(f.board)
  {
    var b := f.board;
    var r := Hang(f, l, w);
    var b2 := r.board;
    HangStructured(f, l, w);
    HangMembers(f, l, w);
    HangSum(f, l, w);
    forall q | q in b2
      ensures CountedAt(b2, q)
    {
      HangCountedAt(f, l, w, q);
    }
  }

  /** After hanging `l` under `w`, every root's size still counts its
      members: `w` takes both sets, the others keep theirs. */
  lemma HangCountedAt(f: Forest, l: Pos, w: Pos, q: Pos)
    requires Valid(f) && l in f.board && w in f.board && q in f.board
    requires l != w && IsRoot(f.board, l) && IsRoot(f.board, w)
    ensures Shaped(Hang(f, l, w).board) && CountedAt(Hang(f, l, w).board, q)
  {
    var b := f.board;
    var b2 := Hang(f, l, w).board;
    HangMembers(f, l, w);
    HangFields(f, l, w);
    if q == w {
      assert CountedAt(b, w) && CountedAt(b, l);
      DisjointCard(Members(b, w), Members(b, l));
    } else if q != l {
      assert b2[q] == b[q];
      assert CountedAt(b, q);
    }
  }

  lemma DisjointCard<T>(a: set<T>, c: set<T>)
    requires a !! c
    ensures |a + c| == |a| + |c|
  {
  }

  /** Hanging one root under another leaves the sum over `sets` unchanged. */
  lemma HangSum(f: Forest, l: Pos, w: Pos)
    requires Structured(f) && l in f.board && w in f.board
    requires l != w && IsRoot(f.board, l) && IsRoot(f.board, w)
    ensures forall i | 0 <= i < |Hang(f, l, w).sets| :: Hang(f, l, w).sets[i] in Hang(f, l, w).board
    ensures SumSizes(Hang(f, l, w).board, Hang(f, l, w).sets) == SumSizes(f.board, f.sets)
  {
    var b := f.board;
    var r := Hang(f, l, w);
    SumRemove(b, f.sets, l);
    SumUpdate(b, r.board, r.sets, w);
  }

  /** `union` keeps the counting invariant and the set of squares in sets. */
  lemma UnionValid(f: Forest, x: Pos, y: Pos)
    requires Valid(f) && x in f.board && y in f.board
    requires InSet(f.board, x) && InSet(f.board, y)
    ensures Valid(Union(f, x, y))
    ensures InSetCells(Union(f, x, y).board) == InSetCells(f.board)
  {
    var b := f.board;
    var rx := Root(b, x);
    var ry := Root(b, y);
    if rx != ry {
      var w := Winner(b, rx, ry);
      var l := if w == rx then ry else rx;
      assert Union(f, x, y) == Hang(f, l, w);
      HangValid(f, l, w);
    }
  }

  // ---------------------------------------------------------------------
  // make_set on a square that has just been opened

  /** The board after the square `x` is marked open. */
  function OpenSquare(b: Board, x: Pos): (b2: Board)
    requires x in b
    ensures b2.Keys == b.Keys && b2[x].status == Open
    ensures forall y | y in b && y != x :: b2[y] == b[y]
  {
    b[x := b[x].(status := Open)]
  }

  /** percolation.py:190-191: mark the square open, then `make_set`. */
  function Opened(f: Forest, x: Pos): (r: Forest)
    requires x in f.board
    ensures r.board.Keys == f.board.Keys && r.sets == f.sets + [x]
    ensures r.board[x] == Square(Open, Some(x), 1)
    ensures forall y | y in f.board && y != x :: r.board[y] == f.board[y]
  {
    MakeSet(Forest(OpenSquare(f.board, x), f.sets), x)
  }

  lemma OpenedShaped(f: Forest, x: Pos)
    requires Structured(f) && x in f.board && f.board[x].status == Closed
    ensures Shaped(Opened(f, x).board)
  {
    var b := f.board;
    var b2 := Opened(f, x).board;
    forall z | z in b2
      ensures ShapedAt(b2, z)
    {
      assert ShapedAt(b, z);
    }
  }

  /** Opening a square and `make_set` on it moves no existing root, and the
      new square is its own root. */
  lemma OpenedRoots(f: Forest, x: Pos)
    requires Structured(f) && x in f.board && f.board[x].status == Closed
    ensures Shaped(Opened(f, x).board)
    ensures IsRoot(Opened(f, x).board, x) && Root(Opened(f, x).board, x) == x
    ensures forall z | z in f.board && InSet(f.board, z) :: Root(Opened(f, x).board, z) == Root(f.board, z)
  {
    OpenedShaped(f, x);
    var b := f.board;
    var b2 := Opened(f, x).board;
    forall z | z in b && InSet(b, z)
      ensures Root(b2, z) == Root(b, z)
    {
      RootFrame(b, b2, z);
    }
  }

  /** Opening a square and `make_set` on it keeps the structural invariant. */
  lemma OpenedStructured(f: Forest, x: Pos)
    requires Structured(f) && x in f.board && f.board[x].status == Closed
    ensures Structured(Opened(f, x))
  {
    OpenedShaped(f, x);
    var b := f.board;
    var r := Opened(f, x);
    var b2 := r.board;
    assert x !in f.sets;
    forall z
      ensures z in r.sets <==> z in b2 && IsRoot(b2, z)
    {
      if z in b && z != x {
        assert b2[z] == b[z];
      }
    }
  }

  lemma OpenedMembers(f: Forest, x: Pos)
    requires Structured(f) && x in f.board && f.board[x].status == Closed
    ensures Shaped(Opened(f, x).board)
    ensures InSetCells(Opened(f, x).board) == InSetCells(f.board) + {x}
    ensures Members(Opened(f, x).board, x) == {x}
    ensures forall q | q in f.board && q != x :: Members(Opened(f, x).board, q) == Members(f.board, q)
  {
    OpenedRoots(f, x);
    var b := f.board;
    var b2 := Opened(f, x).board;
    assert InSetCells(b2) == InSetCells(b) + {x};
    assert Members(b2, x) == {x};
    forall q | q in b && q != x
      ensures Members(b2, q) == Members(b, q)
    {
    }
  }

  lemma OpenedSum(f: Forest, x: Pos)
    requires Valid(f) && x in f.board && f.board[x].status == Closed
    ensures forall i | 0 <= i < |Opened(f, x).sets| :: Opened(f, x).sets[i] in Opened(f, x).board
    ensures SumSizes(Opened(f, x).board, Opened(f, x).sets) == SumSizes(f.board, f.sets) + 1
  {
    var b := f.board;
    var b2 := Opened(f, x).board;
    assert x !in f.sets;
    SumUpdate(b, b2, f.sets, x);
    SumAppend(b2, f.sets, x);
  }

  /** After opening a square every root's size still counts its members. */
  lemma OpenedCounted(f: Forest, x: Pos)
    requires Structured(f) && x in f.board && f.board[x].status == Closed
    requires forall r {:trigger CountedAt(f.board, r)} | r in f.board :: CountedAt(f.board, r)
    ensures Shaped(Opened(f, x).board)
    ensures Members(Opened(f, x).board, x) == {x}
    ensures InSetCells(Opened(f, x).board) == InSetCells(f.board) + {x}
    ensures forall r {:trigger CountedAt(Opened(f, x).board, r)} | r in Opened(f, x).board :: CountedAt(Opened(f, x).board, r)
  {
    var b := f.board;
    var b2 := Opened(f, x).board;
    OpenedMembers(f, x);
    forall q | q in b2
      ensures CountedAt(b2, q)
    {
      if q != x && IsRoot(b2, q) {
        assert CountedAt(b, q);
      }
    }
  }

  lemma OpenedKeepsValid(f: Forest, x: Pos)
    requires Valid(f) && x in f.board && f.board[x].status == Closed
    ensures Valid(Opened(f, x))
  {
    OpenedStructured(f, x);
    OpenedCounted(f, x);
    OpenedSum(f, x);
    assert x !in InSetCells(f.board);
    AddOneCard(InSetCells(f.board), x);
  }

  /** Opening a closed square and then `make_set` on it keeps the invariant:
      the square is its own root with itself as only member, every other
      square keeps its root, and one more square is in a set. */
  lemma OpenedValid(f: Forest, x: Pos)
    requires Valid(f) && x in f.board && f.board[x].status == Closed
    ensures Valid(Opened(f, x))
    ensures Find(Opened(f, x).board, x) == Some(x)
    ensures Members(Opened(f, x).board, x) == {x}
    ensures InSetCells(Opened(f, x).board) == InSetCells(f.board) + {x}
    ensures forall z | z in f.board && InSet(f.board, z) :: Find(Opened(f, x).board, z) == Find(f.board, z)
  {
    OpenedKeepsValid(f, x);
    OpenedRoots(f, x);
    OpenedCounted(f, x);
  }
}
