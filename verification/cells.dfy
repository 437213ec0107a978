/** Basic vocabulary of the percolation model: grid positions, the status of a
    square, and the square record that carries the union-find metadata. */
module Cells {

  /** The conventional Some/None wrapper, standing in for Python's `None`. */
  datatype Option<+T> = None | Some(value: T)

  /** Status of a square: closed at start, open once drawn, visited when it
      lies on the reported path. */
  datatype Status = Closed | Open | Visited

  /** A grid position; it plays the role of the identity of a square object. */
  datatype Pos = Pos(row: nat, col: nat)

  /** One square: its status, its union-find parent (`None` until the square is
      put into a set) and the size field, meaningful only on a set root. */
  datatype Square = Square(status: Status, parent: Option<Pos>, size: nat)

  /** A freshly built square: closed, no parent, size 0. */
  const Fresh: Square := Square(Closed, None, 0)

  /** True if `p` lies on the n-by-n grid. */
  predicate InGrid(n: nat, p: Pos) {
    p.row < n && p.col < n
  }

  /** True if `p` and `q` are orthogonal neighbours (up, down, left or right). */
  predicate Adjacent(p: Pos, q: Pos) {
    || (p.col == q.col && (p.row + 1 == q.row || q.row + 1 == p.row))
    || (p.row == q.row && (p.col + 1 == q.col || q.col + 1 == p.col))
  }

  /** No element occurs twice in `s`. */
  predicate NoDup<T(==)>(s: seq<T>) {
    forall i, j | 0 <= i < j < |s| :: s[i] != s[j]
  }

  /** The list `s` with the first occurrence of `v` taken out, as Python's
      `list.remove` does (it raises when `v` is absent). */
  function RemoveFirst<T(==)>(s: seq<T>, v: T): (r: seq<T>)
    requires v in s
    ensures |r| == |s| - 1
    ensures forall w :: w in r ==> w in s
    ensures NoDup(s) ==> NoDup(r) && v !in r && forall w :: w in s && w != v ==> w in r
  {
    if s[0] == v then s[1..]
    else
      var rest := RemoveFirst(s[1..], v);
      assert NoDup(s) ==> s[0] !in s[1..];
      [s[0]] + rest
  }

  /** Adding a new element to a finite set adds one to its size. */
  lemma AddOneCard(s: set<Pos>, p: Pos)
    requires p !in s
    ensures |s + {p}| == |s| + 1
  {
  }
}
