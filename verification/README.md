# Percolation on an n-by-n grid: union-find, percolation test and path search

This project models `percolation.py`, which simulates site percolation on an
n-by-n grid of squares. Every square starts closed. The driver `main(n)`
repeatedly draws a square. When the drawn square is closed, the driver:

- opens it;
- makes it a singleton set of a union-find forest (`make_set`);
- adds adjacency edges to its open orthogonal neighbours (`adj_list`);
- unions it with each of those neighbours (union by size, no path compression);
- runs `percolation_check`, which asks whether some row-0 square and some
  row-(n-1) square are in the same set.

Once the grid percolates, the driver marks the last opened square visited and
runs a breadth-first search (`bfs`) from it over the adjacency lists until it
has taken a row-0 square and a row-(n-1) square off the queue. Finally it
follows the parent map back from both squares and marks every square on the
way visited.

The model has seven modules:

- `Cells`: positions, square records, the `Option` wrapper, and
  `list.remove` as `RemoveFirst`.
- `UnionFind`: `make_set`, `find`, `same_set`, `union`, and the invariants of
  the forest. These are the parent shape, the root list, sizes that count
  members, and sizes that sum to the number of squares in sets.
- `Paths`: walks and reachability over adjacency lists.
- `Grids`: the grid itself, `get_open_neighbors`, the open step of the driver
  loop, and `percolation_check`.
- `Steps`: the invariant of the driver loop and what one open step does to
  sets and edges. This includes the fact that `same_set` coincides with
  reachability along the adjacency lists.
- `Search`: `bfs` exactly as written, and the walk back along its parent map.
- `Driver`: `main` over a given sequence of draws.

Squares are identified by their grid position `Pos(row, col)`. The board is a
map from positions to square records, and the adjacency lists are a map from
positions to sequences of positions.

Three details of the code that the model reproduces:

- On a size tie, `union(x, neighbor)` hangs the neighbour's root under the
  root of `x`, so the first argument's root absorbs the other.
- `bfs` marks a square visited when it is taken off the queue, not when it is
  queued. A square can therefore be queued several times, and its parent
  entry is overwritten until it is taken off.
- `union` of two closed squares does nothing (both `find`s return `None`);
  it is not an error.

## Model

| member | source | states |
|---|---|---|
| UnionFind.MakeSet | percolation.py:105-109 | the square becomes its own parent with size 1 and is appended to the root list; its status and every other square stay as they were |
| UnionFind.Opened | percolation.py:189-191 | the opened square becomes an open root of size 1 and is appended to the root list; every other square stays as it was |
| UnionFind.OpenedValid | percolation.py:189-191 | opening a closed square and `make_set` on it keep the union-find invariant; the square becomes the root of a set whose only member is itself, every other square keeps its `find`, and exactly one more square is in a set |
| UnionFind.Root | percolation.py:144-148 | the walk of `find` ends at a self-parented square whose size is strictly larger than the start's unless it is the start |
| UnionFind.Find | percolation.py:143-149 | `find` returns `None` exactly for a closed square, and otherwise a root of the forest |
| UnionFind.FindFollowsParents | percolation.py:143-149 | `find(x)` is `r` exactly when `x` is in a set, `r` is a root, and `r` is reached from `x` by following parent pointers |
| UnionFind.FindIdempotent | percolation.py:143-149 | `find` of the result of `find` is that result |
| UnionFind.SameSet | percolation.py:134-140 | `same_set` holds only for two squares that are both in sets |
| UnionFind.Union | percolation.py:111-123 | `union` keeps the squares and their statuses and keeps the forest shape |
| UnionFind.Hang | percolation.py:116-123 | the absorbed root stops being a root and points at the winner. The winner stays a root, and its size becomes the sum of the two sizes. The root list loses one entry, and no status changes |
| UnionFind.UnionSpec | percolation.py:111-123 | if the two roots are equal, `union` changes nothing. Otherwise the strictly larger root, or on a tie the first argument's root, absorbs the other: it becomes the loser's parent and its size becomes the sum of the two sizes. The loser leaves the root list. Every square previously under the loser now finds the winner, and no other square changes |
| UnionFind.UnionValid | percolation.py:111-123 | `union` of two squares in sets keeps the invariant: the shape, the root list, each root's size counting its members, and the sizes summing to the number of squares in sets |
| UnionFind.UnionSameSet | percolation.py:111-123 | after `union(x, y)`, two squares are in the same set exactly when they were before, or one was with `x` and the other with `y` |
| Cells.RemoveFirst | percolation.py:119-123 | `list.remove` drops one element; on a list without repeats it removes exactly the given root and keeps every other element |
| Grids.Init | percolation.py:34-46 | the new grid has one closed, parentless, size-0 square and one empty adjacency list per position, and no roots |
| Grids.OpenNeighbors | percolation.py:55-77 | the result lists exactly the on-grid orthogonal neighbours whose status is open, in the order up, down, left, right, without repeats |
| Grids.AddEdge | percolation.py:196-198 | the edge is added at both ends and no other list changes; the two lists touched stay free of repeats when the opened square was not yet listed |
| Grids.LinkOne | percolation.py:196-199 | one pass of the linking loop keeps the size, the squares, their statuses and the forest structure |
| Grids.Link | percolation.py:193-199 | the linking loop keeps the squares, their statuses and the forest structure |
| Grids.Step | percolation.py:188-199 | a drawn square that is not closed leaves the grid unchanged; a closed one ends up open, and the grid stays well formed |
| Grids.ScanBottom | percolation.py:128-130 | the inner scan succeeds exactly when the given top square is in the same set as a bottom-row square from the given column on |
| Grids.ScanTop | percolation.py:127-131 | the outer scan succeeds exactly when some top-row square from the given column on shares a set with some bottom-row square |
| Grids.PercolationCheck | percolation.py:125-131 | `percolation_check` is true exactly when some row-0 square and some row-(n-1) square are in the same set |
| Steps.InitInv | percolation.py:182-184 | the fresh grid with counter 0 satisfies the invariant of the driver loop |
| Steps.StepInv | percolation.py:188-203 | one pass of the driver loop keeps the invariant: well-formed grid, no square visited, valid forest, sound, symmetric, repeat-free and complete adjacency lists, edges inside sets, roots reachable, and `c` equal to the number of open squares |
| Steps.AdjExact | percolation.py:190-199 | under the loop invariant, `v` is in `u`'s adjacency list exactly when both are open and orthogonal neighbours |
| Steps.StepAdj | percolation.py:193-198 | after opening `p`, the adjacency lists are the old ones plus the edges between `p` and its open neighbours, at both ends |
| Steps.LinkAdj | percolation.py:193-198 | the linking loop adds exactly the edges between the opened square and the listed neighbours |
| Steps.StepNoDup | percolation.py:196-198 | no adjacency list holds a square twice after an open step |
| Steps.SameSetIffReachable | percolation.py:134-140 | under the loop invariant, `same_set(u, v)` holds exactly when `u` is open and `v` is reachable from it along the adjacency lists |
| Steps.FullGridPercolates | percolation.py:125-131 | under the loop invariant, a grid whose squares are all open percolates |
| Steps.StepMonotone | percolation.py:188-199 | an open step never separates two squares that were in the same set |
| Steps.LinkKeepsSets | percolation.py:193-199 | the linking loop never separates two squares that were in the same set |
| Steps.NewPairReached | percolation.py:188-199 | two squares that an open step joins into one set are both reachable from the opened square |
| Steps.FirstPercolation | percolation.py:188-202 | when an open step makes a non-percolating grid percolate, the drawn square was closed, and a row-0 and a row-(n-1) square are reachable from it |
| Search.Start | percolation.py:153-159 | the search starts with only the source visited and queued, an empty parent map, and neither row found |
| Search.StartSearching | percolation.py:153-160 | that starting state meets the loop invariant of the search before the first iteration |
| Search.Unvisited | percolation.py:163-166 | the squares queued from one adjacency list are exactly its members not yet in `visited` |
| Search.Dequeue | percolation.py:161-170 | after one iteration the queue holds only old entries and unvisited neighbours of the removed square, and every new parent entry points to that square |
| Search.QueueNotEmpty | percolation.py:160-161 | while a row is still missing, `popleft` never meets an empty queue, given reachable row-0 and row-(n-1) squares |
| Search.Iterate | percolation.py:160-170 | while a row is still missing, the queue is not empty, so the next iteration can take a square off it; the iteration keeps the search invariant and lowers the termination measure |
| Search.Bfs | percolation.py:152-171 | `bfs` returns a removed row-0 square and a removed row-(n-1) square. Its parent map leads every removed square back to the source along reversed adjacency edges, and every removed square is reachable. In a 1-by-1 grid both results are the source |
| Search.WalkBack | percolation.py:209-214 | following the parent map from a removed square reaches the source without repeating a square, and each step is an adjacency edge |
| Driver.Pass | percolation.py:188-203 | a closed drawn square ends up open and the counter grows by one; an open or visited one leaves the state unchanged. The grid stays well formed |
| Driver.Replay | percolation.py:185-203 | replaying a run of draws keeps the grid well formed, and the counter never exceeds the number of draws |
| Driver.ReplayInv | percolation.py:185-203 | after any run of draws the grid satisfies the loop invariant, and the counter equals the number of open squares |
| Driver.ReplayNext | percolation.py:185-203 | replaying one draw more is one more pass of the loop |
| Driver.Draw | percolation.py:188-203 | one pass on a drawn square gives the replayed next state; it reports percolation exactly when the square was closed and the grid now percolates |
| Driver.Iterate | percolation.py:185-203 | one pass of the loop keeps the loop's invariant |
| Driver.OpenUntilPercolation | percolation.py:185-203 | the loop stops with the state after the first `k` draws. It has percolated exactly when that grid percolates, it stops early only on percolation, and no shorter prefix percolated |
| Driver.PercolatingDraw | percolation.py:188-205 | the draw that made the grid percolate found its square closed, and that square is in a set from which a row-0 and a row-(n-1) square are reachable |
| Driver.MarkVisited | percolation.py:204-214 | exactly the listed squares are marked visited, and every other square is unchanged |
| Driver.PathTo | percolation.py:209-214 | the marked path is a walk of open squares along adjacency edges from the found square to the source, without repeats; from the source itself it is just the source |
| Driver.Trace | percolation.py:205-214 | the search from the percolating square finds a row-0 and a row-(n-1) square, each with a path back to the source; in a 1-by-1 grid both are the source |
| Driver.SearchAndMark | percolation.py:204-214 | the final board is the percolated grid with the source and both paths marked visited |
| Driver.Simulate | percolation.py:181-214 | `main(n)`: either the draws run out and no prefix of them percolated, or the run stops at the first percolating draw. In that case its square is the source, the counter equals the number of open squares, and the source and both paths to rows 0 and n-1 are marked visited |

## Left out

- `random.randint`: the draws are a parameter, a sequence of on-grid positions.
  When the sequence runs out before the grid percolates, `Simulate` returns an
  `Exhausted` outcome; `percolation.py` keeps drawing until the grid percolates.
- `write_board`, `visualize_board`, the prints and the fraction `c/(n**2)`:
  file and console output and floating point.
- The `number` field of a square and its accessors: nothing reads it.
- The trivial accessors (`get_board`, `get_square`, `get_square_status`, the
  getters and setters of `Square`): they are map lookups and record updates in
  the model.
- The call `main(25)`: `Simulate` takes `n` as a parameter.
- Object identity (`is`, `is not`, dictionary keys of square objects): a square
  is identified by its grid position.
- UnionFind.Union: requires both squares in sets (open or visited) or both
  closed. With one square
  closed, `percolation.py` fails on `None.get_size()`. When the two roots
  differ, it also requires the root that would be absorbed to be in the root
  list; without it, `list.remove` raises. Every call from the driver meets
  both conditions.
- Search.Bfs: requires a row-0 square and a row-(n-1) square reachable from
  the source. Without them the `popleft` of `percolation.py` fails on an
  empty queue. The driver meets this condition, as `Driver.PercolatingDraw`
  shows.
- Driver.Simulate: requires `n >= 1`, and so do `Driver.OpenUntilPercolation`
  and `Driver.Trace`. For `n = 0`, `percolation.py` raises in
  `random.randint(0, -1)` at line 186 before anything else happens.
- Grids.PercolationCheck: requires `n >= 1`, and so do `Grids.ScanTop` and
  `Grids.ScanBottom`. On an empty grid, `self.board[0]` at line 127 of
  `percolation.py` raises.
