# Pose search for the Martin's Menace packing puzzle

This project models the pose-search engine of a solver for a dissection
puzzle. Four rigid, non-convex pieces must be placed inside a rectangular
board of 147.32 mm by 96.52 mm so that each lies inside the board and none
overlaps another. The modelled parts are:

- `Geometry`: the geometry library as an oracle. Polygons are values that are
  never inspected. `Oracle` carries the library's translate, rotate, contains
  and overlaps operations as total functions supplied by the caller.
  `Placed(geo, original, pose)` is the reference polygon translated, then
  rotated. A pose is a triple of grid indices (x offset, y offset, angle).
- `PoseGrid`: the candidate poses. `MakePoses(nx, ny, nt)` is the triple
  nested loop that builds the list. The search calls it with (10, 10, 20)
  for the full list and with (10/2, 10/2, 20) for the quadrant list; the
  quadrant loops run over the first half of the x and y values.
  Its contract says the list holds every grid pose exactly once, in x-major,
  then y, then angle order, and gives the position formula.
  `QuadrantOfGrid` proves that the quadrant list is the full list filtered to
  x and y indices below the halves, in the same order.
- `Placement`: the `Piece` class and the `Board` class. A piece's `polygon`
  field is overwritten on each `Transform`. The board's two parallel lists,
  `pieces` and `poses`, form the backtracking stack. `pieces` holds
  references to the piece objects. So the overlap test in `Place` reads each
  listed piece's current polygon, which is the last pose applied to that
  object, not the pose recorded beside it.
- `Search`: the search. The P0 loop runs over the quadrant poses; the P1, P2
  and P3 loops run over all poses. Every placement is pushed with
  `allowOverlap` set. The stack discipline is the code's own:
  - `Clear(1)`, right after P2 is placed, drops P2 again. P3 is therefore
    checked against P0, P1 and any P3 entries still on the stack, but never
    against P2.
  - `Clear(2)` truncates only when the stack is deeper than three. From the
    second P3 pose on, P3 is checked against its own earlier entry, which is
    the same object and so has its newest polygon. The next P2 is checked
    against the stale P3 entries.
  - A successful board holds P0, P1 and P3 once or twice. With four distinct
    piece objects it does not hold P2, and `Solve` states this.
  - With four distinct piece objects, the result is false exactly when
    `NoSolution` holds over the two grid lists. Both directions are proved,
    at every level. Until the first P2 pose fits, P2 is checked against
    [P0, P1] alone. Every P3 search started above one P1 pose then sees P0
    and P1 at the same polygons. Its first pose is checked against [P0, P1].
    Every later pose is checked against [P0, P1, P3], where the stale P3
    entry carries P3's new polygon, so the new polygon is tested against
    itself. So a P3 search that failed once fails again, and the stale
    entries never change the outcome.

Two properties of the code are worth stating on their own:
- `Piece.valid_poses` is never filled. Every pose goes through `place`; no
  pose is filtered against the boundary beforehand.
- P3 is never checked against P2, and the returned board lacks P2. A
  returned board is therefore not four pairwise non-overlapping pieces.

## Model

| member | source | states |
|---|---|---|
| `Placement.Piece.constructor` | solve.py:12-15 | the reference polygon and the current polygon both start as the given polygon |
| `Placement.Piece.Transform` | solve.py:17-22 | the new current polygon is the reference polygon translated, then rotated, by the pose; it depends on the pose alone and not on the earlier state, so applying a pose twice leaves the same state |
| `Placement.Board.constructor` | solve.py:25-30 | the board starts with empty `pieces` and `poses` lists, the given size, and the rectangle from (0, 0) to (width, height) as its boundary |
| `Placement.Board.Place` | solve.py:57-81 | the piece is moved to the pose; the result is true exactly when the moved polygon is inside the boundary and overlaps none of the listed pieces' current polygons, so stopping at the first overlap does not change it, and it is false whenever the polygon is not inside; with the result true or `allowOverlap` set, both lists gain exactly the piece and the pose at the end, otherwise neither changes; earlier entries are never touched and the lists keep equal length |
| `Placement.KeepThrough` | solve.py:88-90 | the slice `s[:ii + 1]` for `ii >= -1` has length min(ii + 1, len(s)) and is a prefix of `s` |
| `Placement.Board.Clear` | solve.py:83-90 | for `ii >= -1` both lists become their slice through position ii (`KeepThrough`), so they keep length min(ii + 1, old length) and are prefixes of the old lists; when the old length is at most ii + 1 nothing changes |
| `PoseGrid.MakePoses` | solve.py:97-113 | the result holds nx * ny * nt poses, each grid pose exactly once and no other pose, strictly increasing in x-major, then y, then angle order; the pose (x, y, t) sits at position (x * ny + y) * nt + t |
| `PoseGrid.DecodeIndex` | solve.py:101-105 | for y and angle indices inside the grid, the position (x * ny + y) * nt + t gives back x, y and t by div and mod |
| `PoseGrid.GridAt` | solve.py:101-105 | the inverse of the position formula: entry i of the grid list is the pose with x index i div (ny * nt), y index (i div nt) mod ny and angle index i mod nt |
| `PoseGrid.Quadrant` | solve.py:109-113 | the reference filter keeps exactly the poses whose x and y indices are below the bounds, and it keeps a strictly ordered list strictly ordered |
| `PoseGrid.SortedUnique` | solve.py:101-113 | two strictly ordered pose lists with the same members are equal, so a list's order and members fix it |
| `PoseGrid.QuadrantOfGrid` | solve.py:109-113 | the quadrant list equals the full list filtered to x < nx/2 and y < ny/2, in the same relative order, and it holds (nx/2) * (ny/2) * nt poses (500 for the search's 10, 10, 20) |
| `Search.Solve` | solve.py:93-154 | on success the returned board is new, has the 147.32 by 96.52 boundary and satisfies `Solution`: P0, P1 and then P3 once or twice, the top P3 at its pose and fitting against every entry below it, P0 and P1 inside the boundary at their recorded poses, P0's pose in the quadrant. With four distinct piece objects it also states that P1 did not overlap P0, that P2 at some grid pose lay inside the board overlapping neither P0 nor P1, and that P2 is not on the board. A false result carries a null board. With four distinct pieces, over the full and quadrant grid lists, the result is false exactly when no quadrant pose of P0 leads to a solution (`NoSolution`) |
| `Search.SearchP0` | solve.py:119-154 | the P0 loop: on success the board satisfies `Solution` with P0 at a quadrant pose; with four distinct pieces the result is false exactly when every quadrant pose either leaves P0 outside the boundary or has no P1 pose leading anywhere above it |
| `Search.SearchP1` | solve.py:127-152 | P0 stays at the bottom of the stack at its pose; on success the board satisfies `Solution`; with distinct pieces a false result means every P1 pose either fails its check against P0 or has no completion (no P2 pose fits against P0 and P1, or no P3 pose passes its check), and a true result means some P1 pose passes its check and has a completion |
| `Search.SearchP2` | solve.py:136-152 | the stack keeps P0 and P1 at their poses with at most two P3 entries above them; on success the top P3 fits, and with distinct pieces P2 had fitted at a grid pose, inside the boundary and overlapping neither P0 nor P1; with distinct pieces the result is false exactly when no P2 pose fits against P0 and P1, or no P3 pose passes its check |
| `Search.SearchP3` | solve.py:143-152 | the stack keeps P0 and P1 at their poses with at most two P3 entries above them; a true result means P3 is on top at its pose and fits against every entry below it. With P3 distinct from P0 and P1, the top pose is the first pose that passes the check (against [P0, P1] for the first pose, against [P0, P1, P3] with P3's own new polygon for every later one), and a false result means that no pose passes it |
| `Search.CheckOnP0` | solve.py:131-132 | after `clear(0)` the placement check of P1 is containment plus no overlap with P0 |
| `Search.CheckOnStack` | solve.py:139-147 | the placement check against [P0, P1], or against [P0, P1, P3] when the placed piece is P3 itself, is containment, no overlap with P0 or P1, and in the second case no overlap of the new polygon with itself |
| `Search.FitsOnBottom` | solve.py:139-143 | a piece that passes the check against a stack whose bottom entries are P0 and P1 lies inside the boundary and overlaps neither P0 nor P1 |
| `Search.Completion` | solve.py:138-152 | a P2 pose that fits against P0 and P1, together with a P3 pose that passes its check, rules out `NoCompletion` |
| `Search.SolutionFound` | solve.py:119-152 | a quadrant pose at which P0 fits, with a P1 pose above it that leads on, rules out `NoSolution` |
| `Search.P2NotOnStack` | solve.py:139-147 | with distinct pieces, the stack searched for P3 never holds P2, because `Clear(1)` removed it |

## Left out

- Drawing: the figure set up in `Board.__init__` (solve.py:32-39), `Board.plot` and the `plot` calls inside the search are display side effects.
- Geometry: shapely's `translate`, `rotate`, `contains` and `overlaps` do floating-point geometry in a foreign library. `box` is the concrete rectangle `Geometry.Box`, a vertex list in shapely's `box(0, 0, w, h)` order; `translate`, `rotate`, `contains` and `overlaps` are `Oracle` fields, and nothing is assumed about them. For example, shapely reports that a polygon does not overlap itself; the model leaves that to the oracle.
- Grid values: the `np.linspace` offsets and angles are floating point. Poses are their indices, and the oracle maps an index to its value.
- `__repr__`, `example()`, the polygon literals under `__main__` and the prints are formatting, demo and I/O glue.
- `Piece.valid_poses` is never read or written after construction.
- The four nested loops of `solve` are split into one method per level (`SearchP0`, `SearchP1`, `SearchP2`, `SearchP3`). `Solve` builds the board and the two grid lists and calls `SearchP0`. A `true` result from a level stands for the early return. Control flow and stack operations are unchanged.
- Search.Solve: requires exactly four pieces. The tuple unpacking in the source raises an error for any other count, and that error is not modelled.
- Search.Solve: the current polygons of P0, P1 and P2, and the overlap facts between them, are stated only when the four piece objects are distinct. If the same object is passed twice, a later transform overwrites the earlier polygon.
- Search.Solve: a `false` result means that no arrangement is found for these four piece objects. It does not mean that no pairwise non-overlapping arrangement exists: P0 is tried only at poses in the lower-left quadrant of the grid, every piece is tried only at grid poses, and every P3 pose after the first is also checked against P3's own new polygon (the stale stack entry, solve.py:146-147), which the oracle may report as overlapping itself. The contract states exactly the code's own checks. (The missing check of P3 against P2 only lets more boards through; it is why a returned board can hold overlapping P2 and P3, not a reason for a `false` result.)
- Search.Solve: on success, the contract does not state that the earlier P0 and P1 poses led nowhere. Only `Search.SearchP3` states that its pose is the first one that passes.
- Search.SearchP0: on success, the contract does not state that the earlier quadrant poses led nowhere.
- Search.SearchP1: on success, the contract does not state that the earlier P1 poses led nowhere.
- Search.SearchP2: on success, the contract does not state that the earlier P2 poses led nowhere.
- Placement.Board.Clear: requires `ii >= -1`. Smaller values would use Python's negative slicing, and the code only passes -1 to 2.
