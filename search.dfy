/** The backtracking search (solve.py, `solve`, lines 93-154).
    Four nested loops drive one board: P0 runs over the quadrant poses, P1, P2
    and P3 over all poses, each placement is pushed with `allowOverlap` set and
    undone with `Clear`. Each loop level is one method here (`SearchP0` holds the
    P0 loop, `SearchP1`, `SearchP2` and `SearchP3` the inner ones, a `true`
    result standing for the early return; `Solve` builds the board and the
    pose lists), with the code's own stack
    discipline: `Clear(1)` right after placing P2 drops P2 again, so P3 is
    checked against P0, P1 and the P3 entries still on the stack but never
    against P2; and `Clear(2)` only truncates once the stack is deeper than
    three, so stale P3 entries stay on it and the next P2 is checked against
    them too. */
module Search {
  import opened Geometry
  import opened PoseGrid
  import opened Placement

  /** Board size in millimetres and grid resolution used by the search. */
  const BoardWidth: real := 147.32
  const BoardHeight: real := 96.52
  const Nx: nat := 10
  const Ny: nat := 10
  const Nt: nat := 20

  /** The four pieces are four different objects. */
  predicate Distinct(p0: Piece, p1: Piece, p2: Piece, p3: Piece)
  {
    p0 != p1 && p0 != p2 && p0 != p3 && p1 != p2 && p1 != p3 && p2 != p3
  }

  /** The stack while P2 or P3 is searched: P0 and P1 at their poses, then
      nothing but P3 entries, at most two of them, every pose on the grid. */
  ghost predicate UpperStack(board: Board, p0: Piece, p1: Piece, p3: Piece, pose0: Pose, pose1: Pose)
    reads board
  {
    && board.Valid()
    && 2 <= |board.pieces| <= 4
    && board.pieces[0] == p0 && board.poses[0] == pose0
    && board.pieces[1] == p1 && board.poses[1] == pose1
    && (forall k :: 2 <= k < |board.pieces| ==> board.pieces[k] == p3)
    && (forall k :: 1 <= k < |board.poses| ==> InGrid(board.poses[k], Nx, Ny, Nt))
  }

  /** The stack searched above P2 holds no P2 entry. */
  lemma P2NotOnStack(board: Board, p0: Piece, p1: Piece, p2: Piece, p3: Piece, pose0: Pose, pose1: Pose)
    requires UpperStack(board, p0, p1, p3, pose0, pose1)
    requires Distinct(p0, p1, p2, p3)
    ensures p2 !in board.pieces
  {
  }

  /** The state in which the search stops: the top entry of the stack is P3,
      moved to the top pose, and it fits against every entry below it. */
  ghost predicate TopFits(board: Board, p3: Piece)
    reads board, board.pieces, p3
  {
    && board.Valid()
    && 1 <= |board.pieces|
    && board.pieces[|board.pieces| - 1] == p3
    && p3.polygon == Placed(board.geo, p3.original, board.poses[|board.poses| - 1])
    && board.Fits(p3.polygon, board.pieces[..|board.pieces| - 1])
  }

  /** The board the search returns on success: P0, P1, then P3 once or twice,
      the top P3 fitting against every entry below it, P0 and P1 inside the
      boundary at their recorded poses. With four distinct pieces, also: P1
      did not overlap P0, and P2, at some grid pose, lay inside the boundary
      overlapping neither P0 nor P1, yet is not on the board. */
  ghost predicate Solution(board: Board, p0: Piece, p1: Piece, p2: Piece, p3: Piece)
    reads board, board.pieces, p0, p1, p2, p3
  {
    && board.Valid()
    && (|board.pieces| == 3 || |board.pieces| == 4)
    && UpperStack(board, p0, p1, p3, board.poses[0], board.poses[1])
    && TopFits(board, p3)
    && board.geo.contains(board.boundary, Placed(board.geo, p0.original, board.poses[0]))
    && board.geo.contains(board.boundary, Placed(board.geo, p1.original, board.poses[1]))
    && (Distinct(p0, p1, p2, p3) ==>
         && p0.polygon == Placed(board.geo, p0.original, board.poses[0])
         && p1.polygon == Placed(board.geo, p1.original, board.poses[1])
         && !board.geo.overlaps(p1.polygon, p0.polygon)
         && (exists pose2 :: InGrid(pose2, Nx, Ny, Nt) && p2.polygon == Placed(board.geo, p2.original, pose2))
         && board.geo.contains(board.boundary, p2.polygon)
         && !board.geo.overlaps(p2.polygon, p0.polygon)
         && !board.geo.overlaps(p2.polygon, p1.polygon)
         && p2 !in board.pieces)
  }

  /** `poly` lies inside the boundary and overlaps neither P0 at `poly0` nor
      P1 at `poly1`: the check P2 gets while the stack is [P0, P1]. */
  predicate FitsOnPair(geo: Oracle, boundary: Polygon, poly0: Polygon, poly1: Polygon, poly: Polygon)
  {
    geo.contains(boundary, poly) && !geo.overlaps(poly, poly0) && !geo.overlaps(poly, poly1)
  }

  /** The check P3 gets at `poly`. The first P3 pose is checked against
      [P0, P1]; every later one against [P0, P1, P3], whose stale P3 entry is
      the same object and so already carries `poly` itself. */
  predicate P3Fits(geo: Oracle, boundary: Polygon, poly0: Polygon, poly1: Polygon, poly: Polygon, stale: bool)
  {
    FitsOnPair(geo, boundary, poly0, poly1, poly) && (stale ==> !geo.overlaps(poly, poly))
  }

  /** The placement check against a stack [P0, P1], or [P0, P1, P3] with P3
      itself the piece being placed, is the check of `P3Fits`. */
  lemma CheckOnStack(board: Board, below: seq<Piece>, p0: Piece, p1: Piece, p3: Piece)
    requires |below| == 2 || |below| == 3
    requires below[0] == p0 && below[1] == p1 && (|below| == 3 ==> below[2] == p3)
    ensures board.Fits(p3.polygon, below)
        == P3Fits(board.geo, board.boundary, p0.polygon, p1.polygon, p3.polygon, |below| == 3)
  {
  }

  /** The placement check of P1 against the stack [P0]. */
  lemma CheckOnP0(board: Board, below: seq<Piece>, p0: Piece, p1: Piece)
    requires below == [p0]
    ensures board.Fits(p1.polygon, below)
        == (board.geo.contains(board.boundary, p1.polygon) && !board.geo.overlaps(p1.polygon, p0.polygon))
  {
    assert below[0] == p0;
  }

  /** A piece that fits against a stack whose two bottom entries are P0 and
      P1 fits against P0 and P1. */
  lemma FitsOnBottom(board: Board, below: seq<Piece>, p0: Piece, p1: Piece, poly: Polygon)
    requires 2 <= |below| && below[0] == p0 && below[1] == p1
    requires board.Fits(poly, below)
    ensures FitsOnPair(board.geo, board.boundary, p0.polygon, p1.polygon, poly)
  {
  }

  /** No P2 pose passes its check against P0 and P1. */
  predicate NoP2Fit(geo: Oracle, boundary: Polygon, poly0: Polygon, poly1: Polygon, orig2: Polygon, poses: seq<Pose>)
  {
    forall k :: 0 <= k < |poses| ==> !FitsOnPair(geo, boundary, poly0, poly1, Placed(geo, orig2, poses[k]))
  }

  /** No P3 pose passes its check, the first against [P0, P1] and every later
      one against [P0, P1, P3]. */
  predicate NoP3Fit(geo: Oracle, boundary: Polygon, poly0: Polygon, poly1: Polygon, orig3: Polygon, poses: seq<Pose>)
  {
    forall k :: 0 <= k < |poses| ==> !P3Fits(geo, boundary, poly0, poly1, Placed(geo, orig3, poses[k]), k != 0)
  }

  /** With P0 at `poly0` and P1 at `poly1`, the P2 and P3 loops find nothing:
      no P2 pose fits, or no P3 pose does. */
  predicate NoCompletion(geo: Oracle, boundary: Polygon, poly0: Polygon, poly1: Polygon,
                         orig2: Polygon, orig3: Polygon, poses: seq<Pose>)
  {
    NoP2Fit(geo, boundary, poly0, poly1, orig2, poses) || NoP3Fit(geo, boundary, poly0, poly1, orig3, poses)
  }

  /** The P1 pose `poses[k]` leads nowhere with P0 at `poly0`: P1 does not fit
      against P0 there, or the loops above it find nothing. */
  predicate DeadP1(geo: Oracle, boundary: Polygon, poly0: Polygon, orig1: Polygon, orig2: Polygon, orig3: Polygon,
                   poses: seq<Pose>, k: nat)
    requires k < |poses|
  {
    var poly1 := Placed(geo, orig1, poses[k]);
    geo.contains(boundary, poly1) && !geo.overlaps(poly1, poly0) ==>
      NoCompletion(geo, boundary, poly0, poly1, orig2, orig3, poses)
  }

  /** The quadrant pose `q1[k]` leads nowhere: P0 does not fit on the empty
      board there, or no P1 pose of `all` leads anywhere above it. */
  predicate DeadP0(geo: Oracle, boundary: Polygon, orig0: Polygon, orig1: Polygon, orig2: Polygon, orig3: Polygon,
                   q1: seq<Pose>, all: seq<Pose>, k: nat)
    requires k < |q1|
  {
    var poly0 := Placed(geo, orig0, q1[k]);
    geo.contains(boundary, poly0) ==>
      forall j :: 0 <= j < |all| ==> DeadP1(geo, boundary, poly0, orig1, orig2, orig3, all, j)
  }

  /** The whole search finds nothing: every quadrant pose of P0 leads nowhere. */
  predicate NoSolution(geo: Oracle, boundary: Polygon, orig0: Polygon, orig1: Polygon, orig2: Polygon,
                       orig3: Polygon, q1: seq<Pose>, all: seq<Pose>)
  {
    forall k :: 0 <= k < |q1| ==> DeadP0(geo, boundary, orig0, orig1, orig2, orig3, q1, all, k)
  }

  /** A P2 pose that fits and a P3 pose that passes make a completion. */
  lemma Completion(geo: Oracle, boundary: Polygon, poly0: Polygon, poly1: Polygon, orig2: Polygon, orig3: Polygon,
                   poses: seq<Pose>, k2: nat, k3: nat)
    requires k2 < |poses| && k3 < |poses|
    requires FitsOnPair(geo, boundary, poly0, poly1, Placed(geo, orig2, poses[k2]))
    requires P3Fits(geo, boundary, poly0, poly1, Placed(geo, orig3, poses[k3]), k3 != 0)
    ensures !NoCompletion(geo, boundary, poly0, poly1, orig2, orig3, poses)
  {
  }

  /** A quadrant pose at which P0 fits, with a P1 pose above it that leads on,
      is a solution. */
  lemma SolutionFound(geo: Oracle, boundary: Polygon, orig0: Polygon, orig1: Polygon, orig2: Polygon, orig3: Polygon,
                      q1: seq<Pose>, all: seq<Pose>, k0: nat, k1: nat)
    requires k0 < |q1| && k1 < |all|
    requires geo.contains(boundary, Placed(geo, orig0, q1[k0]))
    requires !DeadP1(geo, boundary, Placed(geo, orig0, q1[k0]), orig1, orig2, orig3, all, k1)
    ensures !NoSolution(geo, boundary, orig0, orig1, orig2, orig3, q1, all)
  {
    assert !DeadP0(geo, boundary, orig0, orig1, orig2, orig3, q1, all, k0);
  }

  /** Searches for the quadrant pose of P0 and, below each one that fits,
      for the poses of P1, P2 and P3. On success the board returned is the
      stack at the moment the last P3 placement fitted: P0, P1, then P3 once
      or twice (P2 is not on it), the top P3 entry fitting against everything
      below it; each of P0, P1 and P2 had been placed successfully on the way.
      After the last quadrant pose the result is (false, null). With four
      distinct pieces the result is false exactly when no quadrant pose of P0
      leads to a solution over the two grid lists (which `SortedUnique` shows
      are unique). */
  method Solve(geo: Oracle, pieces: seq<Piece>) returns (found: bool, board: Board?)
    requires |pieces| == 4
    modifies pieces
    ensures !found ==> board == null
    ensures found ==> board != null && fresh(board) && board.Valid()
    ensures found ==> board.geo == geo && board.boundary == Box(BoardWidth, BoardHeight)
    ensures found ==> Solution(board, pieces[0], pieces[1], pieces[2], pieces[3])
    ensures found ==> InGrid(board.poses[0], Nx / 2, Ny / 2, Nt)
    // with four distinct pieces, the result is false exactly when the search finds nothing on the grid
    ensures Distinct(pieces[0], pieces[1], pieces[2], pieces[3]) ==>
      exists q1, all :: IsGrid(all, Nx, Ny, Nt) && IsGrid(q1, Nx / 2, Ny / 2, Nt) &&
        (!found <==> NoSolution(geo, Box(BoardWidth, BoardHeight), pieces[0].original, pieces[1].original,
                                pieces[2].original, pieces[3].original, q1, all))
  {
    board := new Board(geo, BoardWidth, BoardHeight);

    var posesAll := MakePoses(Nx, Ny, Nt);
    var posesQ1 := MakePoses(Nx / 2, Ny / 2, Nt);
    QuadrantOfGrid(posesAll, posesQ1, Nx, Ny, Nt);
    assert Nx / 2 == 5 && Ny / 2 == 5;
    assert |posesAll| == 2000 && |posesQ1| == 500;

    found := SearchP0(board, pieces[0], pieces[1], pieces[2], pieces[3], posesQ1, posesAll);
    if !found {
      board := null;
    }
  }

  /** The P0 loop: each quadrant pose is tried on an emptied board, and the
      P1 loop runs above every one that fits. */
  method SearchP0(board: Board, p0: Piece, p1: Piece, p2: Piece, p3: Piece, posesQ1: seq<Pose>, posesAll: seq<Pose>)
    returns (found: bool)
    requires board.Valid()
    requires forall p :: p in posesQ1 ==> InGrid(p, Nx / 2, Ny / 2, Nt)
    requires forall p :: p in posesAll ==> InGrid(p, Nx, Ny, Nt)
    modifies board, p0, p1, p2, p3
    ensures board.Valid()
    ensures found ==> Solution(board, p0, p1, p2, p3) && InGrid(board.poses[0], Nx / 2, Ny / 2, Nt)
    // with distinct pieces, the result is false exactly when no quadrant pose of P0 leads anywhere
    ensures Distinct(p0, p1, p2, p3) ==>
      (!found <==> NoSolution(board.geo, board.boundary, p0.original, p1.original, p2.original, p3.original,
                              posesQ1, posesAll))
  {
    found := false;
    for i0 := 0 to |posesQ1|
      invariant board.Valid()
      invariant Distinct(p0, p1, p2, p3) ==> forall k :: 0 <= k < i0 ==>
        DeadP0(board.geo, board.boundary, p0.original, p1.original, p2.original, p3.original, posesQ1, posesAll, k)
    {
      var pose0 := posesQ1[i0];
      assert pose0 in posesQ1;
      board.Clear(-1);
      var success0 := board.Place(p0, pose0, true);
      assert |board.pieces| == 1;
      assert success0 == board.geo.contains(board.boundary, p0.polygon);

      if success0 {
        found := SearchP1(board, p0, p1, p2, p3, pose0, posesAll);
        if found {
          if Distinct(p0, p1, p2, p3) {
            ghost var k1 :| 0 <= k1 < |posesAll| &&
              !DeadP1(board.geo, board.boundary, p0.polygon, p1.original, p2.original, p3.original, posesAll, k1);
            SolutionFound(board.geo, board.boundary, p0.original, p1.original, p2.original, p3.original,
                          posesQ1, posesAll, i0, k1);
          }
          return;
        }
      }
      assert Distinct(p0, p1, p2, p3) ==>
        DeadP0(board.geo, board.boundary, p0.original, p1.original, p2.original, p3.original, posesQ1, posesAll, i0);
    }
  }

  /** The P1 loop, run after P0 fitted at `pose0`. */
  method SearchP1(board: Board, p0: Piece, p1: Piece, p2: Piece, p3: Piece, pose0: Pose, posesAll: seq<Pose>)
    returns (found: bool)
    requires board.Valid() && board.pieces == [p0] && board.poses == [pose0]
    requires InGrid(pose0, Nx / 2, Ny / 2, Nt)
    requires forall p :: p in posesAll ==> InGrid(p, Nx, Ny, Nt)
    requires p0.polygon == Placed(board.geo, p0.original, pose0)
    requires board.geo.contains(board.boundary, p0.polygon)
    modifies board, p1, p2, p3
    ensures board.Valid() && 1 <= |board.pieces|
    ensures board.pieces[0] == p0 && board.poses[0] == pose0
    ensures found ==> Solution(board, p0, p1, p2, p3)
    // a false result means every P1 pose leads nowhere above P0, a true one that some P1 pose leads on
    ensures !found && Distinct(p0, p1, p2, p3) ==> forall k :: 0 <= k < |posesAll| ==>
      DeadP1(board.geo, board.boundary, p0.polygon, p1.original, p2.original, p3.original, posesAll, k)
    ensures found && Distinct(p0, p1, p2, p3) ==>
      (exists k :: 0 <= k < |posesAll| &&
         !DeadP1(board.geo, board.boundary, p0.polygon, p1.original, p2.original, p3.original, posesAll, k))
  {
    found := false;
    for i1 := 0 to |posesAll|
      invariant board.Valid() && 1 <= |board.pieces|
      invariant board.pieces[0] == p0 && board.poses[0] == pose0
      invariant Distinct(p0, p1, p2, p3) ==> p0.polygon == Placed(board.geo, p0.original, pose0)
      invariant Distinct(p0, p1, p2, p3) ==> forall k :: 0 <= k < i1 ==>
        DeadP1(board.geo, board.boundary, p0.polygon, p1.original, p2.original, p3.original, posesAll, k)
    {
      var pose1 := posesAll[i1];
      assert pose1 in posesAll;
      board.Clear(0);
      ghost var below := board.pieces;
      var success1 := board.Place(p1, pose1, true);
      CheckOnP0(board, below, p0, p1);
      assert |board.pieces| == 2;
      ghost var poly1 := p1.polygon;

      if success1 {
        ghost var pose2;
        found, pose2 := SearchP2(board, p0, p1, p2, p3, pose0, pose1, posesAll);
        if found {
          if Distinct(p0, p1, p2, p3) {
            P2NotOnStack(board, p0, p1, p2, p3, pose0, pose1);
            assert !DeadP1(board.geo, board.boundary, p0.polygon, p1.original, p2.original, p3.original, posesAll, i1);
          }
          return;
        }
        assert Distinct(p0, p1, p2, p3) ==>
          NoCompletion(board.geo, board.boundary, p0.polygon, poly1, p2.original, p3.original, posesAll);
      }
      assert Distinct(p0, p1, p2, p3) ==>
        DeadP1(board.geo, board.boundary, p0.polygon, p1.original, p2.original, p3.original, posesAll, i1);
    }
  }

  /** The P2 loop, run after P1 fitted at `pose1`; `pose2` is the pose at
      which P2 fitted when P3 then fitted too. Until the first P2 pose fits,
      P2 is checked against [P0, P1] alone; from then on the P3 search it
      starts always sees P0 and P1 at the same polygons, so it cannot succeed
      later if it failed once. */
  method SearchP2(board: Board, p0: Piece, p1: Piece, p2: Piece, p3: Piece, pose0: Pose, pose1: Pose,
                  posesAll: seq<Pose>)
    returns (found: bool, ghost pose2: Pose)
    requires board.Valid() && board.pieces == [p0, p1] && board.poses == [pose0, pose1]
    requires InGrid(pose1, Nx, Ny, Nt)
    requires forall p :: p in posesAll ==> InGrid(p, Nx, Ny, Nt)
    modifies board, p2, p3
    ensures UpperStack(board, p0, p1, p3, pose0, pose1)
    ensures found ==> (|board.pieces| == 3 || |board.pieces| == 4) && TopFits(board, p3) && InGrid(pose2, Nx, Ny, Nt)
    ensures found && Distinct(p0, p1, p2, p3) ==>
      && p2.polygon == Placed(board.geo, p2.original, pose2)
      && board.geo.contains(board.boundary, p2.polygon)
      && !board.geo.overlaps(p2.polygon, p0.polygon)
      && !board.geo.overlaps(p2.polygon, p1.polygon)
    // the result is false exactly when no P2 pose fits against P0 and P1, or no P3 pose passes its check
    ensures Distinct(p0, p1, p2, p3) ==>
      (!found <==> NoCompletion(board.geo, board.boundary, p0.polygon, p1.polygon, p2.original, p3.original, posesAll))
  {
    found, pose2 := false, pose1;
    ghost var started := false;
    for i2 := 0 to |posesAll|
      invariant UpperStack(board, p0, p1, p3, pose0, pose1)
      invariant !started ==> |board.pieces| == 2
      invariant Distinct(p0, p1, p2, p3) && !started ==> forall k :: 0 <= k < i2 ==>
        !FitsOnPair(board.geo, board.boundary, p0.polygon, p1.polygon, Placed(board.geo, p2.original, posesAll[k]))
      invariant Distinct(p0, p1, p2, p3) && started ==>
        NoP3Fit(board.geo, board.boundary, p0.polygon, p1.polygon, p3.original, posesAll)
    {
      var pose := posesAll[i2];
      assert pose in posesAll;
      pose2 := pose;
      ghost var below := board.pieces;
      var success2 := board.Place(p2, pose, true);
      if Distinct(p0, p1, p2, p3) && !started {
        CheckOnStack(board, below, p0, p1, p2);
      }
      if Distinct(p0, p1, p2, p3) && success2 {
        FitsOnBottom(board, below, p0, p1, p2.polygon);
      }
      board.Clear(1);
      assert |board.pieces| == 2;

      if success2 {
        assert below[0] == p0 && below[1] == p1;
        ghost var k3;
        found, k3 := SearchP3(board, p0, p1, p3, pose0, pose1, posesAll);
        started := true;
        if found {
          if Distinct(p0, p1, p2, p3) {
            Completion(board.geo, board.boundary, p0.polygon, p1.polygon, p2.original, p3.original, posesAll, i2, k3);
          }
          return;
        }
      }
    }
  }

  /** The P3 loop, run after P2 fitted; P2 itself is already off the stack.
      It stops at the first P3 pose that passes its check; `k3` is that
      pose's position. */
  method SearchP3(board: Board, p0: Piece, p1: Piece, p3: Piece, pose0: Pose, pose1: Pose,
                  posesAll: seq<Pose>)
    returns (found: bool, ghost k3: nat)
    requires board.Valid() && board.pieces == [p0, p1] && board.poses == [pose0, pose1]
    requires InGrid(pose1, Nx, Ny, Nt)
    requires forall p :: p in posesAll ==> InGrid(p, Nx, Ny, Nt)
    modifies board, p3
    ensures UpperStack(board, p0, p1, p3, pose0, pose1)
    ensures found ==> (|board.pieces| == 3 || |board.pieces| == 4) && TopFits(board, p3)
    // with P3 a third object: the first pose that passes is the one on top
    ensures found && p3 != p0 && p3 != p1 ==>
      && k3 < |posesAll| && board.poses[|board.poses| - 1] == posesAll[k3]
      && P3Fits(board.geo, board.boundary, p0.polygon, p1.polygon, Placed(board.geo, p3.original, posesAll[k3]), k3 != 0)
      && forall k :: 0 <= k < k3 ==>
           !P3Fits(board.geo, board.boundary, p0.polygon, p1.polygon, Placed(board.geo, p3.original, posesAll[k]), k != 0)
    // and a false result means that no pose passes
    ensures !found && p3 != p0 && p3 != p1 ==>
      NoP3Fit(board.geo, board.boundary, p0.polygon, p1.polygon, p3.original, posesAll)
  {
    found, k3 := false, 0;
    for i3 := 0 to |posesAll|
      invariant UpperStack(board, p0, p1, p3, pose0, pose1)
      invariant i3 == 0 ==> |board.pieces| == 2
      invariant i3 != 0 ==> |board.pieces| >= 3
      invariant p3 != p0 && p3 != p1 ==> forall k :: 0 <= k < i3 ==>
        !P3Fits(board.geo, board.boundary, p0.polygon, p1.polygon, Placed(board.geo, p3.original, posesAll[k]), k != 0)
    {
      var pose3 := posesAll[i3];
      assert pose3 in posesAll;
      board.Clear(2);
      ghost var below := board.pieces;
      assert |below| == (if i3 == 0 then 2 else 3);
      found := board.Place(p3, pose3, true);
      k3 := i3;
      if p3 != p0 && p3 != p1 {
        CheckOnStack(board, below, p0, p1, p3);
      }
      if found {
        return;
      }
    }
  }
}
