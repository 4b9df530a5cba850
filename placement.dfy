/** Pieces and the board (solve.py lines 11-90).
    A piece keeps its reference polygon and a current polygon that every
    `Transform` overwrites. The board keeps two parallel lists, the placed
    pieces (references to the piece objects, not copies) and the poses they
    were placed at; together they are the backtracking stack of the search. */
module Placement {
  import opened Geometry

  function Min(a: int, b: int): int
  {
    if a < b then a else b
  }

  /** The slice of `s` up to and including position ii, as Python's
      `s[:ii + 1]` for ii >= -1: the whole of `s` when it is shorter. */
  function KeepThrough<T>(s: seq<T>, ii: int): (r: seq<T>)
    requires ii >= -1
    ensures |r| == Min(ii + 1, |s|)
    ensures r == s[..|r|]
  {
    if ii + 1 < |s| then s[..ii + 1] else s
  }

  class Piece {
    const original: Polygon
    var polygon: Polygon

    constructor (poly: Polygon)
      ensures original == poly && polygon == poly
    {
      original := poly;
      polygon := poly;
    }

    /** Moves the piece to `pose`, always starting from the reference polygon:
        the new polygon depends on the pose alone, not on earlier poses. */
    method Transform(geo: Oracle, pose: Pose)
      modifies this
      ensures polygon == Placed(geo, original, pose)
    {
      polygon := geo.translate(original, pose.x, pose.y);
      polygon := geo.rotate(polygon, pose.theta);
    }
  }

  class Board {
    const geo: Oracle
    const width: real
    const height: real
    const boundary: Polygon
    var pieces: seq<Piece>
    var poses: seq<Pose>

    /** The placement rule: `poly` lies inside the boundary and overlaps none
        of the current polygons of `others`. */
    predicate Fits(poly: Polygon, others: seq<Piece>)
      reads others
    {
      geo.contains(boundary, poly) && forall i :: 0 <= i < |others| ==> !geo.overlaps(poly, others[i].polygon)
    }

    /** The two stacks always have the same depth. */
    ghost predicate Valid()
      reads this
    {
      |pieces| == |poses|
    }

    constructor (geo: Oracle, width: real, height: real)
      ensures Valid()
      ensures this.geo == geo && this.width == width && this.height == height
      ensures boundary == Box(width, height)
      ensures pieces == [] && poses == []
    {
      this.geo := geo;
      this.width := width;
      this.height := height;
      boundary := Box(width, height);
      pieces := [];
      poses := [];
    }

    /** Moves `piece` to `pose` and reports whether it fits: inside the
        boundary and overlapping none of the listed pieces, each of them as
        it currently lies (the piece itself included, if it is listed). The
        piece is pushed when it fits, or in any case when `allowOverlap`. */
    method Place(piece: Piece, pose: Pose, allowOverlap: bool) returns (allowed: bool)
      requires Valid()
      modifies this, piece
      ensures Valid()
      ensures piece.polygon == Placed(geo, piece.original, pose)
      ensures allowed == Fits(piece.polygon, old(pieces))
      ensures !geo.contains(boundary, piece.polygon) ==> !allowed
      ensures allowed || allowOverlap ==> pieces == old(pieces) + [piece] && poses == old(poses) + [pose]
      ensures !allowed && !allowOverlap ==> pieces == old(pieces) && poses == old(poses)
    {
      allowed := true;
      piece.Transform(geo, pose);

      if !geo.contains(boundary, piece.polygon) {
        allowed := false;
      } else {
        var i := 0;
        while i < |pieces|
          invariant 0 <= i <= |pieces|
          invariant allowed
          invariant forall j :: 0 <= j < i ==> !geo.overlaps(piece.polygon, pieces[j].polygon)
        {
          if geo.overlaps(piece.polygon, pieces[i].polygon) {
            allowed := false;
            break;
          }
          i := i + 1;
        }
      }

      if allowed || allowOverlap {
        pieces := pieces + [piece];
        poses := poses + [pose];
      }
    }

    /** Keeps the entries at positions 0..ii of both stacks and drops the rest. */
    method Clear(ii: int)
      requires Valid()
      requires ii >= -1
      modifies this
      ensures Valid()
      ensures pieces == KeepThrough(old(pieces), ii) && poses == KeepThrough(old(poses), ii)
      ensures |old(pieces)| <= ii + 1 ==> pieces == old(pieces) && poses == old(poses)
    {
      if ii + 1 < |pieces| {
        pieces := pieces[..ii + 1];
        poses := poses[..ii + 1];
      }
    }
  }
}
