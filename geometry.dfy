/** The geometry the pose search relies on, kept abstract.
    The solver never looks inside a polygon: it only transforms a reference
    polygon by a pose and asks two yes/no questions (is it inside the board,
    does it overlap another piece). Those questions are answered by a
    floating-point geometry library, which this model takes as an oracle
    value handed in by the caller. */
module Geometry {

  datatype Point = Point(x: real, y: real)

  /** A polygon as its vertex list; its contents are never inspected here. */
  type Polygon = seq<Point>

  /** A pose on the search grid: the indices of the x offset, the y offset
      and the rotation angle among the evenly spaced grid values. */
  datatype Pose = Pose(x: nat, y: nat, theta: nat)

  /** The external geometry capability, one total function per library call:
      - translate(poly, i, j): shift by the i-th x value and the j-th y value;
      - rotate(poly, k): rotate by the k-th angle, in radians;
      - contains(outer, inner): inner lies inside outer;
      - overlaps(a, b): the two polygons overlap. */
  datatype Oracle = Oracle(
    translate: (Polygon, nat, nat) -> Polygon,
    rotate: (Polygon, nat) -> Polygon,
    contains: (Polygon, Polygon) -> bool,
    overlaps: (Polygon, Polygon) -> bool)

  /** The reference polygon moved to a pose: translated first, then rotated. */
  function Placed(geo: Oracle, original: Polygon, pose: Pose): Polygon
  {
    geo.rotate(geo.translate(original, pose.x, pose.y), pose.theta)
  }

  /** The axis-aligned rectangle [0, width] x [0, height], vertices
      counter-clockwise from the lower right corner. */
  function Box(width: real, height: real): Polygon
  {
    [Point(width, 0.0), Point(width, height), Point(0.0, height), Point(0.0, 0.0)]
  }
}
