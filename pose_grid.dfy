/** Discretisation of the placement space (solve.py, `solve`, lines 97-113).
    The full candidate list is the Cartesian product of nx x offsets, ny y
    offsets and nt angles, enumerated x-major, then y, then angle; the
    quadrant list is the same enumeration over the first half of the x and y
    values. */
module PoseGrid {
  import opened Geometry

  /** The pose lies on the nx-by-ny-by-nt grid. */
  predicate InGrid(p: Pose, nx: nat, ny: nat, nt: nat)
  {
    p.x < nx && p.y < ny && p.theta < nt
  }

  /** Lexicographic order on poses: x first, then y, then the angle. */
  predicate LexLess(p: Pose, q: Pose)
  {
    p.x < q.x || (p.x == q.x && (p.y < q.y || (p.y == q.y && p.theta < q.theta)))
  }

  predicate StrictlySorted(s: seq<Pose>)
  {
    forall i, j :: 0 <= i < j < |s| ==> LexLess(s[i], s[j])
  }

  /** Position of a grid pose in the x-major, y, angle-minor enumeration. */
  function GridIndex(p: Pose, ny: nat, nt: nat): nat
  {
    (p.x * ny + p.y) * nt + p.theta
  }

  /** `s` is the whole grid, each pose once, in x-major, y, angle-minor order. */
  ghost predicate IsGrid(s: seq<Pose>, nx: nat, ny: nat, nt: nat)
  {
    && |s| == nx * ny * nt
    && StrictlySorted(s)
    && (forall p :: p in s <==> InGrid(p, nx, ny, nt))
    && (forall p :: InGrid(p, nx, ny, nt) ==> GridIndex(p, ny, nt) < |s| && s[GridIndex(p, ny, nt)] == p)
  }

  /** `ps` enumerates, in order, exactly the grid poses that come before `cur`. */
  ghost predicate EnumeratedBefore(ps: seq<Pose>, nx: nat, ny: nat, nt: nat, cur: Pose)
  {
    && |ps| == GridIndex(cur, ny, nt)
    && StrictlySorted(ps)
    && (forall p :: p in ps <==> InGrid(p, nx, ny, nt) && LexLess(p, cur))
    && (forall p :: InGrid(p, nx, ny, nt) && LexLess(p, cur) ==>
                     GridIndex(p, ny, nt) < |ps| && ps[GridIndex(p, ny, nt)] == p)
  }

  /** Appending the current pose moves the enumeration one angle on. */
  lemma AppendNext(ps: seq<Pose>, nx: nat, ny: nat, nt: nat, cur: Pose)
    requires EnumeratedBefore(ps, nx, ny, nt, cur) && InGrid(cur, nx, ny, nt)
    ensures EnumeratedBefore(ps + [cur], nx, ny, nt, Pose(cur.x, cur.y, cur.theta + 1))
  {
  }

  /** After the last angle the enumeration continues at the next y index,
      after the last y index at the next x index. */
  lemma NextRow(ps: seq<Pose>, nx: nat, ny: nat, nt: nat, x: nat, y: nat)
    requires EnumeratedBefore(ps, nx, ny, nt, Pose(x, y, nt))
    ensures EnumeratedBefore(ps, nx, ny, nt, Pose(x, y + 1, 0))
  {
    assert (x * ny + y) * nt + nt == (x * ny + y + 1) * nt;
  }

  lemma NextColumn(ps: seq<Pose>, nx: nat, ny: nat, nt: nat, x: nat)
    requires EnumeratedBefore(ps, nx, ny, nt, Pose(x, ny, 0))
    ensures EnumeratedBefore(ps, nx, ny, nt, Pose(x + 1, 0, 0))
  {
  }

  /** The triple nested loop that appends (x, y, theta) for every grid index. */
  method MakePoses(nx: nat, ny: nat, nt: nat) returns (ps: seq<Pose>)
    ensures IsGrid(ps, nx, ny, nt)
  {
    ps := [];
    var x := 0;
    while x < nx
      invariant 0 <= x <= nx
      invariant EnumeratedBefore(ps, nx, ny, nt, Pose(x, 0, 0))
    {
      var y := 0;
      while y < ny
        invariant 0 <= y <= ny
        invariant EnumeratedBefore(ps, nx, ny, nt, Pose(x, y, 0))
      {
        var t := 0;
        while t < nt
          invariant 0 <= t <= nt
          invariant EnumeratedBefore(ps, nx, ny, nt, Pose(x, y, t))
        {
          AppendNext(ps, nx, ny, nt, Pose(x, y, t));
          ps := ps + [Pose(x, y, t)];
          t := t + 1;
        }
        NextRow(ps, nx, ny, nt, x, y);
        y := y + 1;
      }
      NextColumn(ps, nx, ny, nt, x);
      x := x + 1;
    }
    assert GridIndex(Pose(nx, 0, 0), ny, nt) == nx * ny * nt;
  }

  lemma MulAtLeast(d: int, n: int)
    requires d >= 1 && n > 0
    ensures d * n >= n
  {
  }

  /** Euclidean division has a unique quotient and remainder. */
  lemma DivModOf(a: int, n: int, q: int, r: int)
    requires n > 0 && 0 <= r < n && a == q * n + r
    ensures a / n == q && a % n == r
  {
    var q', r' := a / n, a % n;
    assert q * n - q' * n == r' - r;
    assert (q - q') * n == q * n - q' * n;
    assert q' * n - q * n == (q' - q) * n;
    if q - q' >= 1 { MulAtLeast(q - q', n); }
    if q' - q >= 1 { MulAtLeast(q' - q, n); }
  }

  /** The position formula can be read back with div and mod. */
  lemma DecodeIndex(p: Pose, ny: nat, nt: nat)
    requires p.y < ny && p.theta < nt
    ensures var i := GridIndex(p, ny, nt); p == Pose(i / (ny * nt), (i / nt) % ny, i % nt)
  {
    var i := GridIndex(p, ny, nt);
    var m := p.x * ny + p.y;
    var r := p.y * nt + p.theta;
    DivModOf(i, nt, m, p.theta);
    DivModOf(m, ny, p.x, p.y);
    assert i == p.x * (ny * nt) + r by {
      assert (p.x * ny + p.y) * nt == p.x * ny * nt + p.y * nt;
    }
    assert r < ny * nt by {
      MulAtLeast(ny - p.y, nt);
      assert (ny - p.y) * nt == ny * nt - p.y * nt;
    }
    DivModOf(i, ny * nt, p.x, r);
  }

  /** Decoding a position: entry i of the grid list is the pose whose angle
      index is i mod nt, whose y index is (i div nt) mod ny and whose x index
      is i div (ny * nt). */
  lemma GridAt(s: seq<Pose>, nx: nat, ny: nat, nt: nat, i: nat)
    requires IsGrid(s, nx, ny, nt) && i < |s|
    ensures s[i] == Pose(i / (ny * nt), (i / nt) % ny, i % nt)
  {
    var p := s[i];
    assert p in s;
    var k := GridIndex(p, ny, nt);
    assert s[k] == p;
    assert k == i;
    DecodeIndex(p, ny, nt);
  }

  /** Reference definition of the quadrant list: the poses of `s` whose x and
      y indices are below the given bounds, in their order in `s`. */
  function Quadrant(s: seq<Pose>, hx: nat, hy: nat): (r: seq<Pose>)
    ensures forall p :: p in r <==> p in s && p.x < hx && p.y < hy
    ensures StrictlySorted(s) ==> StrictlySorted(r)
  {
    if s == [] then []
    else if s[0].x < hx && s[0].y < hy then
      var rest := Quadrant(s[1..], hx, hy);
      assert StrictlySorted(s) ==> forall p :: p in rest ==> LexLess(s[0], p) by {
        if StrictlySorted(s) {
          forall p | p in rest ensures LexLess(s[0], p) {
            var j :| 0 <= j < |s[1..]| && s[1..][j] == p;
            assert s[j + 1] == p;
          }
        }
      }
      [s[0]] + rest
    else Quadrant(s[1..], hx, hy)
  }

  /** Two strictly sorted lists with the same members are the same list. */
  lemma {:induction false} SortedUnique(a: seq<Pose>, b: seq<Pose>)
    requires StrictlySorted(a) && StrictlySorted(b)
    requires forall p :: p in a <==> p in b
    ensures a == b
  {
    // a first element of one list is a member of the other
    assert a != [] ==> a[0] in b;
    assert b != [] ==> b[0] in a;
    if a != [] {
      // the least member of each list is the other's first element
      var i :| 0 <= i < |a| && a[i] == b[0];
      var j :| 0 <= j < |b| && b[j] == a[0];
      assert a[0] == b[0];
      forall p ensures p in a[1..] <==> p in b[1..] {
        if p in a[1..] {
          var i :| 0 <= i < |a[1..]| && a[1..][i] == p;
          assert LexLess(a[0], a[i + 1]);
          assert p in b;
          var j :| 0 <= j < |b| && b[j] == p;
          assert j != 0;
          assert b[1..][j - 1] == p;
        }
        if p in b[1..] {
          var j :| 0 <= j < |b[1..]| && b[1..][j] == p;
          assert LexLess(b[0], b[j + 1]);
          assert p in a;
          var i :| 0 <= i < |a| && a[i] == p;
          assert i != 0;
          assert a[1..][i - 1] == p;
        }
      }
      SortedUnique(a[1..], b[1..]);
      assert a == [a[0]] + a[1..] && b == [b[0]] + b[1..];
    }
  }

  /** The quadrant grid is exactly the full grid filtered to x < nx/2 and
      y < ny/2, in the same relative order. */
  lemma {:induction false} QuadrantOfGrid(all: seq<Pose>, q1: seq<Pose>, nx: nat, ny: nat, nt: nat)
    requires IsGrid(all, nx, ny, nt)
    requires IsGrid(q1, nx / 2, ny / 2, nt)
    ensures q1 == Quadrant(all, nx / 2, ny / 2)
    ensures |Quadrant(all, nx / 2, ny / 2)| == (nx / 2) * (ny / 2) * nt
  {
    SortedUnique(q1, Quadrant(all, nx / 2, ny / 2));
  }
}
