/** Rigid motions of the plane shared by the georeferencing scripts. */
module Plane {
  import opened Analysis
  import opened Geometry

  /** Counter-clockwise rotation by the angle whose cosine is `c` and sine is `s`:
      the matrix [[c, -s], [s, c]] applied to `p`. */
  function Rotate(p: Point2, c: real, s: real): Point2 {
    Point2(c * p.x - s * p.y, s * p.x + c * p.y)
  }

  /** The georeferencing formula of the scripts, (x c + y s + dx, -x s + y c + dy):
      a clockwise turn by the angle with cosine `c` and sine `s`, then a shift. */
  function TurnAndShift(p: Point2, c: real, s: real, dx: real, dy: real): Point2 {
    Point2(p.x * c + p.y * s + dx, -1.0 * p.x * s + p.y * c + dy)
  }

  function Offset(p: Point2, dx: real, dy: real): Point2 {
    Point2(p.x + dx, p.y + dy)
  }

  function Scale2(p: Point2, k: real): Point2 {
    Point2(k * p.x, k * p.y)
  }

  /** Both coordinates rounded to millimetres (`round(v, 3)`). */
  function RoundPoint(p: Point2): (q: Point2)
    ensures -0.0005 <= q.x - p.x <= 0.0005 && -0.0005 <= q.y - p.y <= 0.0005
  {
    RoundToMillimetre(p.x);
    RoundToMillimetre(p.y);
    Point2(Round(p.x, 3), Round(p.y, 3))
  }

  /** A per-vertex map over a ring, keeping order. */
  function MapRing(f: Point2 -> Point2, ring: Ring): (r: Ring)
    ensures |r| == |ring| && forall i :: 0 <= i < |ring| ==> r[i] == f(ring[i])
  {
    if |ring| == 0 then [] else [f(ring[0])] + MapRing(f, ring[1..])
  }

  /** Squared Euclidean distance. */
  function Dist2(p: Point2, q: Point2): real {
    (p.x - q.x) * (p.x - q.x) + (p.y - q.y) * (p.y - q.y)
  }

  /** The horizontal part of a 3D point. */
  function Xy(v: Point3): Point2 {
    Point2(v.x, v.y)
  }

  /** The georeferencing formula is the rotation by the opposite angle followed by
      the offset. */
  lemma TurnAndShiftIsRotateThenOffset(p: Point2, c: real, s: real, dx: real, dy: real)
    ensures TurnAndShift(p, c, s, dx, dy) == Offset(Rotate(p, c, -s), dx, dy)
  {
  }

  /** A rotation (c^2 + s^2 = 1) keeps distances. */
  lemma RotateKeepsDistance(p: Point2, q: Point2, c: real, s: real)
    requires c * c + s * s == 1.0
    ensures Dist2(Rotate(p, c, s), Rotate(q, c, s)) == Dist2(p, q)
  {
    var dx := p.x - q.x;
    var dy := p.y - q.y;
    var rx := c * dx - s * dy;
    var ry := s * dx + c * dy;
    assert Rotate(p, c, s).x - Rotate(q, c, s).x == rx;
    assert Rotate(p, c, s).y - Rotate(q, c, s).y == ry;
    assert rx * rx + ry * ry == (c * c + s * s) * (dx * dx + dy * dy);
  }

  /** A translation keeps distances. */
  lemma OffsetKeepsDistance(p: Point2, q: Point2, dx: real, dy: real)
    ensures Dist2(Offset(p, dx, dy), Offset(q, dx, dy)) == Dist2(p, q)
  {
  }

  /** Rotating by the angle and then by its opposite gives the point back. */
  lemma RotateInverse(p: Point2, c: real, s: real)
    requires c * c + s * s == 1.0
    ensures Rotate(Rotate(p, c, s), c, -s) == p
  {
    var r := Rotate(p, c, s);
    assert c * r.x + s * r.y == (c * c + s * s) * p.x;
    assert -s * r.x + c * r.y == (c * c + s * s) * p.y;
  }

  /** Scaling multiplies squared distances by the square of the factor. */
  lemma ScaleDistance(p: Point2, q: Point2, k: real)
    ensures Dist2(Scale2(p, k), Scale2(q, k)) == k * k * Dist2(p, q)
  {
    var dx := p.x - q.x;
    var dy := p.y - q.y;
    assert Scale2(p, k).x - Scale2(q, k).x == k * dx;
    assert Scale2(p, k).y - Scale2(q, k).y == k * dy;
    assert (k * dx) * (k * dx) + (k * dy) * (k * dy) == k * k * (dx * dx + dy * dy);
  }
}
