/** The third step of the georeferencing pipeline: every point is turned in the
    plane about a fixed corner, which stays where it is. */
module RotateScript {
  import opened Analysis
  import opened Geometry
  import opened Plane

  /** `translate`: the point relative to `t`. */
  function Translate(c: Point3, t: Point3): Point3 {
    Sub(c, t)
  }

  /** `inverse_translate`. */
  function InverseTranslate(c: Point3, t: Point3): Point3 {
    Add(c, t)
  }

  /** The two translations undo each other, in both orders. */
  lemma TranslationsAreInverse(c: Point3, t: Point3)
    ensures InverseTranslate(Translate(c, t), t) == c
    ensures Translate(InverseTranslate(c, t), t) == c
  {
  }

  /** `rotate_diagonal`: the matrix [[cos, -sin, 0], [sin, cos, 0], [0, 0, 1]] times
      the point, a counter-clockwise turn about the vertical axis. */
  function RotateDiagonal(m: Analysis, c: Point3, angle: real): (r: Point3)
    ensures r.z == c.z
    ensures Xy(r) == Rotate(Xy(c), m.cos(angle), m.sin(angle))
  {
    Point3(m.cos(angle) * c.x + -m.sin(angle) * c.y + 0.0 * c.z,
           m.sin(angle) * c.x + m.cos(angle) * c.y + 0.0 * c.z,
           0.0 * c.x + 0.0 * c.y + 1.0 * c.z)
  }

  /** The turn fixes the origin and keeps the horizontal distance to it. */
  lemma RotateDiagonalFixesOriginKeepsNorm(m: Analysis, c: Point3, angle: real)
    requires Lawful(m)
    ensures RotateDiagonal(m, Point3(0.0, 0.0, 0.0), angle) == Point3(0.0, 0.0, 0.0)
    ensures Dist2(Xy(RotateDiagonal(m, c, angle)), Point2(0.0, 0.0)) == Dist2(Xy(c), Point2(0.0, 0.0))
  {
    var co := m.cos(angle);
    var si := m.sin(angle);
    assert co * co + si * si == 1.0 by {
      assert m.sin(angle) * m.sin(angle) + m.cos(angle) * m.cos(angle) == 1.0;
    }
    RotateKeepsDistance(Xy(c), Point2(0.0, 0.0), co, si);
    assert Rotate(Point2(0.0, 0.0), co, si) == Point2(0.0, 0.0);
  }

  /** One point through translate, rotate_diagonal and inverse_translate. */
  function TurnAbout(m: Analysis, c: Point3, corner: Point3, angle: real): Point3 {
    InverseTranslate(RotateDiagonal(m, Translate(c, corner), angle), corner)
  }

  /** The script's three list comprehensions, one point at a time, in order. */
  function TurnAllAbout(m: Analysis, coords: seq<Point3>, corner: Point3, angle: real): (r: seq<Point3>)
    ensures |r| == |coords| && forall i :: 0 <= i < |coords| ==> r[i] == TurnAbout(m, coords[i], corner, angle)
  {
    if |coords| == 0 then [] else [TurnAbout(m, coords[0], corner, angle)] + TurnAllAbout(m, coords[1..], corner, angle)
  }

  /** The fixed corner stays fixed, heights are kept, and with a lawful cosine and
      sine every point keeps its horizontal distance to the corner. */
  lemma TurnAboutFixesCorner(m: Analysis, c: Point3, corner: Point3, angle: real)
    requires Lawful(m)
    ensures TurnAbout(m, corner, corner, angle) == corner
    ensures TurnAbout(m, c, corner, angle).z == c.z
    ensures Dist2(Xy(TurnAbout(m, c, corner, angle)), Xy(corner)) == Dist2(Xy(c), Xy(corner))
  {
    RotateDiagonalFixesOriginKeepsNorm(m, Translate(c, corner), angle);
    RotateDiagonalFixesOriginKeepsNorm(m, Translate(corner, corner), angle);
    assert Translate(corner, corner) == Point3(0.0, 0.0, 0.0);
    var t := RotateDiagonal(m, Translate(c, corner), angle);
    assert Xy(TurnAbout(m, c, corner, angle)) == Offset(Xy(t), corner.x, corner.y);
    OffsetKeepsDistance(Xy(t), Point2(0.0, 0.0), corner.x, corner.y);
    assert Dist2(Xy(c), Xy(corner)) == Dist2(Xy(Translate(c, corner)), Point2(0.0, 0.0));
  }

  /** A full turn of the list: every point that is the corner stays put and every
      point keeps its height and its horizontal distance to the corner. */
  lemma TurnAllAboutKeepsCorner(m: Analysis, coords: seq<Point3>, corner: Point3, angle: real)
    requires Lawful(m)
    ensures forall i :: 0 <= i < |coords| && coords[i] == corner ==> TurnAllAbout(m, coords, corner, angle)[i] == corner
    ensures forall i :: 0 <= i < |coords| ==>
      && TurnAllAbout(m, coords, corner, angle)[i].z == coords[i].z
      && Dist2(Xy(TurnAllAbout(m, coords, corner, angle)[i]), Xy(corner)) == Dist2(Xy(coords[i]), Xy(corner))
  {
    forall i | 0 <= i < |coords|
      ensures coords[i] == corner ==> TurnAllAbout(m, coords, corner, angle)[i] == corner
      ensures TurnAllAbout(m, coords, corner, angle)[i].z == coords[i].z
      ensures Dist2(Xy(TurnAllAbout(m, coords, corner, angle)[i]), Xy(corner)) == Dist2(Xy(coords[i]), Xy(corner))
    {
      TurnAboutFixesCorner(m, coords[i], corner, angle);
    }
  }
}
