/** The one-step georeferencing script: the model's 3D Cartesian points are
    georeferenced with the map conversion's origin, height and rotation, and the
    parameters are saved rounded. Its `georeference_coordinates` is the same
    function as the pipeline's second step, `Georef2.GeoreferenceCoordinates`. */
module GeoreferencePy {
  import opened Wrappers
  import opened Analysis
  import opened Geometry
  import Plane
  import Ifc
  import ToolsFootprint
  import Georef2

  /** The points with exactly three coordinates, in their original order. */
  function Extract3d(points: seq<seq<real>>): (r: seq<Point3>)
    ensures |r| <= |points|
  {
    if |points| == 0 then []
    else if |points[0]| == 3 then [Point3(points[0][0], points[0][1], points[0][2])] + Extract3d(points[1..])
    else Extract3d(points[1..])
  }

  /** Extraction works point by point: on a concatenation it concatenates, so the
      order of the kept points is the order of the input. */
  lemma {:induction false} Extract3dConcat(a: seq<seq<real>>, b: seq<seq<real>>)
    ensures Extract3d(a + b) == Extract3d(a) + Extract3d(b)
  {
    if |a| == 0 {
      assert a + b == b;
    } else {
      assert (a + b)[0] == a[0];
      assert (a + b)[1..] == a[1..] + b;
      Extract3dConcat(a[1..], b);
    }
  }

  /** A single point is kept, as a 3D point, exactly when it has three coordinates. */
  lemma Extract3dSingle(p: seq<real>)
    ensures |p| == 3 ==> Extract3d([p]) == [Point3(p[0], p[1], p[2])]
    ensures |p| != 3 ==> Extract3d([p]) == []
  {
    assert [p][1..] == [];
  }

  /** Every kept point is one of the input points with three coordinates. */
  lemma {:induction false} Extract3dSound(points: seq<seq<real>>, k: nat)
    requires k < |Extract3d(points)|
    ensures exists i :: (0 <= i < |points| && |points[i]| == 3
      && Extract3d(points)[k] == Point3(points[i][0], points[i][1], points[i][2]))
  {
    if |points[0]| == 3 && k == 0 {
      assert |points[0]| == 3 && Extract3d(points)[0] == Point3(points[0][0], points[0][1], points[0][2]);
    } else {
      var k' := if |points[0]| == 3 then k - 1 else k;
      Extract3dSound(points[1..], k');
      var i :| 0 <= i < |points[1..]| && |points[1..][i]| == 3
        && Extract3d(points[1..])[k'] == Point3(points[1..][i][0], points[1..][i][1], points[1..][i][2]);
      assert points[i + 1] == points[1..][i];
    }
  }

  /** `get_reference_rd_coordinates` of this script: the rotation is PLUS the
      arctangent of ordinate over abscissa. */
  function ReadReference(m: Analysis, conversions: seq<Ifc.MapConversion>): (r: Result<Georef2.Reference>)
    ensures conversions == [] ==> r == Err(ValueError)
    ensures r.Ok? <==> |conversions| > 0 && Ifc.Divide(conversions[0].xAxisOrdinate, conversions[0].xAxisAbscissa).Ok?
    ensures r.Ok? ==>
      var c := conversions[0];
      r.value.deltaX == c.eastings && r.value.deltaY == c.northings && r.value.height == c.orthometricHeight
  {
    if |conversions| == 0 then Err(ValueError)
    else
      var c := conversions[0];
      var slope :- Ifc.Divide(c.xAxisOrdinate, c.xAxisAbscissa);
      Ok(Georef2.Reference(c.eastings, c.northings, c.orthometricHeight, m.arctan(slope)))
  }

  /** The rotation has the opposite sign to the footprint tool's, from the same
      attributes, and fails on the same inputs apart from the missing entity. */
  lemma RotationIsOppositeOfTool(m: Analysis, conversions: seq<Ifc.MapConversion>)
    ensures ReadReference(m, conversions).Ok? <==> ToolsFootprint.NewMapConversion(m, conversions).Ok?
    ensures ReadReference(m, conversions).Ok? ==>
      ReadReference(m, conversions).value.rotation == -ToolsFootprint.NewMapConversion(m, conversions).value.rotation
  {
  }

  /** The parameters written to the CSV file: origin rounded to whole metres,
      rotation to two decimals, height unchanged. */
  function SavedParameters(ref: Georef2.Reference): (r: Georef2.Reference)
    ensures -0.5 <= r.deltaX - ref.deltaX <= 0.5 && -0.5 <= r.deltaY - ref.deltaY <= 0.5
    ensures -0.005 <= r.rotation - ref.rotation <= 0.005
    ensures r.height == ref.height
  {
    assert Pow10(0) == 1.0;
    assert Pow10(2) == 100.0;
    Georef2.Reference(Round(ref.deltaX, 0), Round(ref.deltaY, 0), ref.height, Round(ref.rotation, 2))
  }

  /** `main` without its files: the saved parameters and the georeferenced points.
      The points are georeferenced with the unrounded parameters. */
  function Script(m: Analysis, conversions: seq<Ifc.MapConversion>, points: seq<seq<real>>)
    : (r: Result<(Georef2.Reference, seq<Point3>)>)
    ensures r.Ok? <==> ReadReference(m, conversions).Ok? && |Extract3d(points)| > 0
    ensures r.Ok? ==> r.value.0 == SavedParameters(ReadReference(m, conversions).value)
    ensures r.Ok? ==> |r.value.1| == |Extract3d(points)| && r.value.1[0].z == conversions[0].orthometricHeight
  {
    var coords := Extract3d(points);
    var ref :- ReadReference(m, conversions);
    var placed :- Georef2.GeoreferenceCoordinates(m, coords, ref.deltaX, ref.deltaY, ref.height, ref.rotation);
    Ok((SavedParameters(ref), placed))
  }

  /** The saved origin can differ from the one the points were placed with by up to
      half a metre: with a zero rotation the first point lands on the unrounded
      origin, not on the saved one. */
  lemma SavedOriginIsNotUsed(m: Analysis, conversions: seq<Ifc.MapConversion>, points: seq<seq<real>>)
    requires Script(m, conversions, points).Ok?
    requires m.cos(ReadReference(m, conversions).value.rotation) == 1.0
    requires m.sin(ReadReference(m, conversions).value.rotation) == 0.0
    ensures var first := Script(m, conversions, points).value.1[0];
      first.x == conversions[0].eastings && first.y == conversions[0].northings
      && -0.5 <= Script(m, conversions, points).value.0.deltaX - first.x <= 0.5
  {
    var ref := ReadReference(m, conversions).value;
    var coords := Extract3d(points);
    Georef2.FirstPointOnOrigin(m, coords, ref.deltaX, ref.deltaY, ref.height, ref.rotation);
    assert Plane.Rotate(Plane.Xy(coords[0]), 1.0, 0.0) == Plane.Xy(coords[0]);
  }
}
