/** The second step of the georeferencing pipeline: model coordinates read in
    millimetres are converted to metres, turned counter-clockwise about the model
    origin by the map conversion's rotation, and shifted so that the first point's
    unturned position would land on the map conversion's origin. */
module Georef2 {
  import opened Wrappers
  import opened Analysis
  import opened Geometry
  import opened Plane
  import Ifc
  import ToolsFootprint

  /** `mm_to_m`: millimetres to metres. */
  function MmToM(v: real): (r: real)
    ensures r * 1000.0 == v
    ensures v > 0.0 ==> 0.0 < r < v
  {
    v / 1000.0
  }

  /** The CSV rows of `main`, each coordinate converted to metres. */
  function RowsToMetres(rows: seq<Point3>): (r: seq<Point3>)
    ensures |r| == |rows|
    ensures forall i :: 0 <= i < |rows| ==>
      r[i].x * 1000.0 == rows[i].x && r[i].y * 1000.0 == rows[i].y && r[i].z * 1000.0 == rows[i].z
  {
    if |rows| == 0 then []
    else [Point3(MmToM(rows[0].x), MmToM(rows[0].y), MmToM(rows[0].z))] + RowsToMetres(rows[1..])
  }

  /** The tuple `get_reference_rd_coordinates` returns. */
  datatype Reference = Reference(deltaX: real, deltaY: real, height: real, rotation: real)

  /** Python's `a or b` on optional numbers. */
  function Or(a: Option<real>, b: Option<real>): Option<real> {
    if Ifc.Truthy(a) then a else b
  }

  /** `get_reference_rd_coordinates`. Eastings, Northings and OrthometricHeight are
      read by name with a fallback to the same positional attribute. The ordinate
      falls back to attribute 5, which is the abscissa, and the abscissa to
      attribute 6, the ordinate; the rotation is minus the arctangent of abscissa
      over ordinate. */
  function ReadReference(m: Analysis, conversions: seq<Ifc.MapConversion>): (r: Result<Reference>)
    ensures conversions == [] ==> r == Err(ValueError)
    ensures r.Ok? <==> (|conversions| > 0 &&
      var c := conversions[0];
      Ifc.Divide(Or(c.xAxisAbscissa, c.xAxisOrdinate), Or(c.xAxisOrdinate, c.xAxisAbscissa)).Ok?)
    ensures r.Ok? ==>
      var c := conversions[0];
      r.value.deltaX == c.eastings && r.value.deltaY == c.northings && r.value.height == c.orthometricHeight
  {
    if |conversions| == 0 then Err(ValueError)
    else
      var c := conversions[0];
      var ordinate := Or(c.xAxisOrdinate, c.xAxisAbscissa);
      var abscissa := Or(c.xAxisAbscissa, c.xAxisOrdinate);
      var slope :- Ifc.Divide(abscissa, ordinate);
      Ok(Reference(c.eastings, c.northings, c.orthometricHeight, -1.0 * m.arctan(slope)))
  }

  /** With both axis components set and non-zero, this script takes the arctangent of
      the reciprocal of the slope the footprint tool uses. */
  lemma RotationIsReciprocalOfTool(m: Analysis, conversions: seq<Ifc.MapConversion>)
    requires |conversions| > 0
    requires Ifc.Truthy(conversions[0].xAxisAbscissa) && Ifc.Truthy(conversions[0].xAxisOrdinate)
    ensures ReadReference(m, conversions).Ok? && ToolsFootprint.NewMapConversion(m, conversions).Ok?
    ensures var a := conversions[0].xAxisAbscissa.value;
      var o := conversions[0].xAxisOrdinate.value;
      && ReadReference(m, conversions).value.rotation == -1.0 * m.arctan(a / o)
      && ToolsFootprint.NewMapConversion(m, conversions).value.rotation == -1.0 * m.arctan(o / a)
      && (a / o) * (o / a) == 1.0
  {
  }

  /** An ordinate of 0 or unset is replaced by the abscissa, so the slope is 1 and
      the rotation minus the arctangent of 1, whatever the abscissa. */
  lemma MissingOrdinateGivesDiagonal(m: Analysis, conversions: seq<Ifc.MapConversion>)
    requires |conversions| > 0
    requires !Ifc.Truthy(conversions[0].xAxisOrdinate) && Ifc.Truthy(conversions[0].xAxisAbscissa)
    ensures ReadReference(m, conversions).Ok?
    ensures ReadReference(m, conversions).value.rotation == -1.0 * m.arctan(1.0)
  {
    var a := conversions[0].xAxisAbscissa.value;
    assert a / a == 1.0;
  }

  /** With neither axis component set to a non-zero number there is no rotation. */
  lemma NoAxisFails(m: Analysis, conversions: seq<Ifc.MapConversion>)
    requires |conversions| > 0
    requires !Ifc.Truthy(conversions[0].xAxisOrdinate) && !Ifc.Truthy(conversions[0].xAxisAbscissa)
    ensures ReadReference(m, conversions).Err?
    ensures ReadReference(m, conversions).error == TypeError || ReadReference(m, conversions).error == ZeroDivisionError
  {
  }

  // ----- georeference_coordinates -----

  /** One point turned counter-clockwise in the plane, then moved by `offset`. */
  function Place(m: Analysis, p: Point3, rotation: real, offset: Point3): Point3 {
    var q := Rotate(Xy(p), m.cos(rotation), m.sin(rotation));
    Point3(q.x + offset.x, q.y + offset.y, p.z + offset.z)
  }

  function PlaceAll(m: Analysis, coords: seq<Point3>, rotation: real, offset: Point3): (r: seq<Point3>)
    ensures |r| == |coords| && forall i :: 0 <= i < |coords| ==> r[i] == Place(m, coords[i], rotation, offset)
  {
    if |coords| == 0 then [] else [Place(m, coords[0], rotation, offset)] + PlaceAll(m, coords[1..], rotation, offset)
  }

  /** `georeference_coordinates`: no points is an error; otherwise one point out per
      point in, in order, with the offset taken from the first point. */
  function GeoreferenceCoordinates(m: Analysis, coords: seq<Point3>, dx: real, dy: real, height: real,
                                   rotation: real): (r: Result<seq<Point3>>)
    ensures r.Ok? <==> |coords| > 0
    ensures coords == [] ==> r == Err(ValueError)
    ensures r.Ok? ==> |r.value| == |coords|
    ensures r.Ok? ==> r.value[0].z == height
    ensures r.Ok? ==> forall i, j :: 0 <= i < |coords| && 0 <= j < |coords| ==>
      r.value[i].z - r.value[j].z == coords[i].z - coords[j].z
  {
    if |coords| == 0 then Err(ValueError)
    else Ok(PlaceAll(m, coords, rotation, Point3(dx - coords[0].x, dy - coords[0].y, height - coords[0].z)))
  }

  /** The first point lands on the map origin exactly when the rotation leaves it
      where it is, in particular when the rotation is zero. */
  lemma FirstPointOnOrigin(m: Analysis, coords: seq<Point3>, dx: real, dy: real, height: real, rotation: real)
    requires |coords| > 0
    ensures var first := GeoreferenceCoordinates(m, coords, dx, dy, height, rotation).value[0];
      (first == Point3(dx, dy, height)) <==> (Rotate(Xy(coords[0]), m.cos(rotation), m.sin(rotation)) == Xy(coords[0]))
  {
    var q := Rotate(Xy(coords[0]), m.cos(rotation), m.sin(rotation));
    var first := GeoreferenceCoordinates(m, coords, dx, dy, height, rotation).value[0];
    assert first.x == q.x + (dx - coords[0].x) && first.y == q.y + (dy - coords[0].y);
  }

  /** With a lawful cosine and sine the planar part is rigid: horizontal distances
      between any two points are kept. */
  lemma GeoreferenceKeepsDistances(m: Analysis, coords: seq<Point3>, dx: real, dy: real, height: real,
                                   rotation: real, i: nat, j: nat)
    requires Lawful(m) && i < |coords| && j < |coords|
    ensures var r := GeoreferenceCoordinates(m, coords, dx, dy, height, rotation).value;
      Dist2(Xy(r[i]), Xy(r[j])) == Dist2(Xy(coords[i]), Xy(coords[j]))
  {
    var r := GeoreferenceCoordinates(m, coords, dx, dy, height, rotation).value;
    var c := m.cos(rotation);
    var s := m.sin(rotation);
    assert c * c + s * s == 1.0 by {
      assert m.sin(rotation) * m.sin(rotation) + m.cos(rotation) * m.cos(rotation) == 1.0;
    }
    var ox := dx - coords[0].x;
    var oy := dy - coords[0].y;
    assert Xy(r[i]) == Offset(Rotate(Xy(coords[i]), c, s), ox, oy);
    assert Xy(r[j]) == Offset(Rotate(Xy(coords[j]), c, s), ox, oy);
    RotateKeepsDistance(Xy(coords[i]), Xy(coords[j]), c, s);
    OffsetKeepsDistance(Rotate(Xy(coords[i]), c, s), Rotate(Xy(coords[j]), c, s), ox, oy);
  }

  // ----- main -----

  /** `main` without its CSV files: read the reference, convert the rows to metres
      and georeference them. */
  function Script(m: Analysis, conversions: seq<Ifc.MapConversion>, rows: seq<Point3>): (r: Result<seq<Point3>>)
    ensures r.Ok? <==> ReadReference(m, conversions).Ok? && |rows| > 0
    ensures r.Ok? ==> |r.value| == |rows| && r.value[0].z == conversions[0].orthometricHeight
  {
    var ref :- ReadReference(m, conversions);
    GeoreferenceCoordinates(m, RowsToMetres(rows), ref.deltaX, ref.deltaY, ref.height, ref.rotation)
  }
}
