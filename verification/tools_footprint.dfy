/** The footprint tool: collect the footprint of every selected IFC element, keep
    the outer boundary of their union, and georeference it with the parameters of
    the model's IfcMapConversion. */
module ToolsFootprint {
  import opened Wrappers
  import opened Analysis
  import opened Geometry
  import opened Plane
  import opened Silhouette
  import Ifc

  /** The fields of the tool's `MapConversion` class. */
  datatype MapConversion = MapConversion(deltaX: real, deltaY: real, elevation: real, scale: real, rotation: real)

  /** `MapConversion(model)`, given the IfcMapConversion entities of the model.
      Scale falls back to 1 when absent or zero; the rotation is minus the arctangent
      of ordinate over abscissa. */
  function NewMapConversion(m: Analysis, conversions: seq<Ifc.MapConversion>): (r: Result<MapConversion>)
    ensures conversions == [] ==> r == Err(IndexError)
    ensures r.Ok? <==> |conversions| > 0 && Ifc.Divide(conversions[0].xAxisOrdinate, conversions[0].xAxisAbscissa).Ok?
    ensures r.Ok? ==>
      var c := conversions[0];
      && r.value.deltaX == c.eastings && r.value.deltaY == c.northings
      && r.value.elevation == c.orthometricHeight
      && (Ifc.Truthy(c.scale) ==> r.value.scale == c.scale.value)
      && (!Ifc.Truthy(c.scale) ==> r.value.scale == 1.0)
      && r.value.rotation == -1.0 * m.arctan(Ifc.Divide(c.xAxisOrdinate, c.xAxisAbscissa).value)
  {
    if |conversions| == 0 then Err(IndexError)
    else
      var c := conversions[0];
      var scale := if Ifc.Truthy(c.scale) then c.scale.value else 1.0;
      var slope :- Ifc.Divide(c.xAxisOrdinate, c.xAxisAbscissa);
      Ok(MapConversion(c.eastings, c.northings, c.orthometricHeight, scale, -1.0 * m.arctan(slope)))
  }

  /** The rotation is always strictly between minus and plus a quarter turn, and the
      scale is never zero. */
  lemma MapConversionRanges(m: Analysis, conversions: seq<Ifc.MapConversion>)
    requires Lawful(m) && NewMapConversion(m, conversions).Ok?
    ensures -m.pi / 2.0 < NewMapConversion(m, conversions).value.rotation < m.pi / 2.0
    ensures NewMapConversion(m, conversions).value.scale != 0.0
  {
    var c := conversions[0];
    var slope := Ifc.Divide(c.xAxisOrdinate, c.xAxisAbscissa).value;
    assert -m.pi / 2.0 < m.arctan(slope) < m.pi / 2.0;
  }

  // ----- georeference_lstr -----

  /** A vertex turned and shifted by the map conversion, before rounding. The angle
      is the rotation minus a quarter turn; the scale is not applied. */
  function ExactGeoreference(m: Analysis, mc: MapConversion, p: Point2): Point2 {
    var r := CalibratedRotation(m, mc.rotation);
    TurnAndShift(p, m.cos(r), m.sin(r), mc.deltaX, mc.deltaY)
  }

  /** One georeferenced vertex, rounded to millimetres. */
  function GeoreferenceVertex(m: Analysis, mc: MapConversion, p: Point2): Point2 {
    RoundPoint(ExactGeoreference(m, mc, p))
  }

  /** The exact georeference is a clockwise turn by the calibrated angle followed by
      the shift to the map origin. */
  lemma ExactIsTurnThenShift(m: Analysis, mc: MapConversion, p: Point2)
    ensures var r := CalibratedRotation(m, mc.rotation);
      ExactGeoreference(m, mc, p) == Offset(Rotate(p, m.cos(r), -m.sin(r)), mc.deltaX, mc.deltaY)
  {
  }

  /** Before rounding, georeferencing keeps every distance. */
  lemma ExactGeoreferenceIsRigid(m: Analysis, mc: MapConversion, p: Point2, q: Point2)
    requires Lawful(m)
    ensures Dist2(ExactGeoreference(m, mc, p), ExactGeoreference(m, mc, q)) == Dist2(p, q)
  {
    var r := CalibratedRotation(m, mc.rotation);
    var c := m.cos(r);
    var s := -m.sin(r);
    assert c * c + s * s == 1.0 by {
      assert m.sin(r) * m.sin(r) + m.cos(r) * m.cos(r) == 1.0;
    }
    ExactIsTurnThenShift(m, mc, p);
    ExactIsTurnThenShift(m, mc, q);
    RotateKeepsDistance(p, q, c, s);
    OffsetKeepsDistance(Rotate(p, c, s), Rotate(q, c, s), mc.deltaX, mc.deltaY);
  }

  /** The quarter turn subtracted from the rotation undoes the quarter turn of the
      footprint projection: a model vertex ends up at its own (x, y) turned clockwise
      by the map conversion's rotation and shifted to the map origin. */
  lemma OffsetCancelsProjection(m: Analysis, mc: MapConversion, v: Point3)
    requires Lawful(m)
    ensures ExactGeoreference(m, mc, Project(StandardFrame, v))
      == Offset(Rotate(Xy(v), m.cos(mc.rotation), -m.sin(mc.rotation)), mc.deltaX, mc.deltaY)
  {
    ProjectIsQuarterTurn(v);
    var r := CalibratedRotation(m, mc.rotation);
    var cr, sr := m.cos(mc.rotation), m.sin(mc.rotation);
    assert m.cos(r) == sr && m.sin(r) == -cr;
    var p := Project(StandardFrame, v);
    assert ExactGeoreference(m, mc, p) == TurnAndShift(p, sr, -cr, mc.deltaX, mc.deltaY);
    TurnOfQuarterTurn(v.x, v.y, cr, sr, mc.deltaX, mc.deltaY);
  }

  /** The georeferencing formula applied to (y, -x) with cosine `s` and sine `-c`. */
  lemma TurnOfQuarterTurn(x: real, y: real, c: real, s: real, dx: real, dy: real)
    ensures TurnAndShift(Point2(y, -x), s, -c, dx, dy) == Offset(Rotate(Point2(x, y), c, -s), dx, dy)
  {
    assert y * s + -x * -c == c * x - -s * y;
    assert -1.0 * y * -c + -x * s == -s * x + c * y;
  }

  /** Each vertex georeferenced, in order. */
  function GeoreferenceVertices(m: Analysis, mc: MapConversion, coords: Ring): Ring {
    MapRing(p => GeoreferenceVertex(m, mc, p), coords)
  }

  /** `georeference_lstr`: a polygon whose shell is the georeferenced vertices. */
  function GeoreferenceLstr(m: Analysis, mc: MapConversion, coords: Ring): (r: Result<Poly>)
    ensures r.Ok? && |coords| > 0 ==>
      |r.value.shell| >= |coords| && r.value.shell[..|coords|] == GeoreferenceVertices(m, mc, coords)
  {
    MakePolygon(GeoreferenceVertices(m, mc, coords))
  }

  /** A closed ring of at least four vertices, as `exterior` produces, always makes a
      polygon, and its shell is exactly the georeferenced ring. */
  lemma GeoreferenceClosedRing(m: Analysis, mc: MapConversion, coords: Ring)
    requires |coords| >= 4 && coords[0] == coords[|coords| - 1]
    ensures GeoreferenceLstr(m, mc, coords) == Ok(Poly(GeoreferenceVertices(m, mc, coords), []))
  {
    var g := GeoreferenceVertices(m, mc, coords);
    assert g[0] == g[|g| - 1];
  }

  function GeoreferenceLines(m: Analysis, mc: MapConversion, lines: seq<Ring>): (r: Result<seq<Poly>>)
    ensures r.Ok? ==> |r.value| == |lines|
    ensures r.Ok? ==> forall i :: 0 <= i < |lines| ==> GeoreferenceLstr(m, mc, lines[i]) == Ok(r.value[i])
    ensures r.Err? ==> exists i :: 0 <= i < |lines| && GeoreferenceLstr(m, mc, lines[i]).Err?
  {
    if |lines| == 0 then Ok([])
    else
      var p :- GeoreferenceLstr(m, mc, lines[0]);
      var rest :- GeoreferenceLines(m, mc, lines[1..]);
      Ok([p] + rest)
  }

  /** Georeferencing line strings fails only as shapely's polygon constructor does. */
  lemma {:induction false} GeoreferenceLinesError(m: Analysis, mc: MapConversion, lines: seq<Ring>)
    ensures GeoreferenceLines(m, mc, lines).Err? ==> GeoreferenceLines(m, mc, lines).error == ValueError
  {
    if |lines| > 0 && GeoreferenceLstr(m, mc, lines[0]).Ok? {
      GeoreferenceLinesError(m, mc, lines[1..]);
    }
  }

  /** `MapConversion.georeference`: a ring becomes a Polygon, a multi-line string a
      MultiPolygon with one polygon per line string; anything else is rejected. */
  function Georeference(m: Analysis, mc: MapConversion, shape: Geom): (r: Result<Geom>)
    ensures !shape.LinearRing? && !shape.MultiLineString? ==>
      r == Err(Thrown("unexpected geometry type " + shape.GeomType()))
    ensures r.Ok? && shape.LinearRing? ==> r.value.Polygon? && GeoreferenceLstr(m, mc, shape.coords) == Ok(r.value.poly)
    ensures r.Ok? && shape.MultiLineString? ==> r.value.MultiPolygon? && |r.value.parts| == |shape.lines|
  {
    match shape
    case LinearRing(coords) =>
      var p :- GeoreferenceLstr(m, mc, coords);
      Ok(Polygon(p))
    case MultiLineString(lines) =>
      var ps :- GeoreferenceLines(m, mc, lines);
      Ok(MultiPolygon(ps))
    case _ => Err(Thrown("unexpected geometry type " + shape.GeomType()))
  }

  // ----- exterior -----

  /** `exterior(*geometries)`: the outer boundary of the geometries' union. A single
      geometry is used as it is; a Polygon gives its exterior ring and loses its
      holes; a multi-part geometry gives the union of its parts' exterior rings. */
  function Exterior(shapely: Shapely, geometries: seq<Geom>): (r: Result<Geom>)
    ensures |geometries| == 0 <==> r == Err(Thrown("no geometries were provided"))
    ensures |geometries| == 1 && geometries[0].Polygon? ==> r == Ok(LinearRing(geometries[0].poly.shell))
  {
    if |geometries| == 0 then Err(Thrown("no geometries were provided"))
    else
      var geometry := if |geometries| == 1 then geometries[0] else shapely.unaryUnion(geometries);
      if geometry.Polygon? then Ok(LinearRing(geometry.poly.shell))
      else
        var parts :- Members(geometry);
        var rings :- Exteriors(parts);
        Ok(shapely.unaryUnion(rings))
  }

  /** Two or more geometries are first unioned; the exterior is then that of the
      union alone. */
  lemma ExteriorOfSeveral(shapely: Shapely, geometries: seq<Geom>)
    requires |geometries| >= 2
    ensures Exterior(shapely, geometries) == Exterior(shapely, [shapely.unaryUnion(geometries)])
  {
  }

  /** A single MultiPolygon gives the union of one exterior ring per component, in
      order; holes never reach the result. */
  lemma ExteriorOfMultiPolygon(shapely: Shapely, parts: seq<Poly>)
    ensures Exterior(shapely, [MultiPolygon(parts)])
      == Ok(shapely.unaryUnion(seq(|parts|, i requires 0 <= i < |parts| => LinearRing(parts[i].shell))))
  {
    var rings := Exteriors(AsPolygons(parts)).value;
    assert rings == seq(|parts|, i requires 0 <= i < |parts| => LinearRing(parts[i].shell));
  }

  // ----- footprint_building -----

  /** The elements whose shape ifcopenshell could create, in order; `None` marks an
      element whose shape creation raised. */
  function Created(shapes: seq<Option<MeshBuffers>>): (r: seq<MeshBuffers>)
    ensures |r| <= |shapes|
    ensures forall g :: g in r <==> Some(g) in shapes
  {
    if |shapes| == 0 then []
    else
      var rest := Created(shapes[1..]);
      assert forall x :: x in shapes <==> x == shapes[0] || x in shapes[1..];
      if shapes[0].Some? then [shapes[0].value] + rest else rest
  }

  /** A created element is kept once and a failed one is dropped. */
  lemma CreatedSingle(g: MeshBuffers)
    ensures Created([Some(g)]) == [g]
    ensures Created([None]) == []
  {
  }

  /** Skipping distributes over concatenation, so the kept elements stay in their
      order and each keeps its multiplicity. */
  lemma {:induction false} CreatedAppend(a: seq<Option<MeshBuffers>>, b: seq<Option<MeshBuffers>>)
    ensures Created(a + b) == Created(a) + Created(b)
  {
    if |a| > 0 {
      assert (a + b)[0] == a[0];
      assert (a + b)[1..] == a[1..] + b;
      CreatedAppend(a[1..], b);
    } else {
      assert a + b == b;
    }
  }

  /** The loop of `footprint_building` with `footprint` for `get_footprint`: the
      footprints of the created elements, where the first failing footprint is not
      caught and ends the loop. */
  function Collect(footprint: MeshBuffers -> Result<Geom>, shapes: seq<Option<MeshBuffers>>): (r: Result<seq<Geom>>)
    ensures r.Ok? ==> |r.value| == |Created(shapes)|
  {
    if |shapes| == 0 then Ok([])
    else
      match shapes[0]
      case None => Collect(footprint, shapes[1..])
      case Some(mesh) =>
        var f :- footprint(mesh);
        var rest :- Collect(footprint, shapes[1..]);
        Ok([f] + rest)
  }

  /** `get_footprint` of the shared projection and union. */
  function FootprintOf(m: Analysis, shapely: Shapely): MeshBuffers -> Result<Geom> {
    mesh => GetFootprint(m, shapely, mesh)
  }

  /** The loop as the tool runs it. */
  function Footprints(m: Analysis, shapely: Shapely, shapes: seq<Option<MeshBuffers>>): (r: Result<seq<Geom>>)
    ensures r.Ok? ==> |r.value| == |Created(shapes)|
  {
    Collect(FootprintOf(m, shapely), shapes)
  }

  /** One footprint per created element, in order, each that element's footprint. */
  lemma {:induction false} CollectInOrder(footprint: MeshBuffers -> Result<Geom>, shapes: seq<Option<MeshBuffers>>)
    requires Collect(footprint, shapes).Ok?
    ensures forall i :: 0 <= i < |Created(shapes)| ==> footprint(Created(shapes)[i]) == Ok(Collect(footprint, shapes).value[i])
  {
    if |shapes| > 0 {
      CollectInOrder(footprint, shapes[1..]);
      var created := Created(shapes[1..]);
      var rest := Collect(footprint, shapes[1..]).value;
      if shapes[0].Some? {
        assert Created(shapes) == [shapes[0].value] + created;
        assert Collect(footprint, shapes).value == [footprint(shapes[0].value).value] + rest;
      } else {
        assert Created(shapes) == created;
      }
    }
  }

  /** Collection succeeds exactly when every created element's footprint does. */
  lemma {:induction false} CollectOkIff(footprint: MeshBuffers -> Result<Geom>, shapes: seq<Option<MeshBuffers>>)
    ensures Collect(footprint, shapes).Ok? <==>
      forall i :: 0 <= i < |shapes| && shapes[i].Some? ==> footprint(shapes[i].value).Ok?
  {
    if |shapes| > 0 {
      CollectOkIff(footprint, shapes[1..]);
      assert forall i :: 1 <= i < |shapes| ==> shapes[i] == shapes[1..][i - 1];
    }
  }

  /** Element `i` is the first created element whose footprint fails, with error `e`. */
  predicate FirstFailureAt(footprint: MeshBuffers -> Result<Geom>, shapes: seq<Option<MeshBuffers>>, i: nat, e: Fault)
    requires i < |shapes|
  {
    && shapes[i].Some? && footprint(shapes[i].value) == Err(e)
    && forall j :: 0 <= j < i && shapes[j].Some? ==> footprint(shapes[j].value).Ok?
  }

  /** A failed collection carries the error of the first created element whose
      footprint fails: the uncaught exception ends the loop there. */
  lemma {:induction false} CollectFirstError(footprint: MeshBuffers -> Result<Geom>, shapes: seq<Option<MeshBuffers>>)
    requires Collect(footprint, shapes).Err?
    ensures exists i :: 0 <= i < |shapes| && FirstFailureAt(footprint, shapes, i, Collect(footprint, shapes).error)
  {
    var e := Collect(footprint, shapes).error;
    if shapes[0].Some? && footprint(shapes[0].value).Err? {
      assert FirstFailureAt(footprint, shapes, 0, e);
    } else {
      assert Collect(footprint, shapes[1..]) == Err(e);
      CollectFirstError(footprint, shapes[1..]);
      var k :| 0 <= k < |shapes[1..]| && FirstFailureAt(footprint, shapes[1..], k, e);
      FirstFailureShift(footprint, shapes, k, e);
    }
  }

  lemma FirstFailureShift(footprint: MeshBuffers -> Result<Geom>, shapes: seq<Option<MeshBuffers>>, k: nat, e: Fault)
    requires 0 < |shapes| && k < |shapes| - 1
    requires shapes[0].Some? ==> footprint(shapes[0].value).Ok?
    requires FirstFailureAt(footprint, shapes[1..], k, e)
    ensures FirstFailureAt(footprint, shapes, k + 1, e)
  {
    assert shapes[k + 1] == shapes[1..][k];
    forall j | 0 < j < k + 1 && shapes[j].Some?
      ensures footprint(shapes[j].value).Ok?
    {
      assert shapes[j] == shapes[1..][j - 1];
    }
  }

  /** With a lawful square root and well-formed buffers every created element
      contributes its footprint. */
  lemma FootprintsOfWellFormedMeshes(m: Analysis, shapely: Shapely, shapes: seq<Option<MeshBuffers>>)
    requires Lawful(m)
    requires forall i :: 0 <= i < |shapes| && shapes[i].Some? ==> MeshArrays(shapes[i].value).Ok?
    ensures Footprints(m, shapely, shapes).Ok?
  {
    var fp := FootprintOf(m, shapely);
    CollectOkIff(fp, shapes);
    forall i | 0 <= i < |shapes| && shapes[i].Some?
      ensures fp(shapes[i].value).Ok?
    {
      GetFootprintFailsOnlyOnMalformedMesh(m, shapely, shapes[i].value);
    }
  }

  /** `footprint_building`: skip the elements without a shape, union the rest,
      keep the outer boundary and georeference it. Once the footprints are collected,
      the "no geometries" error comes exactly when no element was created. */
  function FootprintBuilding(m: Analysis, shapely: Shapely, mc: MapConversion, shapes: seq<Option<MeshBuffers>>): (r: Result<Geom>)
    ensures Footprints(m, shapely, shapes).Ok? ==>
      (r == Err(Thrown("no geometries were provided")) <==> Created(shapes) == [])
  {
    var geometries :- Footprints(m, shapely, shapes);
    var outer :- Exterior(shapely, geometries);
    NotNoGeometries(m, mc, outer);
    Georeference(m, mc, outer)
  }

  /** Georeferencing never fails with the "no geometries" message. */
  lemma NotNoGeometries(m: Analysis, mc: MapConversion, outer: Geom)
    ensures Georeference(m, mc, outer) != Err(Thrown("no geometries were provided"))
  {
    if outer.MultiLineString? {
      GeoreferenceLinesError(m, mc, outer.lines);
    } else if !outer.LinearRing? {
      var msg := "unexpected geometry type " + outer.GeomType();
      assert msg[0] == 'u';
      assert msg != "no geometries were provided";
    }
  }

  /** When the outer boundary of the collected footprints is a closed ring, the tool
      returns the hole-free polygon of that ring's georeferenced vertices. */
  lemma FootprintBuildingOfClosedRing(m: Analysis, shapely: Shapely, mc: MapConversion,
                                      shapes: seq<Option<MeshBuffers>>, ring: Ring)
    requires Footprints(m, shapely, shapes).Ok?
    requires Exterior(shapely, Footprints(m, shapely, shapes).value) == Ok(LinearRing(ring))
    requires |ring| >= 4 && ring[0] == ring[|ring| - 1]
    ensures FootprintBuilding(m, shapely, mc, shapes) == Ok(Polygon(Poly(GeoreferenceVertices(m, mc, ring), [])))
  {
    GeoreferenceClosedRing(m, mc, ring);
  }

  /** A building with a single created element whose footprint is one polygon: the
      result is that polygon's shell, georeferenced, without its holes. */
  lemma FootprintBuildingOfOneElement(m: Analysis, shapely: Shapely, mc: MapConversion,
                                      shapes: seq<Option<MeshBuffers>>, p: Poly)
    requires |Created(shapes)| == 1
    requires GetFootprint(m, shapely, Created(shapes)[0]) == Ok(Polygon(p))
    requires |p.shell| >= 4 && p.shell[0] == p.shell[|p.shell| - 1]
    ensures FootprintBuilding(m, shapely, mc, shapes) == Ok(Polygon(Poly(GeoreferenceVertices(m, mc, p.shell), [])))
  {
    var fp := FootprintOf(m, shapely);
    assert fp(Created(shapes)[0]) == Ok(Polygon(p));
    OneCollected(fp, shapes, Polygon(p));
    FootprintBuildingOfOnePolygon(m, shapely, mc, shapes, p);
  }

  lemma FootprintBuildingOfOnePolygon(m: Analysis, shapely: Shapely, mc: MapConversion,
                                      shapes: seq<Option<MeshBuffers>>, p: Poly)
    requires Footprints(m, shapely, shapes) == Ok([Polygon(p)])
    requires |p.shell| >= 4 && p.shell[0] == p.shell[|p.shell| - 1]
    ensures FootprintBuilding(m, shapely, mc, shapes) == Ok(Polygon(Poly(GeoreferenceVertices(m, mc, p.shell), [])))
  {
    assert Exterior(shapely, [Polygon(p)]) == Ok(LinearRing(p.shell));
    FootprintBuildingOfClosedRing(m, shapely, mc, shapes, p.shell);
  }

  /** A single created element with footprint `g` collects to exactly `[g]`. */
  lemma OneCollected(footprint: MeshBuffers -> Result<Geom>, shapes: seq<Option<MeshBuffers>>, g: Geom)
    requires |Created(shapes)| == 1 && footprint(Created(shapes)[0]) == Ok(g)
    ensures Collect(footprint, shapes) == Ok([g])
  {
    CollectOkIff(footprint, shapes);
    forall i | 0 <= i < |shapes| && shapes[i].Some?
      ensures footprint(shapes[i].value).Ok?
    {
      assert Some(shapes[i].value) in shapes;
      assert shapes[i].value in Created(shapes);
    }
    CollectInOrder(footprint, shapes);
    var fs := Collect(footprint, shapes).value;
    assert |fs| == 1 && fs[0] == g;
    assert fs == [g];
  }

  /** When every element fails, the tool fails with the "no geometries" error. */
  lemma FootprintBuildingAllFailed(m: Analysis, shapely: Shapely, mc: MapConversion, shapes: seq<Option<MeshBuffers>>)
    requires forall i :: 0 <= i < |shapes| ==> shapes[i].None?
    ensures FootprintBuilding(m, shapely, mc, shapes) == Err(Thrown("no geometries were provided"))
  {
    NoneCreated(shapes);
    NoFootprints(FootprintOf(m, shapely), shapes);
  }

  lemma {:induction false} NoneCreated(shapes: seq<Option<MeshBuffers>>)
    requires forall i :: 0 <= i < |shapes| ==> shapes[i].None?
    ensures Created(shapes) == []
  {
    if |shapes| > 0 {
      NoneCreated(shapes[1..]);
    }
  }

  lemma {:induction false} NoFootprints(footprint: MeshBuffers -> Result<Geom>, shapes: seq<Option<MeshBuffers>>)
    requires forall i :: 0 <= i < |shapes| ==> shapes[i].None?
    ensures Collect(footprint, shapes) == Ok([])
  {
    if |shapes| > 0 {
      NoFootprints(footprint, shapes[1..]);
    }
  }

  // ----- elongation -----

  /** `round(math.sqrt(area) / (length / 4), 4)`: a negative area is a math domain
      error, a zero perimeter a division by zero. */
  function Elongation(m: Analysis, area: real, length: real): (r: Result<real>)
    ensures r.Ok? <==> area >= 0.0 && length != 0.0
    ensures area < 0.0 ==> r == Err(ValueError)
    ensures area >= 0.0 && length == 0.0 ==> r == Err(ZeroDivisionError)
    ensures r.Ok? && 0.0 < length && 4.0 * m.sqrt(area) <= length ==> r.value <= 1.0
  {
    if area < 0.0 then Err(ValueError)
    else if length == 0.0 then Err(ZeroDivisionError)
    else
      RoundedRatioAtMostOne(m.sqrt(area), length);
      Ok(Round(m.sqrt(area) / (length / 4.0), 4))
  }

  /** A root at most a quarter of a positive perimeter gives a rounded ratio of at most 1. */
  lemma RoundedRatioAtMostOne(root: real, length: real)
    ensures 0.0 < length && 4.0 * root <= length ==> Round(root / (length / 4.0), 4) <= 1.0
  {
    if 0.0 < length && 4.0 * root <= length {
      QuotientAtMostOne(root, length / 4.0);
      RoundAtMostOne(root / (length / 4.0), 4);
    }
  }

  lemma Pow10Four()
    ensures Pow10(4) == 10000.0
  {
    assert Pow10(1) == 10.0;
    assert Pow10(2) == 100.0;
    assert Pow10(3) == 1000.0;
  }

  /** A square has elongation exactly 1. */
  lemma ElongationOfSquare(m: Analysis, side: real)
    requires Lawful(m) && side > 0.0
    ensures Elongation(m, side * side, 4.0 * side) == Ok(1.0)
  {
    SqrtUnique(m, side * side, side);
    assert m.sqrt(side * side) / (4.0 * side / 4.0) == 1.0;
    Pow10Four();
    RoundExact(10000, 4);
  }

  /** An `a` by 1 rectangle has elongation at most 1: the root of the area never
      exceeds a quarter of the perimeter. */
  lemma ElongationOfRectangle(m: Analysis, a: real)
    requires Lawful(m) && a > 0.0
    ensures Elongation(m, a, 2.0 * (a + 1.0)).Ok?
    ensures Elongation(m, a, 2.0 * (a + 1.0)).value <= 1.0
  {
    var s := m.sqrt(a);
    SqrtAt(m, a);
    assert (s - 1.0) * (s - 1.0) >= 0.0;
    assert 2.0 * s <= a + 1.0;
  }

  /** The four elongation values the report template documents for rectangles of
      2:1, 3:1, 5:1 and 10:1. */
  lemma DocumentedElongations(m: Analysis)
    requires Lawful(m)
    ensures Elongation(m, 2.0, 6.0) == Ok(0.9428)
    ensures Elongation(m, 3.0, 8.0) == Ok(0.8660)
    ensures Elongation(m, 5.0, 12.0) == Ok(0.7454)
    ensures Elongation(m, 10.0, 22.0) == Ok(0.5750)
  {
    ElongationTwoToOne(m);
    ElongationThreeToOne(m);
    ElongationFiveToOne(m);
    ElongationTenToOne(m);
  }

  lemma ElongationTwoToOne(m: Analysis)
    requires Lawful(m)
    ensures Elongation(m, 2.0, 6.0) == Ok(0.9428)
  {
    Pow10Four();
    SqrtBetween(m, 2.0, 1.414125, 1.414275);
    RoundTo(m.sqrt(2.0) / (6.0 / 4.0), 4, 9428);
  }

  lemma ElongationThreeToOne(m: Analysis)
    requires Lawful(m)
    ensures Elongation(m, 3.0, 8.0) == Ok(0.8660)
  {
    Pow10Four();
    SqrtBetween(m, 3.0, 1.7319, 1.7321);
    RoundTo(m.sqrt(3.0) / (8.0 / 4.0), 4, 8660);
  }

  lemma ElongationFiveToOne(m: Analysis)
    requires Lawful(m)
    ensures Elongation(m, 5.0, 12.0) == Ok(0.7454)
  {
    Pow10Four();
    SqrtBetween(m, 5.0, 2.23605, 2.23635);
    RoundTo(m.sqrt(5.0) / (12.0 / 4.0), 4, 7454);
  }

  lemma ElongationTenToOne(m: Analysis)
    requires Lawful(m)
    ensures Elongation(m, 10.0, 22.0) == Ok(0.5750)
  {
    Pow10Four();
    SqrtBetween(m, 10.0, 3.162225, 3.162775);
    RoundTo(m.sqrt(10.0) / (22.0 / 4.0), 4, 5750);
  }
}
