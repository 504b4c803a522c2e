/** The stand-alone footprint script: read the IfcMapConversion, take the footprint
    of every element of the requested IFC classes, keep the outer boundary of their
    union and georeference it, scale included. */
module SrcFootprint {
  import opened Wrappers
  import opened Analysis
  import opened Geometry
  import opened Plane
  import opened Silhouette
  import Ifc
  import ToolsFootprint

  /** The georeferencing parameters the script reads from the first IfcMapConversion. */
  datatype Params = Params(deltaX: real, deltaY: real, elevation: real, scale: real, rotation: real)

  /** Only an unset scale falls back to 1; a scale of 0 is kept. The rotation is minus
      the arctangent of ordinate over abscissa. */
  function ReadParams(m: Analysis, conversions: seq<Ifc.MapConversion>): (r: Result<Params>)
    ensures conversions == [] ==> r == Err(IndexError)
    ensures r.Ok? <==> |conversions| > 0 && Ifc.Divide(conversions[0].xAxisOrdinate, conversions[0].xAxisAbscissa).Ok?
    ensures r.Ok? ==>
      var c := conversions[0];
      && r.value.deltaX == c.eastings && r.value.deltaY == c.northings
      && r.value.elevation == c.orthometricHeight
      && (c.scale.None? ==> r.value.scale == 1.0)
      && (c.scale.Some? ==> r.value.scale == c.scale.value)
  {
    if |conversions| == 0 then Err(IndexError)
    else
      var c := conversions[0];
      var scale := if c.scale.None? then 1.0 else c.scale.value;
      var slope :- Ifc.Divide(c.xAxisOrdinate, c.xAxisAbscissa);
      Ok(Params(c.eastings, c.northings, c.orthometricHeight, scale, -1.0 * m.arctan(slope)))
  }

  /** This script and the footprint tool read the same map conversion alike, except
      that the tool also replaces a scale of 0 by 1. */
  lemma ReadParamsAgreesWithTool(m: Analysis, conversions: seq<Ifc.MapConversion>)
    ensures ReadParams(m, conversions).Ok? <==> ToolsFootprint.NewMapConversion(m, conversions).Ok?
    ensures ReadParams(m, conversions).Ok? ==>
      var p := ReadParams(m, conversions).value;
      var t := ToolsFootprint.NewMapConversion(m, conversions).value;
      && p.deltaX == t.deltaX && p.deltaY == t.deltaY && p.elevation == t.elevation
      && p.rotation == t.rotation
      && (p.scale == t.scale <==> conversions[0].scale != Some(0.0))
  {
  }

  /** The CRS origin point, each coordinate multiplied by the scale. */
  function Origin(p: Params): Point3 {
    Point3(p.deltaX * p.scale, p.deltaY * p.scale, p.elevation * p.scale)
  }

  /** Without a scale the origin is the map conversion's own eastings, northings and
      height. */
  lemma OriginOfUnscaledConversion(m: Analysis, conversions: seq<Ifc.MapConversion>)
    requires ReadParams(m, conversions).Ok? && conversions[0].scale.None?
    ensures Origin(ReadParams(m, conversions).value)
      == Point3(conversions[0].eastings, conversions[0].northings, conversions[0].orthometricHeight)
  {
  }

  // ----- georeference -----

  /** A vertex scaled, turned and shifted by the map conversion, before rounding. */
  function ExactGeoreference(m: Analysis, p: Params, v: Point2): Point2 {
    var r := CalibratedRotation(m, p.rotation);
    Point2((v.x * p.scale * m.cos(r) + v.y * p.scale * m.sin(r)) + p.deltaX,
           (-1.0 * v.x * p.scale * m.sin(r) + v.y * p.scale * m.cos(r)) + p.deltaY)
  }

  function GeoreferenceVertex(m: Analysis, p: Params, v: Point2): Point2 {
    RoundPoint(ExactGeoreference(m, p, v))
  }

  /** The exact georeference scales about the model origin, turns clockwise by the
      calibrated angle and shifts to the map origin. */
  lemma ExactIsScaleTurnShift(m: Analysis, p: Params, v: Point2)
    ensures var r := CalibratedRotation(m, p.rotation);
      ExactGeoreference(m, p, v) == Offset(Rotate(Scale2(v, p.scale), m.cos(r), -m.sin(r)), p.deltaX, p.deltaY)
  {
    var r := CalibratedRotation(m, p.rotation);
    var c := m.cos(r);
    var s := m.sin(r);
    var w := Scale2(v, p.scale);
    var t := Rotate(w, c, -s);
    assert t.x == v.x * p.scale * c + v.y * p.scale * s;
    assert t.y == -1.0 * v.x * p.scale * s + v.y * p.scale * c;
  }

  /** Before rounding, squared distances grow by the square of the scale. */
  lemma ExactGeoreferenceScalesDistance(m: Analysis, p: Params, v: Point2, w: Point2)
    requires Lawful(m)
    ensures Dist2(ExactGeoreference(m, p, v), ExactGeoreference(m, p, w)) == p.scale * p.scale * Dist2(v, w)
  {
    var r := CalibratedRotation(m, p.rotation);
    var c := m.cos(r);
    var s := -m.sin(r);
    assert c * c + s * s == 1.0 by {
      assert m.sin(r) * m.sin(r) + m.cos(r) * m.cos(r) == 1.0;
    }
    ExactIsScaleTurnShift(m, p, v);
    ExactIsScaleTurnShift(m, p, w);
    var sv := Scale2(v, p.scale);
    var sw := Scale2(w, p.scale);
    ScaleDistance(v, w, p.scale);
    RotateKeepsDistance(sv, sw, c, s);
    OffsetKeepsDistance(Rotate(sv, c, s), Rotate(sw, c, s), p.deltaX, p.deltaY);
  }

  /** A scale of 0 collapses every vertex onto the rounded map origin. */
  lemma ZeroScaleCollapses(m: Analysis, p: Params, v: Point2)
    requires p.scale == 0.0
    ensures GeoreferenceVertex(m, p, v) == Point2(Round(p.deltaX, 3), Round(p.deltaY, 3))
  {
    assert ExactGeoreference(m, p, v) == Point2(p.deltaX, p.deltaY);
  }

  /** With a unit scale the script's georeference is the footprint tool's. */
  lemma UnitScaleAgreesWithTool(m: Analysis, p: Params, v: Point2)
    requires p.scale == 1.0
    ensures ExactGeoreference(m, p, v)
      == ToolsFootprint.ExactGeoreference(m, ToolsFootprint.MapConversion(p.deltaX, p.deltaY, p.elevation, p.scale, p.rotation), v)
  {
    var r := CalibratedRotation(m, p.rotation);
    ExactIsScaleTurnShift(m, p, v);
    assert Scale2(v, p.scale) == v;
    TurnAndShiftIsRotateThenOffset(v, m.cos(r), m.sin(r), p.deltaX, p.deltaY);
  }

  /** The quarter turn subtracted from the rotation undoes the quarter turn of the
      footprint projection: a model vertex ends up at its own (x, y), scaled, turned
      clockwise by the map conversion's rotation and shifted to the map origin. */
  lemma OffsetCancelsProjection(m: Analysis, p: Params, v: Point3)
    requires Lawful(m)
    ensures ExactGeoreference(m, p, Project(StandardFrame, v))
      == Offset(Rotate(Scale2(Xy(v), p.scale), m.cos(p.rotation), -m.sin(p.rotation)), p.deltaX, p.deltaY)
  {
    var q := Project(StandardFrame, v);
    ProjectIsQuarterTurn(v);
    ExactIsScaleTurnShift(m, p, q);
    var r := CalibratedRotation(m, p.rotation);
    var cr, sr := m.cos(p.rotation), m.sin(p.rotation);
    assert m.cos(r) == sr && -m.sin(r) == cr;
    assert ExactGeoreference(m, p, q) == Offset(Rotate(Scale2(q, p.scale), sr, cr), p.deltaX, p.deltaY);
    ScaledTurnOfQuarterTurn(v.x, v.y, p.scale, cr, sr);
  }

  /** Scaling and turning (y, -x) with cosine `s` and sine `c` is scaling and turning
      (x, y) with cosine `c` and sine `-s`. */
  lemma ScaledTurnOfQuarterTurn(x: real, y: real, k: real, c: real, s: real)
    ensures Rotate(Scale2(Point2(y, -x), k), s, c) == Rotate(Scale2(Point2(x, y), k), c, -s)
  {
    assert s * (k * y) - c * (k * -x) == c * (k * x) - -s * (k * y);
    assert c * (k * y) + s * (k * -x) == -s * (k * x) + c * (k * y);
  }

  /** `georeference(lstr, ...)`: the rounded vertices made into a shapely Polygon. */
  function Georeference(m: Analysis, p: Params, coords: Ring): (r: Result<Poly>)
    ensures r.Ok? && |coords| > 0 ==>
      |r.value.shell| >= |coords|
      && forall i :: 0 <= i < |coords| ==> r.value.shell[i] == GeoreferenceVertex(m, p, coords[i])
  {
    MakePolygon(MapRing(v => GeoreferenceVertex(m, p, v), coords))
  }

  /** A closed ring of at least four vertices always makes a polygon. */
  lemma GeoreferenceClosedRing(m: Analysis, p: Params, coords: Ring)
    requires |coords| >= 4 && coords[0] == coords[|coords| - 1]
    ensures Georeference(m, p, coords).Ok?
  {
    var g := MapRing(v => GeoreferenceVertex(m, p, v), coords);
    assert g[0] == g[|g| - 1];
  }

  function GeoreferenceLines(m: Analysis, p: Params, lines: seq<Ring>): (r: Result<seq<Poly>>)
    ensures r.Ok? <==> forall i :: 0 <= i < |lines| ==> Georeference(m, p, lines[i]).Ok?
    ensures r.Ok? ==> |r.value| == |lines| && forall i :: 0 <= i < |lines| ==> Georeference(m, p, lines[i]) == Ok(r.value[i])
  {
    if |lines| == 0 then Ok([])
    else
      var poly :- Georeference(m, p, lines[0]);
      var rest :- GeoreferenceLines(m, p, lines[1..]);
      assert forall i :: 1 <= i < |lines| ==> lines[i] == lines[1..][i - 1];
      Ok([poly] + rest)
  }

  // ----- the element loop -----

  /** The most recent shape that was created, looking back from the end. */
  function LastCreated(shapes: seq<Option<MeshBuffers>>): Option<MeshBuffers> {
    if |shapes| == 0 then None
    else if shapes[|shapes| - 1].Some? then shapes[|shapes| - 1]
    else LastCreated(shapes[..|shapes| - 1])
  }

  lemma {:induction false} LastCreatedAppend(a: seq<Option<MeshBuffers>>, b: seq<Option<MeshBuffers>>)
    ensures LastCreated(a + b) == if LastCreated(b).Some? then LastCreated(b) else LastCreated(a)
    decreases |b|
  {
    if |b| > 0 {
      assert (a + b)[|a + b| - 1] == b[|b| - 1];
      assert (a + b)[..|a + b| - 1] == a + b[..|b| - 1];
      LastCreatedAppend(a, b[..|b| - 1]);
    } else {
      assert a + b == a;
    }
  }

  /** The mesh each element hands to `get_footprint`. A failed shape creation is only
      reported, so the element reuses the `shape` of the element before it; when no
      shape has been created yet, `shape` is unbound. */
  function MeshesUsed(elements: seq<Option<MeshBuffers>>, shape: Option<MeshBuffers>): (r: Result<seq<MeshBuffers>>)
    ensures r.Ok? ==> |r.value| == |elements|
    ensures r.Err? ==> r.error == NameError
  {
    if |elements| == 0 then Ok([])
    else
      var current := if elements[0].Some? then elements[0] else shape;
      if current.None? then Err(NameError)
      else
        var rest :- MeshesUsed(elements[1..], current);
        Ok([current.value] + rest)
  }

  /** The loop fails exactly when nothing was created before the first element and
      the first element fails too; otherwise every element uses the most recently
      created shape. */
  lemma {:induction false} MeshesUsedAreLastCreated(elements: seq<Option<MeshBuffers>>, shape: Option<MeshBuffers>)
    ensures MeshesUsed(elements, shape).Ok? <==> |elements| == 0 || shape.Some? || elements[0].Some?
    ensures MeshesUsed(elements, shape).Ok? ==>
      forall i :: 0 <= i < |elements| ==> LastCreated([shape] + elements[..i + 1]) == Some(MeshesUsed(elements, shape).value[i])
    decreases |elements|
  {
    if |elements| > 0 {
      var e0 := elements[0];
      var current := if e0.Some? then e0 else shape;
      assert LastCreated([shape, e0]) == current by {
        var pair := [shape, e0];
        assert pair[|pair| - 1] == e0;
        assert pair[..|pair| - 1] == [shape];
        assert [shape][..0] == [];
        assert LastCreated([shape]) == shape;
      }
      if current.Some? {
        var tail := elements[1..];
        MeshesUsedAreLastCreated(tail, current);
        var used := MeshesUsed(elements, shape).value;
        var rest := MeshesUsed(tail, current).value;
        assert used == [current.value] + rest;
        forall i | 0 <= i < |elements|
          ensures LastCreated([shape] + elements[..i + 1]) == Some(used[i])
        {
          var t := elements[1..i + 1];
          assert [shape] + elements[..i + 1] == [shape, e0] + t;
          LastCreatedAppend([shape, e0], t);
          LastCreatedAppend([current], t);
          assert LastCreated([current]) == current by {
            assert [current][..0] == [];
          }
          if i > 0 {
            assert t == tail[..i];
            assert used[i] == rest[i - 1];
          } else {
            assert t == [];
          }
        }
      }
    }
  }

  /** A failed element after the first counts the previous element's footprint again. */
  lemma FailedElementRepeatsPrevious(elements: seq<Option<MeshBuffers>>, i: nat)
    requires 0 < i < |elements| && elements[i].None? && MeshesUsed(elements, None).Ok?
    ensures MeshesUsed(elements, None).value[i] == MeshesUsed(elements, None).value[i - 1]
  {
    MeshesUsedAreLastCreated(elements, None);
    var used := MeshesUsed(elements, None).value;
    assert LastCreated([None] + elements[..i + 1]) == Some(used[i]);
    assert LastCreated([None] + elements[..i]) == Some(used[i - 1]);
    assert ([None] + elements[..i + 1])[..i + 1] == [None] + elements[..i];
  }

  /** `get_footprint` on every mesh in order; its failures are not caught. */
  function FootprintsOf(m: Analysis, shapely: Shapely, meshes: seq<MeshBuffers>): (r: Result<seq<Geom>>)
    ensures r.Ok? <==> forall i :: 0 <= i < |meshes| ==> GetFootprint(m, shapely, meshes[i]).Ok?
    ensures r.Ok? ==> |r.value| == |meshes| && forall i :: 0 <= i < |meshes| ==> GetFootprint(m, shapely, meshes[i]) == Ok(r.value[i])
  {
    if |meshes| == 0 then Ok([])
    else
      var f :- GetFootprint(m, shapely, meshes[0]);
      var rest :- FootprintsOf(m, shapely, meshes[1..]);
      assert forall i :: 1 <= i < |meshes| ==> meshes[i] == meshes[1..][i - 1];
      Ok([f] + rest)
  }

  // ----- the outer shape -----

  /** The outer shape as the script computes it: a Polygon union gives its exterior;
      otherwise the exterior rings are taken from `object_footprint`, the footprint of
      the LAST element, not from the union. */
  function OuterShapeAsWritten(shapely: Shapely, footprints: seq<Geom>): (r: Result<Geom>)
    ensures shapely.unaryUnion(footprints).Polygon? ==> r == Ok(LinearRing(shapely.unaryUnion(footprints).poly.shell))
    ensures !shapely.unaryUnion(footprints).Polygon? && |footprints| == 0 ==> r == Err(NameError)
    ensures !shapely.unaryUnion(footprints).Polygon? && |footprints| > 0 ==>
      (r.Ok? <==> Members(footprints[|footprints| - 1]).Ok? && Exteriors(Members(footprints[|footprints| - 1]).value).Ok?)
  {
    var unioned := shapely.unaryUnion(footprints);
    if unioned.Polygon? then Ok(LinearRing(unioned.poly.shell))
    else if |footprints| == 0 then Err(NameError)
    else
      var parts :- Members(footprints[|footprints| - 1]);
      var rings :- Exteriors(parts);
      Ok(shapely.unaryUnion(rings))
  }

  /** The outer shape taken from the union, as the comment beside it intends. */
  function OuterShape(shapely: Shapely, footprints: seq<Geom>): (r: Result<Geom>)
    ensures shapely.unaryUnion(footprints).Polygon? ==> r == Ok(LinearRing(shapely.unaryUnion(footprints).poly.shell))
    ensures shapely.unaryUnion(footprints).MultiPolygon? ==>
      var parts := shapely.unaryUnion(footprints).parts;
      r == Ok(shapely.unaryUnion(seq(|parts|, i requires 0 <= i < |parts| => LinearRing(parts[i].shell))))
  {
    var unioned := shapely.unaryUnion(footprints);
    if unioned.Polygon? then Ok(LinearRing(unioned.poly.shell))
    else
      var parts :- Members(unioned);
      assert unioned.MultiPolygon? ==> Exteriors(parts).Ok? && Exteriors(parts).value
        == seq(|unioned.parts|, i requires 0 <= i < |unioned.parts| => LinearRing(unioned.parts[i].shell));
      var rings :- Exteriors(parts);
      Ok(shapely.unaryUnion(rings))
  }

  /** Two spatially separate elements whose footprints are single polygons: their
      union is a MultiPolygon, so the script asks the last footprint, a Polygon, for
      its parts and fails, where the union gives one exterior ring per building. */
  lemma SeparateBuildingsDefeatAsWritten(shapely: Shapely, a: Poly, b: Poly)
    requires shapely.unaryUnion([Polygon(a), Polygon(b)]) == MultiPolygon([a, b])
    ensures OuterShapeAsWritten(shapely, [Polygon(a), Polygon(b)]) == Err(AttributeError)
    ensures OuterShape(shapely, [Polygon(a), Polygon(b)])
      == Ok(shapely.unaryUnion([LinearRing(a.shell), LinearRing(b.shell)]))
  {
    var parts := [a, b];
    assert seq(|parts|, i requires 0 <= i < |parts| => LinearRing(parts[i].shell))
      == [LinearRing(a.shell), LinearRing(b.shell)];
  }

  // ----- the whole script -----

  /** The georeferenced footprint and the geometry type the script reports for it;
      any outer shape other than a ring or a multi-line string ends the script with
      exit status 3. */
  function Dispatch(m: Analysis, p: Params, outer: Geom): (r: Result<(Geom, string)>)
    ensures r.Ok? ==> r.value.1 == r.value.0.GeomType()
    ensures !outer.LinearRing? && !outer.MultiLineString? ==> r == Err(Exit(3))
    ensures outer.LinearRing? ==> (r.Ok? <==> Georeference(m, p, outer.coords).Ok?)
    ensures outer.LinearRing? && r.Ok? ==> r.value.0 == Polygon(Georeference(m, p, outer.coords).value)
    ensures outer.MultiLineString? && r.Ok? ==> r.value.0.MultiPolygon? && |r.value.0.parts| == |outer.lines|
  {
    match outer
    case LinearRing(coords) =>
      var poly :- Georeference(m, p, coords);
      Ok((Polygon(poly), "Polygon"))
    case MultiLineString(lines) =>
      var polys :- GeoreferenceLines(m, p, lines);
      Ok((MultiPolygon(polys), "MultiPolygon"))
    case _ => Err(Exit(3))
  }

  /** The script's `main` as written, on the model's map conversions and the shape
      creation result of every requested element, in class order: a union in several
      parts takes its rings from the last element's footprint. */
  function FootprintScriptAsWritten(m: Analysis, shapely: Shapely, conversions: seq<Ifc.MapConversion>,
                                    elements: seq<Option<MeshBuffers>>): (r: Result<(Geom, string)>)
    ensures conversions == [] ==> r == Err(IndexError)
    ensures ReadParams(m, conversions).Ok? && |elements| > 0 && elements[0].None? ==> r == Err(NameError)
    ensures r.Ok? ==> r.value.1 == r.value.0.GeomType()
  {
    var p :- ReadParams(m, conversions);
    var meshes :- MeshesUsed(elements, None);
    var footprints :- FootprintsOf(m, shapely, meshes);
    var outer :- OuterShapeAsWritten(shapely, footprints);
    Dispatch(m, p, outer)
  }

  /** The script with the outer shape taken from the union, as the comment beside the
      code intends. */
  function FootprintScript(m: Analysis, shapely: Shapely, conversions: seq<Ifc.MapConversion>,
                           elements: seq<Option<MeshBuffers>>): (r: Result<(Geom, string)>)
    ensures conversions == [] ==> r == Err(IndexError)
    ensures ReadParams(m, conversions).Ok? && |elements| > 0 && elements[0].None? ==> r == Err(NameError)
    ensures r.Ok? ==> r.value.1 == r.value.0.GeomType()
  {
    var p :- ReadParams(m, conversions);
    var meshes :- MeshesUsed(elements, None);
    var footprints :- FootprintsOf(m, shapely, meshes);
    var outer :- OuterShape(shapely, footprints);
    Dispatch(m, p, outer)
  }

  /** The script as written and the corrected one give the same answer whenever the
      union of the footprints is a single polygon: they part only on a union in
      several parts. */
  lemma FootprintScriptsAgreeOnPolygonUnion(m: Analysis, shapely: Shapely, conversions: seq<Ifc.MapConversion>,
                                            elements: seq<Option<MeshBuffers>>)
    requires MeshesUsed(elements, None).Ok?
    requires FootprintsOf(m, shapely, MeshesUsed(elements, None).value).Ok?
    requires shapely.unaryUnion(FootprintsOf(m, shapely, MeshesUsed(elements, None).value).value).Polygon?
    ensures FootprintScriptAsWritten(m, shapely, conversions, elements) == FootprintScript(m, shapely, conversions, elements)
  {
  }
}
