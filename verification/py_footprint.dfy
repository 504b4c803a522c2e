/** The first footprint script: the footprint of each element is its outer ring or,
    for a footprint in several parts, their convex hull; a failed shape creation
    ends the element's IFC class; the union is georeferenced without a scale. */
module PyFootprint {
  import opened Wrappers
  import opened Analysis
  import opened Geometry
  import opened Plane
  import Silhouette
  import Ifc
  import ToolsFootprint

  /** `get_footprint`: the same face filter, projection and union as the other
      scripts, then the union's exterior ring when it is a single Polygon and its
      convex hull otherwise. */
  function OuterFootprint(m: Analysis, shapely: Shapely, mesh: MeshBuffers): (r: Result<Geom>)
    ensures r.Ok? <==> Silhouette.GetFootprint(m, shapely, mesh).Ok?
    ensures r.Ok? && Silhouette.GetFootprint(m, shapely, mesh).value.Polygon? ==>
      r.value == LinearRing(Silhouette.GetFootprint(m, shapely, mesh).value.poly.shell)
    ensures r.Ok? && !Silhouette.GetFootprint(m, shapely, mesh).value.Polygon? ==>
      r.value == shapely.convexHull(Silhouette.GetFootprint(m, shapely, mesh).value)
  {
    var unioned :- Silhouette.GetFootprint(m, shapely, mesh);
    if unioned.Polygon? then Ok(LinearRing(unioned.poly.shell)) else Ok(shapely.convexHull(unioned))
  }

  /** With lawful analysis functions the footprint fails only on malformed buffers; a
      single-polygon footprint comes back as a ring without its holes, and a footprint
      in several parts as the convex hull of the union of the kept triangles. */
  lemma OuterFootprintOfWellFormedMesh(m: Analysis, shapely: Shapely, mesh: MeshBuffers)
    requires Lawful(m)
    ensures OuterFootprint(m, shapely, mesh).Ok? <==> Silhouette.MeshArrays(mesh).Ok?
    ensures Silhouette.MeshArrays(mesh).Ok? && Silhouette.GetFootprint(m, shapely, mesh).value.Polygon? ==>
      OuterFootprint(m, shapely, mesh).value.LinearRing?
      && OuterFootprint(m, shapely, mesh).value.coords == Silhouette.GetFootprint(m, shapely, mesh).value.poly.shell
    ensures Silhouette.MeshArrays(mesh).Ok? && !Silhouette.GetFootprint(m, shapely, mesh).value.Polygon? ==>
      var verts := Silhouette.MeshArrays(mesh).value.0;
      var kept := Silhouette.KeptFaces(m, Silhouette.Direction, verts, Silhouette.MeshArrays(mesh).value.1);
      OuterFootprint(m, shapely, mesh)
        == Ok(shapely.convexHull(shapely.unaryUnion(AsPolygons(Silhouette.Triangles(Silhouette.StandardFrame, verts, kept).value))))
  {
    Silhouette.GetFootprintFailsOnlyOnMalformedMesh(m, shapely, mesh);
    if Silhouette.MeshArrays(mesh).Ok? {
      Silhouette.GetFootprintIsUnionOfTriangles(m, shapely, mesh);
    }
  }

  // ----- the element loop -----

  /** The shapes of one IFC class that `main` processes: a failed shape creation
      breaks out of the class, so only the objects before the first failure count. */
  function TakeCreated(objects: seq<Option<MeshBuffers>>): (r: seq<MeshBuffers>)
    ensures |r| <= |objects|
    ensures forall i :: 0 <= i < |r| ==> objects[i] == Some(r[i])
    ensures |r| < |objects| ==> objects[|r|].None?
  {
    if |objects| == 0 || objects[0].None? then [] else [objects[0].value] + TakeCreated(objects[1..])
  }

  /** Breaking out of a class keeps a prefix of what skipping single failures would
      keep, and all of it when nothing fails. */
  lemma {:induction false} TakeCreatedIsPrefixOfSkipping(objects: seq<Option<MeshBuffers>>)
    ensures TakeCreated(objects) <= ToolsFootprint.Created(objects)
    ensures (forall i :: 0 <= i < |objects| ==> objects[i].Some?) ==> TakeCreated(objects) == ToolsFootprint.Created(objects)
  {
    if |objects| > 0 {
      TakeCreatedIsPrefixOfSkipping(objects[1..]);
    }
  }

  /** The shapes processed over all requested classes, in class order. */
  function MeshesProcessed(classes: seq<seq<Option<MeshBuffers>>>): seq<MeshBuffers> {
    if |classes| == 0 then [] else TakeCreated(classes[0]) + MeshesProcessed(classes[1..])
  }

  /** A failure in one class does not affect the classes after it: processing one
      more class appends exactly that class's own shapes. */
  lemma {:induction false} MeshesProcessedAppend(classes: seq<seq<Option<MeshBuffers>>>, c: seq<Option<MeshBuffers>>)
    ensures MeshesProcessed(classes + [c]) == MeshesProcessed(classes) + TakeCreated(c)
  {
    if |classes| == 0 {
      assert classes + [c] == [c];
      assert MeshesProcessed([c]) == TakeCreated(c) + MeshesProcessed([]);
    } else {
      var all := classes + [c];
      assert all[0] == classes[0];
      assert all[1..] == classes[1..] + [c];
      MeshesProcessedAppend(classes[1..], c);
      calc {
        MeshesProcessed(all);
        TakeCreated(classes[0]) + MeshesProcessed(classes[1..] + [c]);
        TakeCreated(classes[0]) + (MeshesProcessed(classes[1..]) + TakeCreated(c));
        (TakeCreated(classes[0]) + MeshesProcessed(classes[1..])) + TakeCreated(c);
      }
    }
  }

  function FootprintsOf(m: Analysis, shapely: Shapely, meshes: seq<MeshBuffers>): (r: Result<seq<Geom>>)
    ensures r.Ok? <==> forall i :: 0 <= i < |meshes| ==> OuterFootprint(m, shapely, meshes[i]).Ok?
    ensures r.Ok? ==> |r.value| == |meshes| && forall i :: 0 <= i < |meshes| ==> OuterFootprint(m, shapely, meshes[i]) == Ok(r.value[i])
  {
    if |meshes| == 0 then Ok([])
    else
      var f :- OuterFootprint(m, shapely, meshes[0]);
      var rest :- FootprintsOf(m, shapely, meshes[1..]);
      assert forall i :: 1 <= i < |meshes| ==> meshes[i] == meshes[1..][i - 1];
      Ok([f] + rest)
  }

  // ----- georeference -----

  /** The angle `georeference` turns by: minus the arctangent of ordinate over
      abscissa, minus a quarter turn, which is the footprint tool's calibrated angle. */
  function Rotation(m: Analysis, conversions: seq<Ifc.MapConversion>): (r: Result<real>)
    ensures r.Ok? <==> |conversions| > 0 && Ifc.Divide(conversions[0].xAxisOrdinate, conversions[0].xAxisAbscissa).Ok?
    ensures r.Ok? <==> ToolsFootprint.NewMapConversion(m, conversions).Ok?
    ensures r.Ok? ==> r.value == CalibratedRotation(m, ToolsFootprint.NewMapConversion(m, conversions).value.rotation)
  {
    if |conversions| == 0 then Err(IndexError)
    else
      var slope :- Ifc.Divide(conversions[0].xAxisOrdinate, conversions[0].xAxisAbscissa);
      Ok(CalibratedRotation(m, -1.0 * m.arctan(slope)))
  }

  function GeoreferenceVertex(m: Analysis, dx: real, dy: real, rotation: real, v: Point2): Point2 {
    RoundPoint(TurnAndShift(v, m.cos(rotation), m.sin(rotation), dx, dy))
  }

  /** `georeference(geometry)`: the map conversion is read first, then the
      geometry's exterior ring is georeferenced vertex by vertex into a Polygon;
      printing the first vertex fails on an empty ring. */
  function Georeference(m: Analysis, conversions: seq<Ifc.MapConversion>, geometry: Geom): (r: Result<Poly>)
    ensures !geometry.Polygon? && Rotation(m, conversions).Ok? ==> r == Err(AttributeError)
    ensures geometry.Polygon? && |geometry.poly.shell| == 0 && Rotation(m, conversions).Ok? ==> r == Err(IndexError)
    ensures r.Ok? ==> geometry.Polygon? && |geometry.poly.shell| > 0 && Rotation(m, conversions).Ok?
  {
    if |conversions| == 0 then Err(IndexError)
    else
      var dx := conversions[0].eastings;
      var dy := conversions[0].northings;
      var rotation :- Rotation(m, conversions);
      var ring :- ExteriorOf(geometry);
      if |ring.coords| == 0 then Err(IndexError)
      else MakePolygon(MapRing(v => GeoreferenceVertex(m, dx, dy, rotation, v), ring.coords))
  }

  /** On a Polygon with a non-empty exterior this georeference is the footprint tool's
      `georeference_lstr` of that ring: both turn by the same angle and neither applies
      the scale. On an empty exterior only this script fails, at its first vertex. */
  lemma GeoreferenceAgreesWithTool(m: Analysis, conversions: seq<Ifc.MapConversion>, poly: Poly)
    ensures Georeference(m, conversions, Polygon(poly)).Ok? ==> ToolsFootprint.NewMapConversion(m, conversions).Ok?
    ensures ToolsFootprint.NewMapConversion(m, conversions).Ok? && |poly.shell| > 0 ==>
      Georeference(m, conversions, Polygon(poly))
        == ToolsFootprint.GeoreferenceLstr(m, ToolsFootprint.NewMapConversion(m, conversions).value, poly.shell)
    ensures ToolsFootprint.NewMapConversion(m, conversions).Ok? && |poly.shell| == 0 ==>
      Georeference(m, conversions, Polygon(poly)) == Err(IndexError)
      && ToolsFootprint.GeoreferenceLstr(m, ToolsFootprint.NewMapConversion(m, conversions).value, poly.shell).Ok?
  {
    if ToolsFootprint.NewMapConversion(m, conversions).Ok? && |poly.shell| > 0 {
      var mc := ToolsFootprint.NewMapConversion(m, conversions).value;
      var rotation := Rotation(m, conversions).value;
      var mine := MapRing(v => GeoreferenceVertex(m, mc.deltaX, mc.deltaY, rotation, v), poly.shell);
      var theirs := ToolsFootprint.GeoreferenceVertices(m, mc, poly.shell);
      forall i | 0 <= i < |poly.shell|
        ensures mine[i] == theirs[i]
      {
        VertexAgreesWithTool(m, mc, rotation, poly.shell[i]);
      }
      assert mine == theirs;
    }
  }

  lemma VertexAgreesWithTool(m: Analysis, mc: ToolsFootprint.MapConversion, rotation: real, v: Point2)
    requires rotation == CalibratedRotation(m, mc.rotation)
    ensures GeoreferenceVertex(m, mc.deltaX, mc.deltaY, rotation, v) == ToolsFootprint.GeoreferenceVertex(m, mc, v)
  {
  }

  // ----- main -----

  /** Lines 35-56 of `main` as written: the union's exterior ring is handed to
      `georeference`, which asks that ring for an exterior again. */
  function ScriptAsWritten(m: Analysis, shapely: Shapely, conversions: seq<Ifc.MapConversion>,
                         classes: seq<seq<Option<MeshBuffers>>>): (r: Result<Poly>)
  {
    var footprints :- FootprintsOf(m, shapely, MeshesProcessed(classes));
    var unioned := shapely.unaryUnion(footprints);
    var exterior :- ExteriorOf(unioned);
    Georeference(m, conversions, exterior)
  }

  /** The pipeline as written never produces a footprint. */
  lemma ScriptAsWrittenAlwaysFails(m: Analysis, shapely: Shapely, conversions: seq<Ifc.MapConversion>,
                                 classes: seq<seq<Option<MeshBuffers>>>)
    ensures ScriptAsWritten(m, shapely, conversions, classes).Err?
  {
  }

  /** The union handed to `georeference` directly, which takes the exterior itself. */
  function Script(m: Analysis, shapely: Shapely, conversions: seq<Ifc.MapConversion>,
                classes: seq<seq<Option<MeshBuffers>>>): (r: Result<Poly>)
    ensures r.Ok? ==> FootprintsOf(m, shapely, MeshesProcessed(classes)).Ok?
    ensures r.Ok? ==> shapely.unaryUnion(FootprintsOf(m, shapely, MeshesProcessed(classes)).value).Polygon?
  {
    var footprints :- FootprintsOf(m, shapely, MeshesProcessed(classes));
    Georeference(m, conversions, shapely.unaryUnion(footprints))
  }

  /** Whenever the union is one Polygon and the map conversion is readable, the
      corrected pipeline georeferences the union's exterior ring exactly as the
      footprint tool does, unless that ring is empty, where it fails at its first
      vertex. */
  lemma ScriptGeoreferencesUnion(m: Analysis, shapely: Shapely, conversions: seq<Ifc.MapConversion>,
                               classes: seq<seq<Option<MeshBuffers>>>)
    requires FootprintsOf(m, shapely, MeshesProcessed(classes)).Ok?
    requires shapely.unaryUnion(FootprintsOf(m, shapely, MeshesProcessed(classes)).value).Polygon?
    requires ToolsFootprint.NewMapConversion(m, conversions).Ok?
    ensures |shapely.unaryUnion(FootprintsOf(m, shapely, MeshesProcessed(classes)).value).poly.shell| > 0 ==>
      Script(m, shapely, conversions, classes)
        == ToolsFootprint.GeoreferenceLstr(m, ToolsFootprint.NewMapConversion(m, conversions).value,
             shapely.unaryUnion(FootprintsOf(m, shapely, MeshesProcessed(classes)).value).poly.shell)
    ensures |shapely.unaryUnion(FootprintsOf(m, shapely, MeshesProcessed(classes)).value).poly.shell| == 0 ==>
      Script(m, shapely, conversions, classes) == Err(IndexError)
  {
    var u := shapely.unaryUnion(FootprintsOf(m, shapely, MeshesProcessed(classes)).value);
    GeoreferenceAgreesWithTool(m, conversions, u.poly);
  }
}
