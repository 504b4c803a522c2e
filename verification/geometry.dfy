/** Points, rings and the shapely geometry kinds the footprint scripts pass around,
    the triangulated mesh buffers ifcopenshell hands them, and the IfcMapConversion
    record (IFC4, ISO 16739-1:2018, IfcRepresentationResource schema). */
module Geometry {
  import opened Wrappers

  datatype Point2 = Point2(x: real, y: real)
  datatype Point3 = Point3(x: real, y: real, z: real)

  function Add(a: Point3, b: Point3): Point3 {
    Point3(a.x + b.x, a.y + b.y, a.z + b.z)
  }

  function Sub(a: Point3, b: Point3): Point3 {
    Point3(a.x - b.x, a.y - b.y, a.z - b.z)
  }

  /** Coordinates of a ring or line string, in order. */
  type Ring = seq<Point2>

  /** A shapely Polygon: its exterior ring and its interior rings (holes). */
  datatype Poly = Poly(shell: Ring, holes: seq<Ring>)

  /** The shapely geometry kinds that reach the footprint code. */
  datatype Geom =
    | Polygon(poly: Poly)
    | MultiPolygon(parts: seq<Poly>)
    | LinearRing(coords: Ring)
    | LineString(coords: Ring)
    | MultiLineString(lines: seq<Ring>)
    | GeometryCollection(members: seq<Geom>)
  {
    /** shapely's `geom_type`. */
    function GeomType(): string {
      match this
      case Polygon(_) => "Polygon"
      case MultiPolygon(_) => "MultiPolygon"
      case LinearRing(_) => "LinearRing"
      case LineString(_) => "LineString"
      case MultiLineString(_) => "MultiLineString"
      case GeometryCollection(_) => "GeometryCollection"
    }
  }

  /** The shapely algorithms the scripts call but that are not modelled:
      `shapely.ops.unary_union` and `shapely.convex_hull`. */
  datatype Shapely = Shapely(unaryUnion: seq<Geom> -> Geom, convexHull: Geom -> Geom)

  /** `geometry.exterior`: only a Polygon has one. */
  function ExteriorOf(g: Geom): (r: Result<Geom>)
    ensures r.Ok? <==> g.Polygon?
    ensures r.Ok? ==> r.value == LinearRing(g.poly.shell)
  {
    match g
    case Polygon(p) => Ok(LinearRing(p.shell))
    case _ => Err(AttributeError)
  }

  /** Each shell-and-holes record as a shapely `Polygon`. */
  function AsPolygons(ps: seq<Poly>): (gs: seq<Geom>)
    ensures |gs| == |ps| && forall i :: 0 <= i < |ps| ==> gs[i] == Polygon(ps[i])
  {
    if |ps| == 0 then [] else [Polygon(ps[0])] + AsPolygons(ps[1..])
  }

  /** `geometry.geoms`: the parts of a multi-part geometry; single geometries have none. */
  function Members(g: Geom): (r: Result<seq<Geom>>)
    ensures r.Ok? <==> g.MultiPolygon? || g.MultiLineString? || g.GeometryCollection?
    ensures r.Err? ==> r.error == AttributeError
    ensures g.MultiPolygon? ==> r == Ok(AsPolygons(g.parts))
  {
    match g
    case MultiPolygon(parts) => Ok(AsPolygons(parts))
    case MultiLineString(lines) => Ok(seq(|lines|, i requires 0 <= i < |lines| => LineString(lines[i])))
    case GeometryCollection(members) => Ok(members)
    case _ => Err(AttributeError)
  }

  /** `[poly.exterior for poly in geoms]`. */
  function Exteriors(gs: seq<Geom>): (r: Result<seq<Geom>>)
    ensures r.Ok? <==> forall i :: 0 <= i < |gs| ==> gs[i].Polygon?
    ensures r.Err? ==> r.error == AttributeError
    ensures r.Ok? ==> |r.value| == |gs| && forall i :: 0 <= i < |gs| ==> r.value[i] == LinearRing(gs[i].poly.shell)
  {
    if |gs| == 0 then Ok([])
    else
      var e :- ExteriorOf(gs[0]);
      var rest :- Exteriors(gs[1..]);
      assert forall i :: 1 <= i < |gs| ==> gs[i] == gs[1..][i - 1];
      Ok([e] + rest)
  }

  /** `shapely.Polygon(coords)`: an unclosed ring is closed by repeating its first
      point; a non-empty ring must then have at least four coordinates. */
  function MakePolygon(coords: Ring): (r: Result<Poly>)
    ensures |coords| == 0 ==> r == Ok(Poly([], []))
    ensures r.Ok? && |coords| > 0 ==>
      |r.value.shell| >= 4 && |r.value.shell| >= |coords|
      && r.value.shell[0] == r.value.shell[|r.value.shell| - 1]
      && r.value.shell[..|coords|] == coords && r.value.holes == []
    ensures |coords| > 0 && coords[0] == coords[|coords| - 1] ==> (r.Ok? <==> |coords| >= 4)
    ensures |coords| > 0 && coords[0] != coords[|coords| - 1] ==> (r.Ok? <==> |coords| >= 3)
    ensures r.Err? ==> r.error == ValueError
  {
    if |coords| == 0 then Ok(Poly([], []))
    else
      var closed := if coords[0] != coords[|coords| - 1] then coords + [coords[0]] else coords;
      if |closed| < 4 then Err(ValueError) else Ok(Poly(closed, []))
  }

  // ----- mesh buffers -----

  /** One triangle as three vertex indices. */
  datatype Face = Face(a: nat, b: nat, c: nat)

  /** `shape.geometry` as ifcopenshell delivers it: flat vertex coordinates
      (x0, y0, z0, x1, ...) and flat face indices (i0, j0, k0, i1, ...). */
  datatype MeshBuffers = MeshBuffers(verts: seq<real>, faces: seq<nat>)

  /** `[[v[i], v[i+1], v[i+2]] for i in range(0, len(v), 3)]`: a length that is not a
      multiple of three makes the last triple index past the end. */
  function GroupPoints(v: seq<real>): (r: Result<seq<Point3>>)
    ensures r.Ok? <==> |v| % 3 == 0
    ensures r.Ok? ==> |r.value| == |v| / 3
    ensures r.Ok? ==> forall k :: 0 <= k < |r.value| ==>
      r.value[k] == Point3(v[3 * k], v[3 * k + 1], v[3 * k + 2])
    decreases |v|
  {
    if |v| == 0 then Ok([])
    else if |v| < 3 then Err(IndexError)
    else
      var rest :- GroupPoints(v[3..]);
      Ok([Point3(v[0], v[1], v[2])] + rest)
  }

  function GroupFaces(f: seq<nat>): (r: Result<seq<Face>>)
    ensures r.Ok? <==> |f| % 3 == 0
    ensures r.Ok? ==> |r.value| == |f| / 3
    ensures r.Ok? ==> forall k :: 0 <= k < |r.value| ==>
      r.value[k] == Face(f[3 * k], f[3 * k + 1], f[3 * k + 2])
    decreases |f|
  {
    if |f| == 0 then Ok([])
    else if |f| < 3 then Err(IndexError)
    else
      var rest :- GroupFaces(f[3..]);
      Ok([Face(f[0], f[1], f[2])] + rest)
  }

  function FlattenPoints(ps: seq<Point3>): (r: seq<real>)
  {
    if |ps| == 0 then [] else [ps[0].x, ps[0].y, ps[0].z] + FlattenPoints(ps[1..])
  }

  /** Grouping is the inverse of flattening. */
  lemma {:induction false} GroupFlattenRoundTrip(ps: seq<Point3>)
    ensures GroupPoints(FlattenPoints(ps)) == Ok(ps)
  {
    if |ps| > 0 {
      var f := FlattenPoints(ps);
      var rest := FlattenPoints(ps[1..]);
      assert f == [ps[0].x, ps[0].y, ps[0].z] + rest;
      assert f[3..] == rest;
      GroupFlattenRoundTrip(ps[1..]);
      assert GroupPoints(f) == Ok([Point3(f[0], f[1], f[2])] + ps[1..]);
      assert ps == [ps[0]] + ps[1..];
    }
  }
}

/** The IfcMapConversion entity: positional attributes 2..7 are Eastings, Northings,
    OrthometricHeight (required lengths) and XAxisAbscissa, XAxisOrdinate, Scale
    (optional reals; `None` is the unset `$`). Attributes 0 and 1 (SourceCRS,
    TargetCRS) are not read by the scripts. */
module Ifc {
  import opened Wrappers

  datatype MapConversion = MapConversion(
    eastings: real,            // attribute 2
    northings: real,           // attribute 3
    orthometricHeight: real,   // attribute 4
    xAxisAbscissa: Option<real>, // attribute 5
    xAxisOrdinate: Option<real>, // attribute 6
    scale: Option<real>)       // attribute 7

  /** Python truthiness of an optional number: `None` and `0` are falsy. */
  predicate Truthy(v: Option<real>) {
    v.Some? && v.value != 0.0
  }

  /** Python's `a / b` on optional floats: `None` is a TypeError, zero a ZeroDivisionError. */
  function Divide(a: Option<real>, b: Option<real>): (r: Result<real>)
    ensures r.Ok? <==> a.Some? && b.Some? && b.value != 0.0
    ensures r.Ok? ==> r.value * b.value == a.value
  {
    if a.None? || b.None? then Err(TypeError)
    else if b.value == 0.0 then Err(ZeroDivisionError)
    else Ok(a.value / b.value)
  }
}
