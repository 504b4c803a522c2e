/** `get_footprint`: project the upward-facing triangles of one mesh onto the
    horizontal plane and union them. The three footprint scripts carry the same
    code for this step; the variants only differ in what they do with the union. */
module Silhouette {
  import opened Wrappers
  import opened Analysis
  import opened Geometry

  /** Faces whose normalised normal has a dot product with the direction at or
      below this value are dropped (`normal_tol`). */
  const NormalTolerance: real := 0.01
  /** The hard-coded projection direction, "up". */
  const Direction: Point3 := Point3(0.0, 0.0, 1.0)
  /** The reference axis the 2D basis is built from. */
  const ReferenceAxis: Point3 := Point3(1.0, 0.0, 0.0)

  function Scale(v: Point3, k: real): Point3 {
    Point3(k * v.x, k * v.y, k * v.z)
  }

  function Dot(a: Point3, b: Point3): real {
    a.x * b.x + a.y * b.y + a.z * b.z
  }

  function Cross(a: Point3, b: Point3): Point3 {
    Point3(a.y * b.z - a.z * b.y, a.z * b.x - a.x * b.z, a.x * b.y - a.y * b.x)
  }

  /** `v / np.linalg.norm(v)`; `None` stands for the all-NaN vector numpy produces
      for a zero vector. */
  function Normalize(m: Analysis, v: Point3): Option<Point3> {
    var len := m.sqrt(Dot(v, v));
    if len == 0.0 then None else Some(Scale(v, 1.0 / len))
  }

  /** `v / np.linalg.norm(v)` for a vector whose norm is known to be non-zero. */
  function Unit(m: Analysis, v: Point3): Point3
    requires m.sqrt(Dot(v, v)) != 0.0
  {
    Scale(v, 1.0 / m.sqrt(Dot(v, v)))
  }

  /** Normalising a unit vector leaves it unchanged. */
  lemma UnitOfUnit(m: Analysis, v: Point3)
    requires UnitRoot(m) && Dot(v, v) == 1.0
    ensures m.sqrt(Dot(v, v)) != 0.0 && Unit(m, v) == v
  {
  }

  lemma CrossWithUp(v: Point3)
    ensures Cross(Direction, v) == Point3(-v.y, v.x, 0.0)
  {
  }

  /** The vectors the projection works with: the normalised direction, and the
      orthonormal basis (b, c) of the plane orthogonal to it. */
  datatype Frame = Frame(direction: Point3, b: Point3, c: Point3)

  /** The frame every call ends up with: up, the y axis and the negative x axis. */
  const StandardFrame: Frame := Frame(Direction, Point3(0.0, 1.0, 0.0), Point3(-1.0, 0.0, 0.0))

  /** The frame as the code computes it: the direction divided by its norm; then
      d = that vector normalised once more, b = normalise(d x a), c = d x b. */
  function ComputedFrame(m: Analysis): (fr: Frame)
    requires UnitRoot(m)
    ensures fr == StandardFrame
  {
    var direction := UnitDirection(m);
    var d := UnitDirection2(m, direction);
    var (b, c) := Basis(m, d);
    Frame(direction, b, c)
  }

  /** `np.array(direction) / np.linalg.norm(direction)`. */
  function UnitDirection(m: Analysis): (direction: Point3)
    requires UnitRoot(m)
    ensures direction == Direction
  {
    UnitOfUnit(m, Direction);
    Unit(m, Direction)
  }

  /** The basis code normalises the already normalised direction once more. */
  function UnitDirection2(m: Analysis, direction: Point3): (d: Point3)
    requires UnitRoot(m) && direction == Direction
    ensures d == Direction
  {
    UnitOfUnit(m, direction);
    Unit(m, direction)
  }

  /** b = normalise(d x a), c = d x b. */
  function Basis(m: Analysis, d: Point3): (bc: (Point3, Point3))
    requires UnitRoot(m) && d == Direction
    ensures bc == (StandardFrame.b, StandardFrame.c)
  {
    CrossWithUp(ReferenceAxis);
    var b0 := Cross(d, ReferenceAxis);
    UnitOfUnit(m, b0);
    var b := Unit(m, b0);
    CrossWithUp(b);
    (b, Cross(d, b))
  }

  /** Remove the component along the direction, then take coordinates in the basis. */
  function Project(fr: Frame, v: Point3): Point2 {
    var flat := Sub(v, Scale(fr.direction, Dot(v, fr.direction)));
    Point2(Dot(flat, fr.b), Dot(flat, fr.c))
  }

  /** In the standard frame every vertex lands on (y, -x): the height plays no part
      and the footprint comes out turned a quarter turn clockwise. */
  lemma ProjectIsQuarterTurn(v: Point3)
    ensures Project(StandardFrame, v) == Point2(v.y, -v.x)
  {
    var flat := Sub(v, Scale(Direction, Dot(v, Direction)));
    assert flat == Point3(v.x, v.y, 0.0);
  }

  // ----- face filter -----

  predicate IndicesValid(verts: seq<Point3>, f: Face) {
    f.a < |verts| && f.b < |verts| && f.c < |verts|
  }

  /** `np.cross(v1 - v0, v2 - v0)`: the unnormalised face normal. */
  function FaceNormal(verts: seq<Point3>, f: Face): Point3
    requires IndicesValid(verts, f)
  {
    Cross(Sub(verts[f.b], verts[f.a]), Sub(verts[f.c], verts[f.a]))
  }

  /** `dot(normal / |normal|, direction) > normal_tol`; a zero normal gives NaN,
      and NaN is never greater than anything. */
  predicate FacesUp(m: Analysis, direction: Point3, n: Point3) {
    match Normalize(m, n)
    case None => false
    case Some(u) => Dot(u, direction) > NormalTolerance
  }

  lemma DotSelfBounds(n: Point3)
    ensures 0.0 <= n.z * n.z <= Dot(n, n)
    ensures Dot(n, n) == 0.0 ==> n.z == 0.0
  {
    assert n.x * n.x >= 0.0 && n.y * n.y >= 0.0 && n.z * n.z >= 0.0;
    if Dot(n, n) == 0.0 {
      ProductZero(n.z, n.z);
    }
  }

  /** The comparison against the tolerance, free of the division and the root. */
  lemma ThresholdIff(z: real, len: real, sq: real)
    requires 0.0 < len && len * len == sq
    ensures z / len > NormalTolerance <==> z > 0.0 && 10000.0 * (z * z) > sq
  {
    var t := NormalTolerance * len;
    ScaleStrict(NormalTolerance, z / len, len);
    assert (z / len) * len == z;
    assert t * t == sq / 10000.0;
    if z > 0.0 {
      SquareStrict(t, z);
    }
  }

  /** `FacesUp` with the normalisation spelled out. */
  lemma FacesUpUnfold(m: Analysis, n: Point3)
    ensures var len := m.sqrt(Dot(n, n));
      FacesUp(m, Direction, n) <==> len != 0.0 && n.z / len > NormalTolerance
  {
    var len := m.sqrt(Dot(n, n));
    if len != 0.0 {
      assert Dot(Scale(n, 1.0 / len), Direction) == n.z / len;
    }
  }

  /** The filter without square roots: a face is kept exactly when the z component
      of its normal is positive and its square exceeds 1/10000 of the squared length.
      A degenerate (zero-area) face is never kept. */
  lemma FacesUpIff(m: Analysis, n: Point3)
    requires Lawful(m)
    ensures FacesUp(m, Direction, n) <==> n.z > 0.0 && 10000.0 * (n.z * n.z) > Dot(n, n)
  {
    var sq := Dot(n, n);
    DotSelfBounds(n);
    var len := m.sqrt(sq);
    SqrtAt(m, sq);
    FacesUpUnfold(m, n);
    if len == 0.0 {
      assert sq == 0.0;
    } else {
      ThresholdIff(n.z, len, sq);
    }
  }

  /** The faces the filter keeps, in mesh order. */
  function KeptFaces(m: Analysis, direction: Point3, verts: seq<Point3>, faces: seq<Face>): (kept: seq<Face>)
    requires forall f :: f in faces ==> IndicesValid(verts, f)
    ensures forall f :: f in kept ==> f in faces
    ensures |kept| <= |faces|
  {
    if |faces| == 0 then []
    else
      var rest := KeptFaces(m, direction, verts, faces[1..]);
      if FacesUp(m, direction, FaceNormal(verts, faces[0])) then [faces[0]] + rest else rest
  }

  /** A face survives the filter exactly when it faces up. */
  lemma {:induction false} KeptFacesExact(m: Analysis, direction: Point3, verts: seq<Point3>, faces: seq<Face>, f: Face)
    requires forall g :: g in faces ==> IndicesValid(verts, g)
    ensures f in KeptFaces(m, direction, verts, faces) <==> f in faces && FacesUp(m, direction, FaceNormal(verts, f))
  {
    if |faces| > 0 {
      KeptFacesExact(m, direction, verts, faces[1..], f);
      assert faces == [faces[0]] + faces[1..];
    }
  }

  /** A single face is kept exactly when it faces up. */
  lemma KeptFacesSingle(m: Analysis, direction: Point3, verts: seq<Point3>, f: Face)
    requires IndicesValid(verts, f)
    ensures KeptFaces(m, direction, verts, [f]) == if FacesUp(m, direction, FaceNormal(verts, f)) then [f] else []
  {
    assert [f][1..] == [];
  }

  /** The filter keeps order and multiplicity: filtering two runs of faces one after
      the other gives the kept faces of the first followed by those of the second. */
  lemma {:induction false} KeptFacesAppend(m: Analysis, direction: Point3, verts: seq<Point3>, a: seq<Face>, b: seq<Face>)
    requires forall f :: f in a ==> IndicesValid(verts, f)
    requires forall f :: f in b ==> IndicesValid(verts, f)
    ensures KeptFaces(m, direction, verts, a + b) == KeptFaces(m, direction, verts, a) + KeptFaces(m, direction, verts, b)
  {
    if |a| == 0 {
      assert a + b == b;
    } else {
      assert (a + b)[0] == a[0];
      assert (a + b)[1..] == a[1..] + b;
      KeptFacesAppend(m, direction, verts, a[1..], b);
    }
  }

  /** Every kept face faces up. */
  lemma KeptFacesFaceUp(m: Analysis, direction: Point3, verts: seq<Point3>, faces: seq<Face>)
    requires forall g :: g in faces ==> IndicesValid(verts, g)
    ensures forall f :: f in KeptFaces(m, direction, verts, faces) ==>
      IndicesValid(verts, f) && FacesUp(m, direction, FaceNormal(verts, f))
  {
    forall f | f in KeptFaces(m, direction, verts, faces)
      ensures IndicesValid(verts, f) && FacesUp(m, direction, FaceNormal(verts, f))
    {
      KeptFacesExact(m, direction, verts, faces, f);
    }
  }

  /** The projected vertices of one face. */
  function ProjectedTriangle(fr: Frame, verts: seq<Point3>, f: Face): Ring
    requires IndicesValid(verts, f)
  {
    [Project(fr, verts[f.a]), Project(fr, verts[f.b]), Project(fr, verts[f.c])]
  }

  /** A face whose first and last vertices share x and y has a normal with no
      vertical component. */
  lemma SharedColumnIsVertical(p: Point3, q: Point3, r: Point3)
    requires p.x == r.x && p.y == r.y
    ensures Cross(Sub(q, p), Sub(r, p)).z == 0.0
  {
  }

  /** The projected corners of a face are (y, -x) of its vertices. */
  lemma ProjectedTriangleCorners(verts: seq<Point3>, f: Face)
    requires IndicesValid(verts, f)
    ensures ProjectedTriangle(StandardFrame, verts, f) ==
      [Point2(verts[f.a].y, -verts[f.a].x), Point2(verts[f.b].y, -verts[f.b].x), Point2(verts[f.c].y, -verts[f.c].x)]
  {
    ProjectIsQuarterTurn(verts[f.a]);
    ProjectIsQuarterTurn(verts[f.b]);
    ProjectIsQuarterTurn(verts[f.c]);
  }

  /** A kept face projects to a triangle of non-zero area, so its first and last
      corners differ and shapely can close it into a valid ring. */
  lemma KeptTriangleIsProper(m: Analysis, verts: seq<Point3>, f: Face)
    requires Lawful(m) && IndicesValid(verts, f)
    requires FacesUp(m, Direction, FaceNormal(verts, f))
    ensures ProjectedTriangle(StandardFrame, verts, f)[0] != ProjectedTriangle(StandardFrame, verts, f)[2]
    ensures MakePolygon(ProjectedTriangle(StandardFrame, verts, f)).Ok?
  {
    FacesUpIff(m, FaceNormal(verts, f));
    ProjectedTriangleCorners(verts, f);
    if verts[f.a].x == verts[f.c].x && verts[f.a].y == verts[f.c].y {
      SharedColumnIsVertical(verts[f.a], verts[f.b], verts[f.c]);
      assert false;
    }
  }

  /** One shapely triangle per kept face, in order. */
  function Triangles(fr: Frame, verts: seq<Point3>, kept: seq<Face>): (r: Result<seq<Poly>>)
    requires forall f :: f in kept ==> IndicesValid(verts, f)
    ensures r.Ok? ==> |r.value| == |kept|
    ensures r.Ok? ==> forall i :: 0 <= i < |kept| ==>
      |r.value[i].shell| >= 4 && r.value[i].shell[..3] == ProjectedTriangle(fr, verts, kept[i])
  {
    if |kept| == 0 then Ok([])
    else
      var p :- MakePolygon(ProjectedTriangle(fr, verts, kept[0]));
      var rest :- Triangles(fr, verts, kept[1..]);
      Ok([p] + rest)
  }

  /** Triangle construction never fails on kept faces. */
  lemma {:induction false} TrianglesOfKeptFaces(m: Analysis, verts: seq<Point3>, kept: seq<Face>)
    requires Lawful(m)
    requires forall f :: f in kept ==> IndicesValid(verts, f) && FacesUp(m, Direction, FaceNormal(verts, f))
    ensures Triangles(StandardFrame, verts, kept).Ok?
  {
    if |kept| > 0 {
      KeptTriangleIsProper(m, verts, kept[0]);
      TrianglesOfKeptFaces(m, verts, kept[1..]);
    }
  }

  /** The mesh as numpy arrays, with numpy's indexing errors: a mesh without faces
      is a one-dimensional empty array, which `faces[:, 1]` cannot index. */
  function MeshArrays(mesh: MeshBuffers): (r: Result<(seq<Point3>, seq<Face>)>)
    ensures r.Ok? ==> |r.value.1| > 0 && forall f :: f in r.value.1 ==> IndicesValid(r.value.0, f)
  {
    var verts :- GroupPoints(mesh.verts);
    var faces :- GroupFaces(mesh.faces);
    if |faces| == 0 then Err(IndexError)
    else if exists f :: f in faces && !IndicesValid(verts, f) then Err(IndexError)
    else Ok((verts, faces))
  }

  /** `get_footprint`: the union of the projected triangles of the kept faces.
      The frame is `StandardFrame`, which `ComputedFrame` shows is what the code's
      normalisations and cross products produce. */
  function GetFootprint(m: Analysis, shapely: Shapely, mesh: MeshBuffers): (r: Result<Geom>)
    ensures r.Ok? ==> MeshArrays(mesh).Ok?
  {
    var arrays :- MeshArrays(mesh);
    var kept := KeptFaces(m, StandardFrame.direction, arrays.0, arrays.1);
    var tris :- Triangles(StandardFrame, arrays.0, kept);
    Ok(shapely.unaryUnion(AsPolygons(tris)))
  }

  /** On well-formed buffers `get_footprint` succeeds exactly when every kept face
      makes a triangle, and its value is the union of those triangles, one per kept
      face in mesh order. */
  lemma GetFootprintIsUnionOfTriangles(m: Analysis, shapely: Shapely, mesh: MeshBuffers)
    requires MeshArrays(mesh).Ok?
    ensures var verts := MeshArrays(mesh).value.0;
      var tris := Triangles(StandardFrame, verts, KeptFaces(m, Direction, verts, MeshArrays(mesh).value.1));
      && (GetFootprint(m, shapely, mesh).Ok? <==> tris.Ok?)
      && (tris.Ok? ==> GetFootprint(m, shapely, mesh).value == shapely.unaryUnion(AsPolygons(tris.value)))
  {
  }

  /** With a lawful square root `get_footprint` fails only on malformed buffers:
      every kept face makes a proper triangle. */
  lemma GetFootprintFailsOnlyOnMalformedMesh(m: Analysis, shapely: Shapely, mesh: MeshBuffers)
    requires Lawful(m)
    ensures GetFootprint(m, shapely, mesh).Ok? <==> MeshArrays(mesh).Ok?
  {
    if MeshArrays(mesh).Ok? {
      var arrays := MeshArrays(mesh).value;
      var kept := KeptFaces(m, Direction, arrays.0, arrays.1);
      KeptFacesFaceUp(m, Direction, arrays.0, arrays.1);
      TrianglesOfKeptFaces(m, arrays.0, kept);
    }
  }
}
