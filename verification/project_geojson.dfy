/** `projectGeoJSON`: every position of a Polygon, a MultiPolygon or (recursively)
    the members of a GeometryCollection is passed through the converter's `inverse`;
    any other GeoJSON type, and a missing source, throws. The converter is a
    parameter. */
module ProjectGeoJson {
  import opened Wrappers

  type Position = seq<real>

  /** The GeoJSON values the function distinguishes. `Missing` is a falsy source
      (`null` or `undefined`); `Other` is any other GeoJSON object, by its `type`. */
  datatype GeoJson =
    | Missing
    | Polygon(rings: seq<seq<Position>>)
    | MultiPolygon(polygons: seq<seq<seq<Position>>>)
    | GeometryCollection(geometries: seq<GeoJson>)
    | Other(kind: string)

  function MapPositions(inverse: Position -> Position, ps: seq<Position>): (r: seq<Position>)
    ensures |r| == |ps| && forall j :: 0 <= j < |ps| ==> r[j] == inverse(ps[j])
  {
    seq(|ps|, j requires 0 <= j < |ps| => inverse(ps[j]))
  }

  function MapRings(inverse: Position -> Position, rings: seq<seq<Position>>): (r: seq<seq<Position>>)
    ensures |r| == |rings| && forall i :: 0 <= i < |rings| ==> r[i] == MapPositions(inverse, rings[i])
  {
    seq(|rings|, i requires 0 <= i < |rings| => MapPositions(inverse, rings[i]))
  }

  /** Projects the members in order; the first member that throws ends the map. */
  function ProjectAll(inverse: Position -> Position, gs: seq<GeoJson>): (r: Result<seq<GeoJson>>)
    ensures r.Ok? ==> |r.value| == |gs|
    decreases gs, 0
  {
    if |gs| == 0 then Ok([])
    else
      var first :- Project(inverse, gs[0]);
      var rest :- ProjectAll(inverse, gs[1..]);
      Ok([first] + rest)
  }

  /** `projectGeoJSON(source, conv)` with `conv.inverse` as `inverse`. */
  function Project(inverse: Position -> Position, source: GeoJson): (r: Result<GeoJson>)
    ensures source == Missing ==> r == Err(Thrown("source evaluates to false"))
    ensures source.Other? ==>
      r == Err(Thrown("Projection of GeoJSON type " + source.kind + " has not been implemented"))
    ensures r.Ok? ==> (r.value.Polygon? == source.Polygon? && r.value.MultiPolygon? == source.MultiPolygon?
      && r.value.GeometryCollection? == source.GeometryCollection?)
    decreases source, 1
  {
    match source
    case Missing => Err(Thrown("source evaluates to false"))
    case GeometryCollection(gs) =>
      var projected :- ProjectAll(inverse, gs);
      Ok(GeometryCollection(projected))
    case Polygon(rings) => Ok(Polygon(MapRings(inverse, rings)))
    case MultiPolygon(polygons) =>
      Ok(MultiPolygon(seq(|polygons|, i requires 0 <= i < |polygons| => MapRings(inverse, polygons[i]))))
    case Other(kind) => Err(Thrown("Projection of GeoJSON type " + kind + " has not been implemented"))
  }

  /** A Polygon keeps its ring count and ring lengths, and each position is replaced
      by its inverse projection. */
  lemma ProjectPolygon(inverse: Position -> Position, rings: seq<seq<Position>>)
    ensures Project(inverse, Polygon(rings)).Ok?
    ensures var out := Project(inverse, Polygon(rings)).value.rings;
      |out| == |rings| && forall i :: 0 <= i < |rings| ==>
        |out[i]| == |rings[i]| && forall j :: 0 <= j < |rings[i]| ==> out[i][j] == inverse(rings[i][j])
  {
  }

  /** The same one level deeper for a MultiPolygon. */
  lemma ProjectMultiPolygon(inverse: Position -> Position, polygons: seq<seq<seq<Position>>>)
    ensures Project(inverse, MultiPolygon(polygons)).Ok?
    ensures var out := Project(inverse, MultiPolygon(polygons)).value.polygons;
      |out| == |polygons| && forall p :: 0 <= p < |polygons| ==>
        |out[p]| == |polygons[p]| && forall i :: 0 <= i < |polygons[p]| ==>
          |out[p][i]| == |polygons[p][i]|
          && forall j :: 0 <= j < |polygons[p][i]| ==> out[p][i][j] == inverse(polygons[p][i][j])
  {
  }

  /** A collection succeeds exactly when every member does, and then holds each
      member's projection at its own index. */
  lemma {:induction false} ProjectAllMembers(inverse: Position -> Position, gs: seq<GeoJson>)
    ensures ProjectAll(inverse, gs).Ok? <==> forall i :: 0 <= i < |gs| ==> Project(inverse, gs[i]).Ok?
    ensures ProjectAll(inverse, gs).Ok? ==>
      forall i :: 0 <= i < |gs| ==> ProjectAll(inverse, gs).value[i] == Project(inverse, gs[i]).value
    decreases gs
  {
    if |gs| > 0 {
      ProjectAllMembers(inverse, gs[1..]);
      assert forall i :: 1 <= i < |gs| ==> gs[i] == gs[1..][i - 1];
    }
  }

  /** The error a failing collection reports is that of its first failing member. */
  lemma {:induction false} ProjectAllFirstError(inverse: Position -> Position, gs: seq<GeoJson>, k: nat)
    requires k < |gs| && Project(inverse, gs[k]).Err?
    requires forall i :: 0 <= i < k ==> Project(inverse, gs[i]).Ok?
    ensures ProjectAll(inverse, gs) == Err(Project(inverse, gs[k]).error)
    decreases k
  {
    if k > 0 {
      ProjectAllFirstError(inverse, gs[1..], k - 1);
    }
  }

  /** The values `projectGeoJSON` accepts: no missing source and no other type,
      at any depth. */
  predicate Projectable(g: GeoJson)
    decreases g
  {
    match g
    case Missing => false
    case Other(_) => false
    case GeometryCollection(gs) => forall i :: 0 <= i < |gs| ==> Projectable(gs[i])
    case _ => true
  }

  /** Projection succeeds exactly on projectable values. */
  lemma {:induction false} ProjectOkIff(inverse: Position -> Position, g: GeoJson)
    ensures Project(inverse, g).Ok? <==> Projectable(g)
    decreases g
  {
    if g.GeometryCollection? {
      forall i | 0 <= i < |g.geometries|
        ensures Project(inverse, g.geometries[i]).Ok? <==> Projectable(g.geometries[i])
      {
        ProjectOkIff(inverse, g.geometries[i]);
      }
      ProjectAllMembers(inverse, g.geometries);
    }
  }

  lemma MapRingsIdentity(rings: seq<seq<Position>>)
    ensures MapRings(p => p, rings) == rings
  {
    forall i | 0 <= i < |rings|
      ensures MapPositions(p => p, rings[i]) == rings[i]
    {
    }
  }

  lemma MapRingsCompose(f: Position -> Position, h: Position -> Position, rings: seq<seq<Position>>)
    ensures MapRings(h, MapRings(f, rings)) == MapRings(p => h(f(p)), rings)
  {
    forall i | 0 <= i < |rings|
      ensures MapPositions(h, MapPositions(f, rings[i])) == MapPositions(p => h(f(p)), rings[i])
    {
    }
  }

  /** With the identity as inverse, projection gives back every projectable value
      unchanged: the output is a new value with the input's shape. */
  lemma {:induction false} ProjectIdentity(g: GeoJson)
    requires Projectable(g)
    ensures Project(p => p, g) == Ok(g)
    decreases g
  {
    match g
    case GeometryCollection(gs) =>
      forall i | 0 <= i < |gs|
        ensures Project(p => p, gs[i]) == Ok(gs[i])
      {
        ProjectIdentity(gs[i]);
      }
      ProjectAllMembers(p => p, gs);
      assert ProjectAll(p => p, gs).value == gs;
    case Polygon(rings) =>
      MapRingsIdentity(rings);
    case MultiPolygon(polygons) =>
      var out := Project(p => p, g).value.polygons;
      forall i | 0 <= i < |polygons|
        ensures out[i] == polygons[i]
      {
        MapRingsIdentity(polygons[i]);
      }
      assert out == polygons;
  }

  /** Projecting twice is projecting once with the composed inverse. */
  lemma {:induction false} ProjectCompose(f: Position -> Position, h: Position -> Position, g: GeoJson)
    requires Projectable(g)
    ensures Project(f, g).Ok?
    ensures Project(h, Project(f, g).value) == Project(p => h(f(p)), g)
    decreases g
  {
    ProjectOkIff(f, g);
    match g
    case GeometryCollection(gs) =>
      var mid := ProjectAll(f, gs).value;
      ProjectAllMembers(f, gs);
      forall i | 0 <= i < |gs|
        ensures Project(h, mid[i]) == Project(p => h(f(p)), gs[i])
      {
        ProjectCompose(f, h, gs[i]);
      }
      ProjectOkIff(p => h(f(p)), g);
      ProjectAllMembers(p => h(f(p)), gs);
      forall i | 0 <= i < |mid|
        ensures Project(h, mid[i]).Ok?
      {
      }
      ProjectAllMembers(h, mid);
      assert ProjectAll(h, mid).value == ProjectAll(p => h(f(p)), gs).value;
    case Polygon(rings) =>
      MapRingsCompose(f, h, rings);
    case MultiPolygon(polygons) =>
      var mid := Project(f, g).value.polygons;
      var twice := Project(h, Project(f, g).value).value.polygons;
      var once := Project(p => h(f(p)), g).value.polygons;
      forall i | 0 <= i < |polygons|
        ensures twice[i] == once[i]
      {
        MapRingsCompose(f, h, polygons[i]);
      }
      assert twice == once;
  }
}
