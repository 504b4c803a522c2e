/** The translation-only georeferencing script: millimetre coordinates are converted
    to metres and shifted so that the first point lands on a given reference
    point. */
module GeorefTranslate {
  import opened Wrappers
  import opened Analysis
  import opened Geometry
  import Plane
  import Georef2

  function ShiftAll(coords: seq<Point3>, offset: Point3): (r: seq<Point3>)
    ensures |r| == |coords| && forall i :: 0 <= i < |coords| ==> r[i] == Add(coords[i], offset)
  {
    if |coords| == 0 then [] else [Add(coords[0], offset)] + ShiftAll(coords[1..], offset)
  }

  /** `georeference_coordinates(coordinates, reference)`: there is no guard, so no
      points fails when the first point is indexed. */
  function GeoreferenceCoordinates(coords: seq<Point3>, reference: Point3): (r: Result<seq<Point3>>)
    ensures r.Ok? <==> |coords| > 0
    ensures coords == [] ==> r == Err(IndexError)
    ensures r.Ok? ==> |r.value| == |coords| && r.value[0] == reference
    ensures r.Ok? ==> forall i, j :: 0 <= i < |coords| && 0 <= j < |coords| ==>
      Sub(r.value[i], r.value[j]) == Sub(coords[i], coords[j])
  {
    if |coords| == 0 then Err(IndexError)
    else Ok(ShiftAll(coords, Sub(reference, coords[0])))
  }

  /** The translation is the rotating georeference of the pipeline's second step
      with a zero rotation, apart from the error raised on no points. */
  lemma TranslationIsUnturnedGeoreference(m: Analysis, coords: seq<Point3>, reference: Point3, rotation: real)
    requires |coords| > 0 && m.cos(rotation) == 1.0 && m.sin(rotation) == 0.0
    ensures GeoreferenceCoordinates(coords, reference)
      == Georef2.GeoreferenceCoordinates(m, coords, reference.x, reference.y, reference.z, rotation)
  {
    var mine := GeoreferenceCoordinates(coords, reference).value;
    var theirs := Georef2.GeoreferenceCoordinates(m, coords, reference.x, reference.y, reference.z, rotation).value;
    var offset := Sub(reference, coords[0]);
    assert |mine| == |theirs|;
    forall i | 0 <= i < |coords|
      ensures mine[i] == theirs[i]
    {
      assert Plane.Rotate(Plane.Xy(coords[i]), 1.0, 0.0) == Plane.Xy(coords[i]);
      assert theirs[i] == Georef2.Place(m, coords[i], rotation, offset);
      assert mine[i] == Add(coords[i], offset);
    }
    assert mine == theirs;
  }

  /** `main` without its files: the rows converted to metres, then translated. */
  function Script(rows: seq<Point3>, reference: Point3): (r: Result<seq<Point3>>)
    ensures r.Ok? <==> |rows| > 0
    ensures r.Ok? ==> |r.value| == |rows| && r.value[0] == reference
    ensures r.Ok? ==> forall i :: 0 <= i < |rows| ==>
      Sub(r.value[i], reference) == Sub(Georef2.RowsToMetres(rows)[i], Georef2.RowsToMetres(rows)[0])
  {
    GeoreferenceCoordinates(Georef2.RowsToMetres(rows), reference)
  }
}
