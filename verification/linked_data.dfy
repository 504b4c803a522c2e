/** The conversions of `src/requesters/responseToLinkedData.ts`: a GML `posList`
    becomes a closed GeoJSON ring, geometries found while parsing an API response get
    a GeoSPARQL WKT literal, the JSON-LD document gets its vocabulary, and the quads
    produced from it get fresh blank nodes. */
module GmlRing {
  import opened Wrappers
  import Strings

  /** A GeoJSON position as JavaScript builds it: `numbers[k]` is `undefined` past
      the end of the array. */
  type Position = seq<Option<real>>

  function At(numbers: seq<real>, k: nat): (r: Option<real>)
    ensures k < |numbers| <==> r.Some?
    ensures k < |numbers| ==> r.value == numbers[k]
  {
    if k < |numbers| then Some(numbers[k]) else None
  }

  /** The pairs the loop `for (i = 0; i < numbers.length - 1; i += 2)` pushes. */
  function Pairs(numbers: seq<real>): (r: seq<Position>)
    ensures |r| == |numbers| / 2
    ensures forall k :: 0 <= k < |r| ==> r[k] == [Some(numbers[2 * k]), Some(numbers[2 * k + 1])]
  {
    if |numbers| < 2 then []
    else
      var rest := Pairs(numbers[2..]);
      PairsStep(numbers, rest);
      [[Some(numbers[0]), Some(numbers[1])]] + rest
  }

  /** The first pair in front of the pairs of the rest. */
  lemma PairsStep(numbers: seq<real>, rest: seq<Position>)
    requires |numbers| >= 2 && |rest| == |numbers[2..]| / 2
    requires forall k :: 0 <= k < |rest| ==> rest[k] == [Some(numbers[2..][2 * k]), Some(numbers[2..][2 * k + 1])]
    ensures var r := [[Some(numbers[0]), Some(numbers[1])]] + rest;
      && |r| == |numbers| / 2
      && forall k :: 0 <= k < |r| ==> r[k] == [Some(numbers[2 * k]), Some(numbers[2 * k + 1])]
  {
    var r := [[Some(numbers[0]), Some(numbers[1])]] + rest;
    forall k | 0 <= k < |r|
      ensures r[k] == [Some(numbers[2 * k]), Some(numbers[2 * k + 1])]
    {
      if k > 0 {
        assert r[k] == rest[k - 1];
        assert numbers[2..][2 * (k - 1)] == numbers[2 * k];
        assert numbers[2..][2 * (k - 1) + 1] == numbers[2 * k + 1];
      }
    }
  }

  /** The numbers of a sequence of complete pairs, in order. */
  function Unpair(ps: seq<Position>): seq<real> {
    if |ps| == 0 then []
    else
      var p := ps[0];
      (if |p| == 2 && p[0].Some? && p[1].Some? then [p[0].value, p[1].value] else []) + Unpair(ps[1..])
  }

  /** Pairing loses only an odd trailing number: unpairing gives the numbers back. */
  lemma {:induction false} PairsRoundTrip(numbers: seq<real>)
    ensures Unpair(Pairs(numbers)) == numbers[..|numbers| - |numbers| % 2]
    decreases |numbers|
  {
    if |numbers| >= 2 {
      PairsRoundTrip(numbers[2..]);
      var ps := Pairs(numbers);
      assert ps[1..] == Pairs(numbers[2..]);
      assert numbers[2..][..|numbers[2..]| - |numbers[2..]| % 2] == numbers[2..|numbers| - |numbers| % 2];
      assert numbers[..|numbers| - |numbers| % 2] == [numbers[0], numbers[1]] + numbers[2..|numbers| - |numbers| % 2];
    }
  }

  /** `pieces.map(parseFloat)`. */
  function ParseAll(parseFloat: string -> real, pieces: seq<string>): (r: seq<real>)
    ensures |r| == |pieces| && forall i :: 0 <= i < |pieces| ==> r[i] == parseFloat(pieces[i])
  {
    seq(|pieces|, i requires 0 <= i < |pieces| => parseFloat(pieces[i]))
  }

  /** The Polygon `gmlToGeoJson` returns. */
  datatype Polygon = Polygon(coordinates: seq<seq<Position>>)

  /** `gmlToGeoJson(value)`: split on single spaces, parse each piece with
      `parseFloat` (a parameter), pair consecutive numbers and close the ring with the
      first pair again. */
  function GmlToGeoJson(parseFloat: string -> real, value: string): (r: Polygon)
    ensures |r.coordinates| == 1
  {
    var numbers := ParseAll(parseFloat, Strings.Split(value, " "));
    Polygon([Pairs(numbers) + [[At(numbers, 0), At(numbers, 1)]]])
  }

  /** The single ring has one position per pair of numbers plus the closing one, and
      with at least one pair it is closed: it ends where it starts (section 3.1.6 of
      RFC 7946). */
  lemma GmlRingIsClosed(parseFloat: string -> real, value: string)
    ensures var pieces := Strings.Split(value, " ");
      var ring := GmlToGeoJson(parseFloat, value).coordinates[0];
      |ring| == |pieces| / 2 + 1
      && (|pieces| >= 2 ==> ring[|ring| - 1] == ring[0])
      && forall k :: 0 <= k < |pieces| / 2 ==>
           ring[k] == [Some(parseFloat(pieces[2 * k])), Some(parseFloat(pieces[2 * k + 1]))]
  {
  }

  /** A single number gives a one-position ring whose second coordinate is
      `undefined`. */
  lemma SingleNumberRing(parseFloat: string -> real)
    ensures GmlToGeoJson(parseFloat, "7").coordinates == [[[Some(parseFloat("7")), None]]]
  {
    var s := "7";
    assert Strings.IndexOfFrom(s, " ", 1) == -1;
    assert s[0..1] == [s[0]] && s[0] == '7';
    assert s[0..1] != " ";
    assert Strings.IndexOf("7", " ") == -1;
    assert Strings.Split("7", " ") == ["7"];
    var numbers := ParseAll(parseFloat, ["7"]);
    assert numbers == [parseFloat("7")];
    assert Pairs(numbers) == [];
    assert At(numbers, 0) == Some(parseFloat("7")) && At(numbers, 1) == None;
    var ring := Pairs(numbers) + [[At(numbers, 0), At(numbers, 1)]];
    assert ring == [[Some(parseFloat("7")), None]];
    assert GmlToGeoJson(parseFloat, s).coordinates == [ring];
  }
}

module LinkedData {
  import opened Wrappers
  import opened JsValues
  import Strings
  import GmlRing

  const GeoNs: string := "http://www.opengis.net/ont/geosparql#"
  const SfNs: string := "http://www.opengis.net/ont/sf#"
  const HasDefaultGeometry: string := GeoNs + "hasDefaultGeometry"
  const AsWkt: string := GeoNs + "asWKT"
  const CrsPrefix: string := "<http://www.opengis.net/def/crs/EPSG/0/28992> "

  /** `v[key]`: reading a property of `null` or `undefined` throws. */
  function Read(v: Js, key: string): (r: Result<Js>)
    ensures r.Err? <==> v.Undefined? || v.Null?
    ensures r.Ok? ==> r.value == Get(v, key)
  {
    if v.Undefined? || v.Null? then Err(TypeError) else Ok(Get(v, key))
  }

  function PositionToJs(p: GmlRing.Position): Js {
    Arr(seq(|p|, i requires 0 <= i < |p| => if p[i].Some? then Num(p[i].value) else Undefined))
  }

  /** The GeoJSON object `gmlToGeoJson` builds, as a JavaScript value. */
  function PolygonToJs(poly: GmlRing.Polygon): (r: Js)
    ensures Get(r, "type") == Str("Polygon")
  {
    var rings := poly.coordinates;
    Obj(map["type" := Str("Polygon"),
            "coordinates" := Arr(seq(|rings|, i requires 0 <= i < |rings| =>
              Arr(seq(|rings[i]|, j requires 0 <= j < |rings[i]| => PositionToJs(rings[i][j])))))])
  }

  /** The text of `geometry.type` in a template: a string as is, anything else by
      JavaScript's `String` conversion, a parameter. */
  function TypeText(stringOf: Js -> string, v: Js): string {
    if v.Str? then v.s else stringOf(v)
  }

  /** The node added under `geo:hasDefaultGeometry`. `geojsonToWKT` is a parameter
      that may throw, as it does on a value that is not a GeoJSON geometry; its error
      is the node's. */
  function GeometryNode(stringOf: Js -> string, toWkt: Js -> Result<string>, geometry: Js): (r: Result<Js>)
    ensures r.Ok? <==> toWkt(geometry).Ok?
    ensures r.Err? ==> r.error == toWkt(geometry).error
    ensures r.Ok? ==> r.value.Obj? && "@type" in r.value.fields && AsWkt in r.value.fields
    ensures r.Ok? ==> Get(Get(r.value, AsWkt), "@value") == Str(CrsPrefix + toWkt(geometry).value)
    ensures r.Ok? ==> Get(Get(r.value, AsWkt), "@type") == Str(GeoNs + "wktLiteral")
  {
    var wkt :- toWkt(geometry);
    Ok(Obj(map["@type" := Str(SfNs + TypeText(stringOf, Get(geometry, "type"))),
               AsWkt := Obj(map["@value" := Str(CrsPrefix + wkt), "@type" := Str(GeoNs + "wktLiteral")])]))
  }

  /** `value[HasDefaultGeometry] = node` in strict mode: an object gains the key; a
      string, number or boolean cannot hold a property and throws. An array would
      gain a named property the value model cannot hold, and is returned as is. */
  function Attach(value: Js, node: Js): (r: Result<Js>)
    ensures value.Obj? ==> r == Ok(Obj(value.fields[HasDefaultGeometry := node]))
  {
    match value
    case Obj(fields) => Ok(Obj(fields[HasDefaultGeometry := node]))
    case Arr(_) => Ok(value)
    case _ => Err(TypeError)
  }

  /** The geometry found under `key`, if any: a GML polygon is converted, a
      `geometrie` is taken as it is, any other key has none. */
  function GeometryUnder(parseFloat: string -> real, key: string, value: Js): (r: Result<Js>)
    ensures key != "gml:Polygon" && key != "geometrie" ==> r == Ok(Undefined)
    ensures key == "geometrie" ==> r == Ok(value)
  {
    if key == "geometrie" then Ok(value)
    else if key == "gml:Polygon" then
      var exterior :- Read(value, "gml:exterior");
      var ring :- Read(exterior, "gml:LinearRing");
      var posList :- Read(ring, "gml:posList");
      if posList.Str? then Ok(PolygonToJs(GmlRing.GmlToGeoJson(parseFloat, posList.s))) else Err(TypeError)
    else Ok(Undefined)
  }

  /** `addTranslatedGeoData(key, value)`, the reviver of `JSON.parse`. */
  function AddTranslatedGeoData(parseFloat: string -> real, stringOf: Js -> string, toWkt: Js -> Result<string>,
                                key: string, value: Js): (r: Result<Js>)
    ensures key != "gml:Polygon" && key != "geometrie" ==> r == Ok(value)
    ensures key == "geometrie" && !Truthy(value) ==> r == Ok(value)
    ensures key == "geometrie" && Truthy(value) && toWkt(value).Err? ==> r == Err(toWkt(value).error)
  {
    var geometry :- GeometryUnder(parseFloat, key, value);
    if Truthy(geometry) then
      var node :- GeometryNode(stringOf, toWkt, geometry);
      Attach(value, node)
    else Ok(value)
  }

  /** On an object under either key, exactly one field is added, every other field is
      kept, and the WKT literal carries the Amersfoort / RD New CRS IRI in front of
      the geometry's WKT. */
  lemma AddTranslatedKeepsFields(parseFloat: string -> real, stringOf: Js -> string, toWkt: Js -> Result<string>,
                                 key: string, value: Js)
    requires key == "gml:Polygon" || key == "geometrie"
    requires value.Obj?
    requires AddTranslatedGeoData(parseFloat, stringOf, toWkt, key, value).Ok?
    ensures var out := AddTranslatedGeoData(parseFloat, stringOf, toWkt, key, value).value;
      && out.Obj?
      && out.fields.Keys == value.fields.Keys + {HasDefaultGeometry}
      && (forall k :: k in value.fields && k != HasDefaultGeometry ==> out.fields[k] == value.fields[k])
      && Strings.StartsWith(Get(Get(out.fields[HasDefaultGeometry], AsWkt), "@value").s, CrsPrefix)
  {
    var geometry := GeometryUnder(parseFloat, key, value).value;
    assert Truthy(geometry) by {
      if key == "gml:Polygon" {
        assert geometry.Obj?;
      }
    }
    var node := GeometryNode(stringOf, toWkt, geometry).value;
    var wkt := Get(Get(node, AsWkt), "@value").s;
    assert wkt == CrsPrefix + toWkt(geometry).value;
    assert wkt[..|CrsPrefix|] == CrsPrefix;
  }

  /** A GML polygon becomes an `sf:Polygon` whose WKT is that of the closed ring read
      from its `posList`. */
  lemma AddTranslatedGmlPolygon(parseFloat: string -> real, stringOf: Js -> string, toWkt: Js -> Result<string>,
                                value: Js, posList: string)
    requires value.Obj?
    requires Get(Get(Get(value, "gml:exterior"), "gml:LinearRing"), "gml:posList") == Str(posList)
    ensures var out := AddTranslatedGeoData(parseFloat, stringOf, toWkt, "gml:Polygon", value);
      var geometry := PolygonToJs(GmlRing.GmlToGeoJson(parseFloat, posList));
      (toWkt(geometry).Err? ==> out == Err(toWkt(geometry).error))
      && (toWkt(geometry).Ok? ==>
            out == Ok(Obj(value.fields[HasDefaultGeometry := GeometryNode(stringOf, toWkt, geometry).value]))
            && Get(GeometryNode(stringOf, toWkt, geometry).value, "@type") == Str(SfNs + "Polygon"))
  {
    assert Get(value, "gml:exterior") != Undefined;
    assert Get(Get(value, "gml:exterior"), "gml:LinearRing") != Undefined;
  }

  // ----- the JSON-LD document -----

  /** `${apiUrl.replace(/#$/, '')}#`: one trailing '#' is dropped, then '#' appended. */
  function Vocab(apiUrl: string): (r: string)
    ensures Strings.EndsWith(r, "#")
    ensures |r| == (if Strings.EndsWith(apiUrl, "#") then |apiUrl| else |apiUrl| + 1)
  {
    (if Strings.EndsWith(apiUrl, "#") then apiUrl[..|apiUrl| - 1] else apiUrl) + "#"
  }

  /** The vocabulary rule is a no-op on its own output, leaves an IRI that already
      ends in '#' alone, and otherwise only appends the '#'. */
  lemma VocabIdempotent(apiUrl: string)
    ensures Vocab(Vocab(apiUrl)) == Vocab(apiUrl)
    ensures Vocab(apiUrl) == apiUrl <==> Strings.EndsWith(apiUrl, "#")
    ensures !Strings.EndsWith(apiUrl, "#") ==> Vocab(apiUrl) == apiUrl + "#" && Vocab(apiUrl + "#") == Vocab(apiUrl)
  {
    var v := Vocab(apiUrl);
    assert v[..|v| - 1] + "#" == v;
    if Strings.EndsWith(apiUrl, "#") {
      assert apiUrl[..|apiUrl| - 1] + "#" == apiUrl;
    }
    var u := apiUrl + "#";
    assert u[..|u| - 1] == apiUrl;
  }

  /** The document handed to `jsonld.toRDF`: the context, the instance IRI and the
      reverse link to the building, then the response's own keys, which win over
      these three on a clash. */
  function Document(data: map<string, Js>, apiUrl: string, buildingUri: string, instanceUri: string)
    : (r: map<string, Js>)
    ensures r.Keys == data.Keys + {"@context", "@id", "@reverse"}
    ensures forall k :: k in data ==> r[k] == data[k]
    ensures "@context" !in data ==> r["@context"] == Obj(map["@vocab" := Str(Vocab(apiUrl))])
    ensures "@id" !in data ==> r["@id"] == Str(instanceUri)
    ensures "@reverse" !in data ==>
      r["@reverse"] == Obj(map[Vocab(apiUrl) := Obj(map["@id" := Str(buildingUri)])])
  {
    var vocab := Vocab(apiUrl);
    map["@context" := Obj(map["@vocab" := Str(vocab)]),
        "@id" := Str(instanceUri),
        "@reverse" := Obj(map[vocab := Obj(map["@id" := Str(buildingUri)])])] + data
  }
}
