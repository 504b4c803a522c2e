/** The GeoJSON type guards of `src/core/helpers/isGeoJSON.ts` over untyped
    JavaScript values. The guards use JavaScript's `&&`, property reads that give
    `undefined` for a missing key, `indexOf` (strict equality) and `==` (loose
    equality). */
module JsValues {
  /** A JSON-like JavaScript value. Objects are plain data: no methods. */
  datatype Js =
    | Undefined
    | Null
    | Bool(b: bool)
    | Num(n: real)
    | Str(s: string)
    | Arr(items: seq<Js>)
    | Obj(fields: map<string, Js>)

  /** JavaScript truthiness (NaN is not modelled). */
  predicate Truthy(v: Js) {
    match v
    case Undefined => false
    case Null => false
    case Bool(b) => b
    case Num(n) => n != 0.0
    case Str(s) => s != ""
    case Arr(_) => true
    case Obj(_) => true
  }

  /** `v.key` on a value that is not null or undefined: a missing key, and any key of
      a non-object, reads as `undefined`. */
  function Get(v: Js, key: string): (r: Js)
    ensures v.Obj? && key in v.fields ==> r == v.fields[key]
    ensures !(v.Obj? && key in v.fields) ==> r == Undefined
  {
    if v.Obj? && key in v.fields then v.fields[key] else Undefined
  }

  /** `v == lit` for a non-empty literal without commas. A string equals it when the
      characters agree; an array is first turned into the comma-joined string of its
      elements, which for such a literal means exactly one element equal to it;
      numbers, booleans and `null`/`undefined` never equal such a string, and a plain
      object reads as "[object Object]". */
  predicate LooselyEquals(v: Js, lit: string)
    decreases v
  {
    match v
    case Str(s) => s == lit
    case Arr(items) => |items| == 1 && LooselyEquals(items[0], lit)
    case Obj(_) => lit == "[object Object]"
    case _ => false
  }
}

module GeoJsonGuards {
  import opened Wrappers
  import opened JsValues

  const GeometryTypes: seq<string> :=
    ["Point", "MultiPoint", "LineString", "MultiLineString", "Polygon", "MultiPolygon", "GeometryCollection"]

  /** `arr.indexOf(v) != -1` on an array of strings: strict equality. */
  predicate StrictlyAmong(v: Js, names: seq<string>) {
    v.Str? && v.s in names
  }

  /** `isGeometry(x)`, as a truth value: `x && x.type && [...].indexOf(x.type) != -1`. */
  predicate IsGeometry(x: Js) {
    Truthy(x) && Truthy(Get(x, "type")) && StrictlyAmong(Get(x, "type"), GeometryTypes)
  }

  /** `isFeature(x)`: `x && x.type && x.type == 'Feature'`. */
  predicate IsFeature(x: Js) {
    Truthy(x) && Truthy(Get(x, "type")) && LooselyEquals(Get(x, "type"), "Feature")
  }

  /** A geometry is an object whose `type` is the string of one of the seven
      geometry names; nothing else passes. */
  lemma IsGeometryIff(x: Js)
    ensures IsGeometry(x) <==> (x.Obj? && "type" in x.fields && x.fields["type"].Str?
      && x.fields["type"].s in GeometryTypes)
  {
  }

  /** A feature is an object whose `type` loosely equals "Feature": the string itself,
      or arrays nested one element deep around it. */
  lemma {:induction false} IsFeatureIff(x: Js)
    ensures IsFeature(x) <==> x.Obj? && "type" in x.fields && LooselyEquals(x.fields["type"], "Feature")
  {
    if x.Obj? && "type" in x.fields && LooselyEquals(x.fields["type"], "Feature") {
      assert x.fields["type"].Str? || x.fields["type"].Arr?;
    }
  }

  /** Loose equality lets `{type: ["Feature"]}` through as a feature. */
  lemma FeatureTypeInAnArray()
    ensures IsFeature(Obj(map["type" := Arr([Str("Feature")])]))
    ensures !IsGeometry(Obj(map["type" := Arr([Str("Polygon")])]))
  {
  }

  /** `isFeatureCollection(x)` as written: it asks for type 'Feature' again and then
      calls `x.features.all(...)`. JavaScript arrays have no `all` method, and a plain
      value has none either, so a truthy `features` throws a TypeError. */
  function IsFeatureCollectionAsWritten(x: Js): (r: Result<bool>)
    ensures r.Err? <==> IsFeature(x) && Truthy(Get(x, "features"))
    ensures r.Err? ==> r.error == TypeError
  {
    if !IsFeature(x) then Ok(false)
    else if !Truthy(Get(x, "features")) then Ok(false)
    else Err(TypeError)
  }

  /** As written the guard never answers true: an actual FeatureCollection gets false,
      and a feature carrying `features` makes it throw. */
  lemma FeatureCollectionNeverRecognised(x: Js)
    ensures IsFeatureCollectionAsWritten(x) != Ok(true)
    ensures Get(x, "type") == Str("FeatureCollection") ==> IsFeatureCollectionAsWritten(x) == Ok(false)
  {
  }

  /** `isGeoJSON(x)` as written: `isGeometry(x) || isFeature(x) || isFeatureCollection(x)`,
      evaluated left to right with short-circuiting. */
  function IsGeoJsonAsWritten(x: Js): (r: Result<bool>) {
    if IsGeometry(x) then Ok(true)
    else if IsFeature(x) then Ok(true)
    else IsFeatureCollectionAsWritten(x)
  }

  /** The third disjunct only runs when `isFeature` was false, so it cannot throw and
      cannot add anything: `isGeoJSON` is `isGeometry || isFeature`, and a
      FeatureCollection is not recognised. */
  lemma IsGeoJsonIsGeometryOrFeature(x: Js)
    ensures IsGeoJsonAsWritten(x) == Ok(IsGeometry(x) || IsFeature(x))
    ensures Get(x, "type") == Str("FeatureCollection") ==> IsGeoJsonAsWritten(x) == Ok(false)
  {
  }

  /** The evidently intended guard: type 'FeatureCollection' and a `features` array
      whose every element is a feature (`Array.prototype.every`). */
  predicate IsFeatureCollection(x: Js) {
    && Truthy(x) && Truthy(Get(x, "type")) && LooselyEquals(Get(x, "type"), "FeatureCollection")
    && Get(x, "features").Arr?
    && forall i :: 0 <= i < |Get(x, "features").items| ==> IsFeature(Get(x, "features").items[i])
  }

  predicate IsGeoJson(x: Js) {
    IsGeometry(x) || IsFeature(x) || IsFeatureCollection(x)
  }

  /** The corrected guards never throw, recognise a collection of features, and
      separate the three kinds: no value is both a feature and a collection, or both
      a geometry and a feature. */
  lemma CorrectedGuardsSeparateKinds(x: Js)
    ensures !(IsFeature(x) && IsFeatureCollection(x))
    ensures !(IsGeometry(x) && IsFeature(x))
    ensures !(IsGeometry(x) && IsFeatureCollection(x))
    ensures IsGeoJson(x) <==> IsGeoJsonAsWritten(x) == Ok(true) || IsFeatureCollection(x)
  {
    IsGeoJsonIsGeometryOrFeature(x);
    if IsFeature(x) && IsFeatureCollection(x) {
      FeatureStrings(Get(x, "type"));
    }
  }

  /** No value loosely equals both "Feature" and "FeatureCollection". */
  lemma {:induction false} FeatureStrings(v: Js)
    ensures !(LooselyEquals(v, "Feature") && LooselyEquals(v, "FeatureCollection"))
    decreases v
  {
    if v.Arr? && |v.items| == 1 {
      FeatureStrings(v.items[0]);
    }
  }

  /** An empty collection and one holding a feature are recognised by the corrected
      guard. */
  lemma CollectionsRecognised()
    ensures IsFeatureCollection(Obj(map["type" := Str("FeatureCollection"), "features" := Arr([])]))
    ensures IsFeatureCollection(Obj(map["type" := Str("FeatureCollection"),
      "features" := Arr([Obj(map["type" := Str("Feature")])])]))
  {
  }
}
